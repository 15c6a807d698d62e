/** The two output modes compared: what flat decoding accepts, and what the 32 KB dictionary accepts. */
module TinflWindow {
  import opened Numbers
  import opened TinflBits
  import opened TinflTables
  import opened TinflSpec
  import opened TinflBitReader
  import opened TinflInflate
  import opened TinflPadding
  import opened TinflEndings
  import opened TinflSessions

  lemma SameNeed(cfg: Config, room: nat, st: State, b: bits)
    requires Step(cfg, st, b).Need?
    ensures Step(Wrapping(cfg.zlib, room), st, b).Need?
  {
    hide Accepted, LeVal, StepTables, DecodeSym;
  }

  lemma {:induction false} SameRuns(cfg: Config, room: nat, st: State, b: bits, st': State, b': bits, n: nat, pads: nat)
    requires !cfg.wrap && Runs(cfg, st, b, st', b', n, pads) && st'.phase.Done?
    requires PastHeader(st.phase) && room >= LZ_DICT_SIZE
    ensures Runs(Wrapping(cfg.zlib, room), st, b, st', b', n, pads)
    decreases n
  {
    hide Step;
    if n > 0 {
      var r := Step(cfg, st, b);
      if r.Go? {
        SameStep(cfg, room, st, b);
        NoHeaderAgain(cfg, st, b);
        if Final(r.next.phase) { StoppedStays(cfg, r.next, b[r.used..], st', b', n - 1, pads); }
        SameRuns(cfg, room, r.next, b[r.used..], st', b', n - 1, pads);
      } else {
        SameNeed(cfg, room, st, b);
        SameRuns(cfg, room, st, b + Zeros(8), st', b', n - 1, pads - 1);
      }
    }
  }

  /** A sound stream, cut off or not, means the same in both modes, except that the wrapping mode refuses, without
      writing anything, a header that asks for a window of more than 32 KB. */
  lemma ModesAgree(cfg: Config, room: nat, z: seq<byte>, goal: State, rest: bits, n: nat, pads: nat)
    requires !cfg.wrap && room >= LZ_DICT_SIZE && goal.phase.Done?
    requires Runs(cfg, Begin(cfg), ByteBits(z), goal, rest, n, pads)
    ensures cfg.zlib ==> |z| >= 2
    ensures !cfg.zlib || z[0] / 16 <= 7 ==> Runs(Wrapping(cfg.zlib, room), Begin(cfg), ByteBits(z), goal, rest, n, pads)
    ensures cfg.zlib && z[0] / 16 > 7 ==>
      Inflates(Wrapping(cfg.zlib, room), z, State(false, Failed, []), ByteBits(z[2..]), 2)
  {
    hide Runs, Byte, HeaderOk, ByteBits;
    if !cfg.zlib {
      SameRuns(cfg, room, Begin(cfg), ByteBits(z), goal, rest, n, pads);
    } else {
      var cfw := Wrapping(true, room);
      HeaderIsWhole(cfg, z, goal, rest, n, pads);
      var m := HeaderTaken(cfg, z, goal, rest, n, pads);
      if z[0] / 16 <= 7 {
        HeaderFits(cfg, room, z[0], z[1]);
        SameRuns(cfg, room, State(false, BlockHeader, []), ByteBits(z[2..]), goal, rest, m, pads);
        HeaderInFront(cfw, z, goal, rest, m, pads);
      } else {
        Refused(cfw, z);
      }
    }
  }

  lemma HeaderFits(cfg: Config, room: nat, cmf: byte, flg: byte)
    requires HeaderOk(cfg, cmf, flg) && cmf / 16 <= 7 && room >= LZ_DICT_SIZE
    ensures HeaderOk(Wrapping(cfg.zlib, room), cmf, flg)
  {
    WindowFits(cmf / 16, room);
  }

  lemma HeaderTaken(cfg: Config, z: seq<byte>, goal: State, rest: bits, n: nat, pads: nat) returns (m: nat)
    requires cfg.zlib && |z| >= 2 && goal.phase.Done? && Runs(cfg, Begin(cfg), ByteBits(z), goal, rest, n, pads)
    ensures HeaderOk(cfg, z[0], z[1]) && n == m + 2
    ensures Runs(cfg, State(false, BlockHeader, []), ByteBits(z[2..]), goal, rest, m, pads)
  {
    hide Byte, HeaderOk, ByteBits, Step;
    TwoBytes(cfg, z);
    var st, next := State(false, ZHeader1(z[0]), []), State(false, BlockHeader, []);
    assert n > 0 && Runs(cfg, st, ByteBits(z[1..]), goal, rest, n - 1, pads);
    assert n > 1;
    if HeaderOk(cfg, z[0], z[1]) {
      return n - 2;
    } else {
      StoppedStays(cfg, State(false, Failed, []), ByteBits(z[2..]), goal, rest, n - 2, pads);
      assert false;
    }
  }

  lemma HeaderInFront(cfg: Config, z: seq<byte>, goal: State, rest: bits, m: nat, pads: nat)
    requires cfg.zlib && |z| >= 2 && HeaderOk(cfg, z[0], z[1])
    requires Runs(cfg, State(false, BlockHeader, []), ByteBits(z[2..]), goal, rest, m, pads)
    ensures Runs(cfg, Begin(cfg), ByteBits(z), goal, rest, m + 2, pads)
  {
    hide Byte, HeaderOk, ByteBits, Step;
    TwoBytes(cfg, z);
    assert Runs(cfg, State(false, ZHeader1(z[0]), []), ByteBits(z[1..]), goal, rest, m + 1, pads);
  }

  /** The two steps that read the header. */
  lemma TwoBytes(cfg: Config, z: seq<byte>)
    requires cfg.zlib && |z| >= 2
    ensures var st := State(false, ZHeader1(z[0]), []);
      && Step(cfg, Begin(cfg), ByteBits(z)) == Go(st, 8) && ByteBits(z)[8..] == ByteBits(z[1..])
      && Step(cfg, st, ByteBits(z[1..]))
        == Go(State(false, if HeaderOk(cfg, z[0], z[1]) then BlockHeader else Failed, []), 8)
      && ByteBits(z[1..])[8..] == ByteBits(z[2..])
  {
    hide Byte, HeaderOk, ByteBits, Step;
    NextByte(z, 0);
    NextByte(z, 1);
    assert z[0..] == z;
    StepZHeader0(cfg, Begin(cfg), ByteBits(z));
    StepZHeader1(cfg, State(false, ZHeader1(z[0]), []), ByteBits(z[1..]));
  }

  lemma Refused(cfg: Config, z: seq<byte>)
    requires cfg.wrap && cfg.zlib && |z| >= 2 && z[0] / 16 > 7
    ensures Reaches(cfg, Begin(cfg), ByteBits(z), State(false, Failed, []), ByteBits(z[2..]), 2)
  {
    hide Byte, ByteBits, Step;
    TwoBytes(cfg, z);
    var end, st := State(false, Failed, []), State(false, ZHeader1(z[0]), []);
    assert Reaches(cfg, end, ByteBits(z[2..]), end, ByteBits(z[2..]), 0);
    assert Reaches(cfg, st, ByteBits(z[1..]), end, ByteBits(z[2..]), 1);
  }

  // ----- a header that is cut off ends in failure

  /** Where zeros lead from the header of a block. */
  predicate OnZeros(p: Phase) { p.BlockHeader? || p.StoredAlign? || p.Failed? || (p.StoredHeader? && AllZero(p.hdr)) }

  lemma OnlyZeros(cfg: Config, st: State, b: bits)
    requires OnZeros(st.phase) && ZerosFrom(b, 0)
    ensures var r := Step(cfg, st, b); r.Go? ==> OnZeros(r.next.phase)
  {
    hide LeVal, FixedLit, FixedDist, Byte;
    if |b| >= 8 { ByteOfZeros(b); }
    if |b| >= 3 { ZeroBits(b[1..3]); }
  }

  lemma {:induction false} ZerosFail(cfg: Config, st: State, b: bits, goal: State, rest: bits, n: nat, pads: nat)
    requires OnZeros(st.phase) && ZerosFrom(b, 0) && Runs(cfg, st, b, goal, rest, n, pads)
    ensures OnZeros(goal.phase)
    decreases n
  {
    hide Step;
    if n > 0 {
      OnlyZeros(cfg, st, b);
      var r := Step(cfg, st, b);
      if r.Go? {
        ZerosFail(cfg, r.next, b[r.used..], goal, rest, n - 1, pads);
      } else {
        ZerosFail(cfg, st, b + Zeros(8), goal, rest, n - 1, pads - 1);
      }
    }
  }

  lemma HeaderIsWhole(cfg: Config, z: seq<byte>, goal: State, rest: bits, n: nat, pads: nat)
    requires cfg.zlib && Runs(cfg, Begin(cfg), ByteBits(z), goal, rest, n, pads) && goal.phase.Done?
    ensures |z| >= 2
  {
    hide Byte, HeaderOk, ByteBits;
    if |z| == 1 {
      NextByte(z, 0);
      assert z[0..] == z && ByteBits(z[1..]) == [];
      StepZHeader0(cfg, Begin(cfg), ByteBits(z));
      FlagsCutOff(cfg, z[0], goal, rest, n - 1, pads);
    } else if |z| == 0 {
      assert ByteBits(z) == [] && [] + Zeros(8) == Zeros(8);
      ByteOfZeros(Zeros(8));
      StepZHeader0(cfg, Begin(cfg), Zeros(8));
      assert Zeros(8)[8..] == [];
      FlagsCutOff(cfg, 0, goal, rest, n - 2, pads - 1);
    }
  }

  lemma FlagsCutOff(cfg: Config, cmf: byte, goal: State, rest: bits, n: nat, pads: nat)
    requires Runs(cfg, State(false, ZHeader1(cmf), []), [], goal, rest, n, pads)
    ensures !goal.phase.Done?
  {
    hide Byte, HeaderOk;
    var st := State(false, ZHeader1(cmf), []);
    if n > 1 {
      assert [] + Zeros(8) == Zeros(8) && Zeros(8)[8..] == [];
      ByteOfZeros(Zeros(8));
      StepZHeader1(cfg, st, Zeros(8));
      var next := State(false, if HeaderOk(cfg, cmf, 0) then BlockHeader else Failed, []);
      assert Runs(cfg, next, [], goal, rest, n - 2, pads - 1);
      ZerosFail(cfg, next, [], goal, rest, n - 2, pads - 1);
    }
  }

  lemma NextByte(z: seq<byte>, k: nat)
    requires k < |z|
    ensures |ByteBits(z[k..])| >= 8 && Byte(ByteBits(z[k..])) == z[k] && ByteBits(z[k..])[8..] == ByteBits(z[k + 1..])
  {
    var t := z[k..];
    assert t[1..] == z[k + 1..];
    assert ByteBits(t)[..8] == BitsOf(z[k], 8);
    Pow2Facts();
    assert z[k] < Pow2(8);
    LeValOfBits(z[k]);
  }

  lemma LeValOfBits(c: byte)
    ensures LeVal(BitsOf(c, 8)) == c
  {
    BitsOfSplit(c, 8, 8);
    ShiftMeaning(c, 8);
    Pow2Facts();
    ShrBound(c, 8, 8);
    assert BitsOf(c, 8)[..8] == BitsOf(c, 8);
  }

  // ----- a stream on which the modes differ

  /** An empty zlib stream that declares a window of 64 KB. */
  const WIDE_WINDOW: seq<byte> := [0x88, 0x1C, 0x01, 0x00, 0x00, 0xFF, 0xFF, 0x00, 0x00, 0x00, 0x01]

  const EMPTY_DONE := State(true, Done(1), [])

  ghost predicate Wide(z: seq<byte>)
  {
    && |z| == 11 && z[2] == 1 && z[3] == 0 && z[4] == 0 && z[5] == 0xFF && z[6] == 0xFF
    && z[7] == 0 && z[8] == 0 && z[9] == 0 && z[10] == 1
  }

  /** Flat decoding accepts it and the dictionary does not. */
  lemma WideWindow()
    ensures Inflates(Flat(true), WIDE_WINDOW, EMPTY_DONE, [], 14)
    ensures EndStatus(Flat(true), EMPTY_DONE) == StatusDone
    ensures Inflates(Wrapping(true, LZ_DICT_SIZE), WIDE_WINDOW, State(false, Failed, []), ByteBits(WIDE_WINDOW[2..]), 2)
  {
    hide Reaches, Step, Byte, ByteBits;
    var cfg := Flat(true);
    WideBody(WIDE_WINDOW, cfg);
    NextByte(WIDE_WINDOW, 0);
    NextByte(WIDE_WINDOW, 1);
    StepZHeader0(cfg, Begin(cfg), ByteBits(WIDE_WINDOW[0..]));
    StepZHeader1(cfg, State(false, ZHeader1(0x88), []), ByteBits(WIDE_WINDOW[1..]));
    ByteStep(WIDE_WINDOW, cfg, State(false, ZHeader1(0x88), []), 1, State(false, BlockHeader, []), 12);
    ByteStep(WIDE_WINDOW, cfg, Begin(cfg), 0, State(false, ZHeader1(0x88), []), 13);
    assert WIDE_WINDOW[0..] == WIDE_WINDOW;
    UnpaddedRuns(cfg, Begin(cfg), ByteBits(WIDE_WINDOW), EMPTY_DONE, [], 14);
    ModesAgree(cfg, LZ_DICT_SIZE, WIDE_WINDOW, EMPTY_DONE, [], 14, 0);
  }

  lemma OneStep(cfg: Config, st: State, b: bits, next: State, used: nat, m: nat)
    requires used <= |b| && Step(cfg, st, b) == Go(next, used) && Reaches(cfg, next, b[used..], EMPTY_DONE, [], m)
    ensures Reaches(cfg, st, b, EMPTY_DONE, [], m + 1)
  {
    hide Step;
  }

  lemma ByteStep(z: seq<byte>, cfg: Config, st: State, k: nat, next: State, m: nat)
    requires k < |z| && Step(cfg, st, ByteBits(z[k..])) == Go(next, 8)
    requires Reaches(cfg, next, ByteBits(z[k + 1..]), EMPTY_DONE, [], m)
    ensures Reaches(cfg, st, ByteBits(z[k..]), EMPTY_DONE, [], m + 1)
  {
    hide Step, Byte, Reaches;
    NextByte(z, k);
    OneStep(cfg, st, ByteBits(z[k..]), next, 8, m);
  }

  lemma WideBody(z: seq<byte>, cfg: Config)
    requires cfg.zlib && Wide(z)
    ensures Reaches(cfg, State(false, BlockHeader, []), ByteBits(z[2..]), EMPTY_DONE, [], 12)
  {
    hide Step, Byte, LeVal, ByteBits, Reaches;
    WideHeader(z, cfg);
    var b := ByteBits(z[2..]);
    NextByte(z, 2);
    FirstThree(b);
    StepBlockHeader(cfg, State(false, BlockHeader, []), b);
    var st := State(true, StoredAlign, []);
    StepAlign(cfg, st, b[3..]);
    assert b[3..][5..] == b[8..];
    assert Partial(|b| - 3) == 5 by { assert |b| == 72; }
    OneStep(cfg, st, b[3..], State(true, StoredHeader([]), []), 5, 10);
    OneStep(cfg, State(false, BlockHeader, []), b, st, 3, 11);
  }

  lemma FirstThree(b: bits)
    requires |b| >= 8 && Byte(b) == 1
    ensures LeVal(b[..3]) == 1
  {
    LeValConcat(b[..3], b[..8][3..]);
    assert b[..8] == b[..3] + b[..8][3..];
    LeValBound(b[..3]);
    assert Pow2(3) == 8;
  }

  lemma WideHeader(z: seq<byte>, cfg: Config)
    requires cfg.zlib && Wide(z)
    ensures Reaches(cfg, State(true, StoredHeader([]), []), ByteBits(z[3..]), EMPTY_DONE, [], 10)
  {
    hide Step, Byte, ByteBits, Reaches, AfterHeaderByte;
    WideLength(z);
    var b := ByteBits(z[7..]);
    WideTrailer(z, cfg);
    StepAlign(cfg, State(true, TrailerAlign, []), b);
    assert |b| == 32 && b[0..] == b;
    OneStep(cfg, State(true, TrailerAlign, []), b, State(true, Trailer(0, 0), []), 0, 4);
    StepStoredEnd(cfg, State(true, StoredData(0), []), b);
    OneStep(cfg, State(true, StoredData(0), []), b, State(true, TrailerAlign, []), 0, 5);
    HeaderByte(z, cfg, 6, 6);
    HeaderByte(z, cfg, 5, 7);
    HeaderByte(z, cfg, 4, 8);
    HeaderByte(z, cfg, 3, 9);
    assert z[3..3] == [];
  }

  lemma WideLength(z: seq<byte>)
    requires Wide(z)
    ensures AfterHeaderByte(z[3..7]) == StoredData(0) && AfterHeaderByte(z[3..3]) == StoredHeader([])
  {
    var h := z[3..7];
    assert h[0] == 0 && h[1] == 0 && h[2] == 0xFF && h[3] == 0xFF;
  }

  lemma HeaderByte(z: seq<byte>, cfg: Config, k: nat, m: nat)
    requires 3 <= k < 7 <= |z|
    requires Reaches(cfg, State(true, AfterHeaderByte(z[3..k + 1]), []), ByteBits(z[k + 1..]), EMPTY_DONE, [], m)
    ensures Reaches(cfg, State(true, StoredHeader(z[3..k]), []), ByteBits(z[k..]), EMPTY_DONE, [], m + 1)
    ensures k > 3 ==> AfterHeaderByte(z[3..k]) == StoredHeader(z[3..k])
  {
    hide Step, Byte, ByteBits;
    NextByte(z, k);
    var st := State(true, StoredHeader(z[3..k]), []);
    assert z[3..k] + [z[k]] == z[3..k + 1];
    StepStoredHeader(cfg, st, ByteBits(z[k..]));
    ByteStep(z, cfg, st, k, State(true, AfterHeaderByte(z[3..k + 1]), []), m);
  }

  lemma WideTrailer(z: seq<byte>, cfg: Config)
    requires Wide(z)
    ensures Reaches(cfg, State(true, Trailer(0, 0), []), ByteBits(z[7..]), EMPTY_DONE, [], 4)
  {
    hide Step, Byte;
    assert z[11..] == [] && ByteBits(z[11..]) == [];
    TrailerStep(z, cfg, 3, 0, 10, EMPTY_DONE, 0);
    TrailerStep(z, cfg, 2, 0, 9, State(true, Trailer(3, 0), []), 1);
    TrailerStep(z, cfg, 1, 0, 8, State(true, Trailer(2, 0), []), 2);
    TrailerStep(z, cfg, 0, 0, 7, State(true, Trailer(1, 0), []), 3);
  }

  lemma TrailerStep(z: seq<byte>, cfg: Config, i: nat, adler: nat, k: nat, next: State, m: nat)
    requires k < |z| && next == State(true, AfterTrailerByte(i, adler, z[k]), [])
    requires Reaches(cfg, next, ByteBits(z[k + 1..]), EMPTY_DONE, [], m)
    ensures Reaches(cfg, State(true, Trailer(i, adler), []), ByteBits(z[k..]), EMPTY_DONE, [], m + 1)
  {
    hide Step, Byte, ByteBits, AfterTrailerByte;
    NextByte(z, k);
    StepTrailer(cfg, State(true, Trailer(i, adler), []), ByteBits(z[k..]));
    ByteStep(z, cfg, State(true, Trailer(i, adler), []), k, next, m);
  }
}
