/** Every stream comes to an end, however it is cut off: padded with zeros the machine reaches a verdict, a stored block
    that is cut short, or more output than any limit; or it leaves the format. */
module TinflEndings {
  import opened Numbers
  import opened TinflBits
  import opened TinflCanonical
  import opened TinflTables
  import opened TinflSpec
  import opened TinflBitReader
  import opened TinflInflate
  import opened TinflPadding

  // ----- what every state on a run keeps

  /** The machine can go on from here, or it is at the end. */
  ghost predicate Sane(st: State)
  {
    WellFormed(st.phase) && match st.phase
      case CodeLens(_, cls, _) => |cls| == 19
      case Repeat(_, cls, _, _) => |cls| == 19
      case Distance(_, len) => len > 0
      case DistanceExtra(_, len, _) => len > 0
      case Copy(_, _, dist) => 1 <= dist <= |st.out|
      case _ => true
  }

  lemma StepStaysSane(cfg: Config, st: State, b: bits)
    requires Sane(st)
    ensures var r := Step(cfg, st, b); !Final(st.phase) ==> !r.Halt? && (r.Go? ==> Sane(r.next))
  {
    hide Accepted, LeVal, StepBytes, StepTables, StepMatch, Code;
    if !Final(st.phase) { OnlyEndsHalt(cfg, st, b); }
    BytesStaySane(cfg, st, b);
    TablesStaySane(st, b);
    MatchStaysSane(cfg, st, b);
  }

  lemma OnlyEndsHalt(cfg: Config, st: State, b: bits)
    requires Sane(st) && !Final(st.phase)
    ensures !Step(cfg, st, b).Halt?
  {
    hide Accepted, LeVal, Code, Byte, BlockStart, AfterHeaderByte, AfterSize, AfterClSize, MoreLens, AfterCl,
         AfterSymbol, AfterDistance, HeaderOk;
  }

  lemma BytesStaySane(cfg: Config, st: State, b: bits)
    requires Sane(st)
    ensures var r := StepBytes(cfg, st, b); r.Go? ==> Sane(r.next)
  {
    hide Accepted, LeVal, FixedLit, FixedDist, HeaderOk, Byte;
  }

  lemma TablesStaySane(st: State, b: bits)
    requires Sane(st)
    ensures var r := StepTables(st, b); r.Go? ==> Sane(r.next)
  {
    hide Accepted, LeVal, AddRun, RunValue;
    if st.phase.TableSizes? && |b| >= SIZE_BITS[|st.phase.sizes|] {
      StepTableSizes(Flat(false), st, b);
    }
  }

  lemma MatchStaysSane(cfg: Config, st: State, b: bits)
    requires Sane(st)
    ensures var r := StepMatch(cfg, st, b); r.Go? ==> Sane(r.next)
  {
    hide Accepted, LeVal, LengthExtraBits, DistExtraBits, LengthBase, DistBase;
  }

  // ----- on zeros the phases come in falling order, but for output

  predicate AllZero(s: seq<byte>) { forall i | 0 <= i < |s| :: s[i] == 0 }

  function Class(p: Phase): nat
  {
    match p
    case ZHeader0 => 18
    case ZHeader1(_) => 17
    case TableSizes(_) => 16
    case ClSizes(_, _, _) => 15
    case CodeLens(_, _, _) => 14
    case Repeat(_, _, _, _) => 14
    case Symbols(_) => 12
    case LengthExtra(_, _) => 11
    case Distance(_, _) => 10
    case DistanceExtra(_, _, _) => 9
    case Copy(_, len, _) => if len == 0 then 13 else 8
    case Literal(_, _) => 8
    case StoredHeader(hdr) => if AllZero(hdr) then 3 else 8
    case StoredData(left) => if left == 0 then 6 else 7
    case StoredByte(_, _) => 6
    case BlockHeader => 5
    case StoredAlign => 4
    case TrailerAlign => 2
    case Trailer(_, _) => 1
    case _ => 0
  }

  function Within(p: Phase): nat
  {
    match p
    case TableSizes(sizes) => if |sizes| < 3 then 3 - |sizes| else 0
    case ClSizes(sizes, _, i) => if |sizes| == 3 && i < sizes[2] then sizes[2] - i else 0
    case CodeLens(sizes, _, lens) => 2 * Missing(sizes, lens) + 1
    case Repeat(sizes, _, lens, _) => 2 * Missing(sizes, lens)
    case StoredHeader(hdr) => if |hdr| < 4 then 4 - |hdr| else 0
    case Trailer(k, _) => if k < 4 then 4 - k else 0
    case _ => 0
  }

  function Missing(sizes: seq<nat>, lens: Lengths): nat
  {
    if |sizes| == 3 && |lens| < sizes[0] + sizes[1] then sizes[0] + sizes[1] - |lens| else 0
  }

  predicate Below(p: Phase, q: Phase) { Class(p) < Class(q) || (Class(p) == Class(q) && Within(p) < Within(q)) }

  /** Only the first `r` bits can be ones. */
  predicate ZerosFrom(b: bits, r: nat) { r <= |b| && forall i | r <= i < |b| :: !b[i] }

  lemma StepDescends(cfg: Config, st: State, b: bits, r: nat)
    requires Sane(st) && ZerosFrom(b, r)
    ensures var q := Step(cfg, st, b); q.Go? ==>
      |q.next.out| > |st.out| || (r > 0 && q.used > 0) || (q.next.out == st.out && Below(q.next.phase, st.phase))
  {
    hide Accepted, LeVal, StepBytes, StepTables, StepMatch, Code;
    BytesDescend(cfg, st, b, r);
    TablesDescend(st, b);
    MatchDescends(cfg, st, b);
  }

  lemma BytesDescend(cfg: Config, st: State, b: bits, r: nat)
    requires Sane(st) && ZerosFrom(b, r)
    ensures var q := StepBytes(cfg, st, b); q.Go? ==>
      |q.next.out| > |st.out| || (r > 0 && q.used > 0) || (q.next.out == st.out && Below(q.next.phase, st.phase))
  {
    hide Accepted, LeVal, FixedLit, FixedDist, HeaderOk, Byte;
    if r == 0 && |b| >= 8 { ByteOfZeros(b); }
    if r == 0 && |b| >= 3 { ZeroBits(b[1..3]); }
  }

  lemma {:induction false} ZeroBits(b: bits)
    requires ZerosFrom(b, 0)
    ensures LeVal(b) == 0
  {
    if b != [] { ZeroBits(b[1..]); }
  }

  lemma ByteOfZeros(b: bits)
    requires ZerosFrom(b, 0) && |b| >= 8
    ensures Byte(b) == 0
  {
    ZeroBits(b[..8]);
  }

  lemma TablesDescend(st: State, b: bits)
    requires Sane(st)
    ensures var q := StepTables(st, b); q.Go? ==> q.next.out == st.out && Below(q.next.phase, st.phase)
  {
    hide Accepted, LeVal, AddRun, RunValue;
  }

  lemma MatchDescends(cfg: Config, st: State, b: bits)
    requires Sane(st)
    ensures var q := StepMatch(cfg, st, b); q.Go? ==>
      |q.next.out| > |st.out| || (q.next.out == st.out && Below(q.next.phase, st.phase))
  {
    hide Accepted, LeVal, LengthExtraBits, DistExtraBits, LengthBase, DistBase;
  }

  lemma NeedsAtMost15(cfg: Config, st: State, b: bits)
    requires Step(cfg, st, b).Need?
    ensures |b| < 15
  {
    hide Accepted, LeVal, Code, Byte, AfterHeaderByte, AfterSize, AfterClSize, MoreLens, AfterCl, AfterSymbol,
         AfterDistance, HeaderOk, BlockStart, LengthBase, DistBase;
    match st.phase
    case CodeLens(_, cls, _) => AcceptedFits(cls); if |b| >= 15 { ShortIsShort(cls, b); }
    case Symbols(codes) => AcceptedFits(codes.lit); if |b| >= 15 { ShortIsShort(codes.lit, b); }
    case Distance(codes, _) => AcceptedFits(codes.dist); if |b| >= 15 { ShortIsShort(codes.dist, b); }
    case _ =>
  }

  function Room(st: State, room: nat): nat { if |st.out| <= room then room + 1 - |st.out| else 0 }

  /** Real bits, room for output, phase and bits at hand: one of them falls in each step, before it the others stay. */
  lemma {:induction false} RunEnds(cfg: Config, st: State, b: bits, r: nat, room: nat)
    returns (goal: State, rest: bits, n: nat, pads: nat)
    requires Sane(st) && ZerosFrom(b, r)
    ensures Runs(cfg, st, b, goal, rest, n, pads)
    ensures Final(goal.phase) || Stops(goal, rest) || |goal.out| > room
    decreases r, Room(st, room), Class(st.phase), Within(st.phase), if |b| < 32 then 32 - |b| else 0
  {
    hide Sane, Class, Within, Step;
    if Final(st.phase) || |st.out| > room || Stops(st, b) { return st, b, 0, 0; }
    StepStaysSane(cfg, st, b);
    StepDescends(cfg, st, b, r);
    var q := Step(cfg, st, b);
    if q.Go? {
      StepGrows(cfg, st, b);
      goal, rest, n, pads := RunEnds(cfg, q.next, b[q.used..], if q.used <= r then r - q.used else 0, room);
      n := n + 1;
    } else {
      NeedsAtMost15(cfg, st, b);
      NeedsByte(cfg, st, b);
      goal, rest, n, pads := RunEnds(cfg, st, b + Zeros(8), r, room);
      n, pads := n + 1, pads + 1;
    }
  }

  lemma NeedsByte(cfg: Config, st: State, b: bits)
    requires Step(cfg, st, b).Need?
    ensures InStored(st.phase) ==> |b| < 8
  {
    hide StepTables, StepCodeLens, StepSymbols, StepDistance, Accepted, LeVal;
  }

  /** For every stream there is an end of the run, unless it leaves the format, within any room for output. */
  lemma EveryStreamEnds(cfg: Config, z: seq<byte>, room: nat)
    returns (goal: State, rest: bits, n: nat, pads: nat)
    ensures Runs(cfg, Begin(cfg), ByteBits(z), goal, rest, n, pads)
    ensures goal.phase.Undefined? || Stops(goal, rest) || |goal.out| > room
  {
    hide Runs;
    goal, rest, n, pads := RunEnds(cfg, Begin(cfg), ByteBits(z), 8 * |z|, room);
  }

  // ----- a stream that is cut off where zeros are a literal goes on for ever

  /** All zeros are the code of literal `c`. */
  ghost predicate ZerosAre(codes: Codes, c: byte)
  {
    CodesOk(codes) && Uses(codes.lit, c) && Code(codes.lit, c) == Zeros(codes.lit[c])
  }

  lemma NextOfZeros(codes: Codes, c: byte, k: nat)
    requires ZerosAre(codes, c)
    ensures var d := DecodeSym(codes.lit, Zeros(k)); if k < codes.lit[c] then d.Short? else d == Sym(c)
  {
    hide Code, Accepted;
    AcceptedFits(codes.lit);
    var d, l := DecodeSym(codes.lit, Zeros(k)), codes.lit[c];
    if k < l {
      assert Zeros(l)[..k] == Zeros(k);
      assert Zeros(k) <= Code(codes.lit, c);
      if d.Sym? {
        assert Code(codes.lit, d.s) <= Code(codes.lit, c);
        PrefixFree(codes.lit, d.s, c);
        assert false;
      }
    } else {
      assert Zeros(k)[..l] == Zeros(l);
      assert IsNext(codes.lit, c, Zeros(k));
      NextIsUnique(codes.lit, c, d.s, Zeros(k));
    }
  }

  lemma LiteralStep(cfg: Config, st: State, codes: Codes, c: byte, k: nat)
    requires st.phase == Symbols(codes) && ZerosAre(codes, c)
    ensures var l := codes.lit[c]; var put := State(st.final, Literal(codes, c), st.out);
      if k < l then l <= 15 && Step(cfg, st, Zeros(k)).Need?
      else
        && Step(cfg, st, Zeros(k)) == Go(put, l) && Zeros(k)[l..] == Zeros(k - l)
        && Step(cfg, put, Zeros(k - l)) == Go(State(st.final, Symbols(codes), st.out + [c]), 0)
  {
    hide Code, DecodeSym, Accepted;
    NextOfZeros(codes, c, k);
    if k >= codes.lit[c] {
      StepWrite(cfg, State(st.final, Literal(codes, c), st.out), Zeros(k - codes.lit[c]));
    }
  }

  lemma {:induction false} LiteralsForEver(cfg: Config, st: State, codes: Codes, c: byte, k: nat, more: nat)
    returns (goal: State, j: nat, n: nat, pads: nat)
    requires st.phase == Symbols(codes) && ZerosAre(codes, c)
    ensures Runs(cfg, st, Zeros(k), goal, Zeros(j), n, pads) && n >= more
    decreases more, if k < 16 then 16 - k else 0
  {
    hide Code, Step, Accepted;
    if more == 0 { return st, k, 0, 0; }
    LiteralStep(cfg, st, codes, c, k);
    var l := codes.lit[c];
    if k < l {
      assert Zeros(k) + Zeros(8) == Zeros(k + 8);
      goal, j, n, pads := LiteralsForEver(cfg, st, codes, c, k + 8, more);
      n, pads := n + 1, pads + 1;
    } else {
      var put, next := State(st.final, Literal(codes, c), st.out), State(st.final, Symbols(codes), st.out + [c]);
      goal, j, n, pads := LiteralsForEver(cfg, next, codes, c, k - l, more - 1);
      assert Zeros(k - l)[0..] == Zeros(k - l);
      assert Runs(cfg, put, Zeros(k - l), goal, Zeros(j), n + 1, pads);
      n := n + 2;
    }
  }

  /** So it has no end, and no buffer is large enough for it. */
  lemma NoEnd(cfg: Config, st: State, codes: Codes, c: byte, k: nat, goal: State, rest: bits, n: nat, pads: nat)
    requires st.phase == Symbols(codes) && ZerosAre(codes, c) && Runs(cfg, st, Zeros(k), goal, rest, n, pads)
    ensures !Stops(goal, rest) && !Final(goal.phase)
  {
    hide ZerosAre, Runs, Zeros;
    var g, j, m, p := LiteralsForEver(cfg, st, codes, c, k, n + 1);
    RunsSplit(cfg, st, Zeros(k), goal, rest, n, pads, g, Zeros(j), m, p);
    if Stops(goal, rest) || Final(goal.phase) { StoppedStays(cfg, goal, rest, g, Zeros(j), m - n, p - pads); }
  }

  // ----- success does not mean that the stream was complete

  /** An empty block of fixed codes that is cut off within its only symbol. */
  const CUT_OFF: seq<byte> := [3]

  lemma {:induction false} NoneSoFar(lens: Lengths, n: nat, l: nat)
    requires n <= |lens| && forall i | 0 <= i < n :: lens[i] != l
    ensures Count(lens, n, l) == 0
  {
    if n > 0 { NoneSoFar(lens, n - 1, l); }
  }

  lemma {:induction false} ZeroCode(n: nat)
    ensures BeBits(0, n) == Zeros(n)
  {
    if n > 0 { ZeroCode(n - 1); }
  }

  /** The symbol that ends a fixed block is seven zeros. */
  lemma FixedEnd()
    ensures Uses(FixedLit(), 256) && Code(FixedLit(), 256) == Zeros(7) && CodesOk(Codes(FixedLit(), FixedDist()))
  {
    hide Count, FixedDist;
    var f := FixedLit();
    FixedCodesComplete();
    forall l: nat | l < 7 ensures Count(f, 288, l) == 0 { FixedCounts(l); }
    assert First(f, 3) == 0 && First(f, 5) == 0 && First(f, 7) == 0;
    NoneSoFar(f, 256, 7);
    assert CodeVal(f, 256) == 0;
    ZeroCode(7);
  }

  /** The end of the block is waited for after five zeros, and found after eight more. */
  lemma EndIsFound()
    ensures DecodeSym(FixedLit(), Zeros(5)).Short? && DecodeSym(FixedLit(), Zeros(13)) == Sym(256)
    ensures FixedLit()[256] == 7
  {
    hide Code, Accepted;
    var f := FixedLit();
    FixedEnd();
    AcceptedFits(f);
    assert Zeros(13)[..7] == Zeros(7) && Zeros(7)[..5] == Zeros(5);
    assert IsNext(f, 256, Zeros(13));
    NextIsUnique(f, 256, DecodeSym(f, Zeros(13)).s, Zeros(13));
    assert Zeros(5) <= Code(f, 256);
  }

  /** What the machine does on it: with one zero byte it is done, without it stays where it is. */
  lemma CutOffSteps()
    ensures var cfg, st := Flat(false), State(true, Symbols(Codes(FixedLit(), FixedDist())), []);
      && Step(cfg, Begin(cfg), ByteBits(CUT_OFF)) == Go(st, 3) && ByteBits(CUT_OFF)[3..] == Zeros(5)
      && Step(cfg, st, Zeros(5)).Need? && Step(cfg, st, Zeros(13)) == Go(State(true, Done(1), []), 7)
  {
    hide Code, Accepted, DecodeSym, FixedLit, FixedDist;
    FixedEnd();
    EndIsFound();
    var b := ByteBits(CUT_OFF);
    assert b == [true, true] + Zeros(6);
    assert b[1..3] == [true, false] && [true, false][1..] == [false] && LeVal([false]) == 0;
    assert b[3..] == Zeros(5);
  }

  /** The program accepts it all the same, though without padding the end is never reached. */
  lemma CutOffAccepted()
    ensures Runs(Flat(false), Begin(Flat(false)), ByteBits(CUT_OFF), State(true, Done(1), []), Zeros(6), 3, 1)
    ensures forall goal, rest, n: nat :: Reaches(Flat(false), Begin(Flat(false)), ByteBits(CUT_OFF), goal, rest, n) ==>
      !Final(goal.phase)
  {
    hide Step, ByteBits, FixedLit, FixedDist;
    CutOffSteps();
    var cfg, st, end := Flat(false), State(true, Symbols(Codes(FixedLit(), FixedDist())), []), State(true, Done(1), []);
    assert Zeros(5) + Zeros(8) == Zeros(13) && Zeros(13)[7..] == Zeros(6);
    assert Runs(cfg, end, Zeros(6), end, Zeros(6), 0, 0);
    assert Runs(cfg, st, Zeros(13), end, Zeros(6), 1, 0);
    assert Runs(cfg, st, Zeros(5), end, Zeros(6), 2, 1);
    forall goal, rest, n: nat | Reaches(cfg, Begin(cfg), ByteBits(CUT_OFF), goal, rest, n) ensures !Final(goal.phase) {
      if n > 0 { assert Reaches(cfg, st, Zeros(5), goal, rest, n - 1); }
    }
  }
}
