/** Whole decompressions: any sequence of calls, and the two high-level helpers. */
module TinflSessions {
  import opened Numbers
  import opened TinflBits
  import opened TinflTables
  import opened TinflSpec
  import opened TinflBitReader
  import opened TinflAdler
  import opened TinflInflate
  import opened TinflMachine
  import opened TinflPadding

  /** The specification machine reaches a verdict on the stream `z`: its end, or an error. */
  ghost predicate Inflates(cfg: Config, z: seq<byte>, goal: State, rest: bits, n: nat)
  {
    Reaches(cfg, Begin(cfg), ByteBits(z), goal, rest, n) && Verdict(goal.phase)
  }

  /** So does the machine that gets `pads` zero bytes after the end of `z`, or a stored block is cut short, or the
      output exceeds `room`. */
  ghost predicate Settles(cfg: Config, z: seq<byte>, room: nat, goal: State, rest: bits, n: nat, pads: nat)
  {
    Runs(cfg, Begin(cfg), ByteBits(z), goal, rest, n, pads) && (Stops(goal, rest) || |goal.out| > room)
  }

  lemma InflatesSettles(cfg: Config, z: seq<byte>, room: nat, goal: State, rest: bits, n: nat)
    requires Inflates(cfg, z, goal, rest, n)
    ensures Settles(cfg, z, room, goal, rest, n, 0)
  {
    UnpaddedRuns(cfg, Begin(cfg), ByteBits(z), goal, rest, n);
  }

  /** A stream that the program accepts is complete exactly if no padding was used. */
  lemma CompleteIffUnpadded(cfg: Config, z: seq<byte>, goal: State, rest: bits, n: nat, pads: nat)
    requires Runs(cfg, Begin(cfg), ByteBits(z), goal, rest, n, pads) && goal.phase.Done?
    ensures pads == 0 <==> exists g, r, m :: Inflates(cfg, z, g, r, m)
  {
    hide Runs, Reaches;
    if pads == 0 {
      UnpaddedRuns(cfg, Begin(cfg), ByteBits(z), goal, rest, n);
      assert Inflates(cfg, z, goal, rest, n);
    }
    forall g, r, m: nat | Inflates(cfg, z, g, r, m) ensures pads == 0 {
      UnpaddedRuns(cfg, Begin(cfg), ByteBits(z), g, r, m);
      if m <= n {
        RunsSplit(cfg, Begin(cfg), ByteBits(z), g, r, m, 0, goal, rest, n, pads);
        StoppedStays(cfg, g, r, goal, rest, n - m, pads);
      } else {
        RunsSplit(cfg, Begin(cfg), ByteBits(z), goal, rest, n, pads, g, r, m, 0);
      }
    }
  }

  /** The status that goes with the end of a run. */
  function EndStatus(cfg: Config, goal: State): Status
  {
    if !goal.phase.Done? then StatusFailed
    else if cfg.zlib && Pack(Adler(Sums(1, 0), goal.out)) != goal.phase.adler then AdlerMismatch
    else StatusDone
  }

  // ----- output on the way to a goal

  lemma OutputFits(cfg: Config, st: State, b: bits, goal: State, rest: bits, pads: nat)
    requires OnTheWay(cfg, st, b, goal, rest, pads)
    ensures st.out <= goal.out
  {
    var k: nat :| Runs(cfg, st, b, goal, rest, k, pads);
    RunsGrow(cfg, st, b, goal, rest, k, pads);
  }

  /** A state that wants to write a byte is not at the end of the output, unless a stored block is cut short. */
  lemma MoreToCome(cfg: Config, st: State, b: bits, goal: State, rest: bits, pads: nat)
    requires OnTheWay(cfg, st, b, goal, rest, pads) && NotPast(st, goal, rest) && WantsSpace(st.phase)
    ensures |st.out| < |goal.out| || (st == goal && InStored(goal.phase))
  {
    hide Step, Runs;
    var k: nat :| Runs(cfg, st, b, goal, rest, k, pads);
    WriteAhead(cfg, st, b, goal, rest, k, pads);
  }

  lemma WriteAhead(cfg: Config, st: State, b: bits, goal: State, rest: bits, k: nat, pads: nat)
    requires Runs(cfg, st, b, goal, rest, k, pads) && NotPast(st, goal, rest) && WantsSpace(st.phase)
    ensures |st.out| < |goal.out| || (st == goal && InStored(goal.phase))
    decreases k
  {
    hide Step;
    if k > 0 {
      var r := Step(cfg, st, b);
      NextWrites(cfg, st, b);
      RunsGrow(cfg, r.next, b[r.used..], goal, rest, k - 1, pads);
      if st.phase.StoredData? { WriteAhead(cfg, r.next, b[r.used..], goal, rest, k - 1, pads); }
    }
  }

  lemma NextWrites(cfg: Config, st: State, b: bits)
    requires WantsSpace(st.phase)
    ensures var r := Step(cfg, st, b);
      r.Go? ==> if st.phase.StoredData? then r.next.phase.StoredByte? && r.next.out == st.out
                else |r.next.out| == |st.out| + 1
    ensures Step(cfg, st, b).Need? ==> InStored(st.phase)
  {
    hide Accepted, LeVal;
  }

  // ----- one call on the way to the goal

  /** The decoder has consumed `pos` bytes of the stream `z`, and with `pads` zero bytes it will reach the goal. */
  ghost predicate Synced(inf: Inflator, cfg: Config, z: seq<byte>, pos: nat, goal: State, rest: bits, pads: nat)
    reads inf, inf.Objects()
  {
    && inf.Valid() && inf.Summed() && pos <= |z|
    && (inf.pc.Start? || inf.Cfg() == cfg)
    && !inf.cutOff
    && !inf.abs.phase.Undefined?
    && OnTheWay(cfg, inf.First(cfg.zlib, cfg.wrap), inf.Buffered() + ByteBits(z[pos..]), goal, rest, pads)
  }

  /** What a call can return on the way to the end of a run, and when. */
  ghost predicate Sound(cfg: Config, st: Status, more: bool, abs: State, goal: State, full: bool)
  {
    match st
    case NeedsMoreInput => more
    case HasMoreOutput => full && (|abs.out| < |goal.out| || (abs == goal && InStored(goal.phase)))
    case Starved => !more
    case _ => abs == goal && st == EndStatus(cfg, goal) && (InStored(goal.phase) ==> !full)
  }

  /** No other status can occur, and where the input runs out for good a zero byte takes the machine on. */
  lemma OnlySound(inf: Inflator, cfg: Config, st: Status, more: bool, goal: State, rest: bits, x: bits, pads: nat)
    requires inf.Valid() && inf.Summed() && inf.Cfg() == cfg && inf.Ended(st, more, false)
    requires !inf.abs.phase.Undefined? && NotPast(inf.abs, goal, rest)
    requires OnTheWay(cfg, inf.abs, inf.br.Stream() + x, goal, rest, pads) && (!more ==> x == [])
    ensures Sound(cfg, st, more, inf.abs, goal, inf.outCur == inf.outEnd)
    ensures st.NeedsMoreInput? || st.HasMoreOutput? || st.Starved? ==> !inf.cutOff
    ensures st.HasMoreOutput? ==> WantsSpace(inf.abs.phase)
    ensures st.NeedsMoreInput? && x == [] ==> pads > 0 || InStored(goal.phase)
    ensures st.NeedsMoreInput? || st.HasMoreOutput? || st.Starved? || pads == 0
    ensures st.Starved? ==>
      && pads > 0 && Step(cfg, inf.abs, inf.br.Stream()).Need? && !inf.abs.phase.StoredData?
      && inf.br.inCur == |inf.br.inBuf|
      && OnTheWay(cfg, inf.abs, inf.br.Stream() + Zeros(8), goal, rest, pads - 1)
  {
    hide Inflator.Common, Inflator.Safe, Inflator.Tied, Inflator.Placed, Inflator.Win, Step, Reaches, Stuck,
         OnTheWay, Adler, Pack, BitReader.Valid, Runs;
    var b := inf.br.Stream() + x;
    if x == [] { assert b == inf.br.Stream(); }
    match st
    case NeedsMoreInput => if x == [] { StuckIsCutOff(cfg, inf.abs, b, goal, rest, pads); }
    case Starved => PadsAhead(cfg, inf.abs, b, goal, rest, pads);
    case HasMoreOutput => MoreToCome(cfg, inf.abs, b, goal, rest, pads);
    case StatusFailed => if !inf.cutOff { inf.FailedFacts(); } GoalIsUnique(cfg, inf.abs, b, goal, rest, pads);
    case StatusDone => inf.DoneFacts(); GoalIsUnique(cfg, inf.abs, b, goal, rest, pads);
    case AdlerMismatch => inf.DoneFacts(); GoalIsUnique(cfg, inf.abs, b, goal, rest, pads);
    case _ =>
  }

  /** One call of `tinfl_decompress` on the way to the goal, up to the point where it would pad with a zero byte; the
      bits `x` follow on the input `inp`. */
  method Call(inf: Inflator, cfg: Config, inp: seq<byte>, out: array<byte>, outNext: nat, outSize: nat, more: bool,
              ghost x: bits, ghost goal: State, ghost rest: bits, ghost pads: nat)
    returns (st: Status, inUsed: nat, outUsed: nat)
    requires inf.Valid() && inf.Summed() && (inf.pc.Start? || inf.Cfg() == cfg) && !inf.cutOff
    requires !inf.abs.phase.Undefined? && |x| % 8 == 0 && (!more ==> x == [])
    requires OnTheWay(cfg, inf.First(cfg.zlib, cfg.wrap), inf.Buffered() + ByteBits(inp) + x, goal, rest, pads)
    requires inf.Accepts(out, outNext, outSize, cfg.zlib, cfg.wrap) && (cfg.wrap ==> IsPow2(outNext + outSize))
    requires cfg == Mode(cfg.zlib, cfg.wrap, out.Length) && (Stops(goal, rest) || |inf.abs.out| + outSize < |goal.out|)
    modifies inf, inf.br, inf.table0, inf.table0.lookUp, inf.table0.tree, inf.table1, inf.table1.lookUp,
      inf.table1.tree, inf.table2, inf.table2.lookUp, inf.table2.tree, out
    ensures inf.Valid() && inf.Summed() && inf.Cfg() == cfg && inf.outBuf == out && !inf.pc.Start?
    ensures inf.outCur == outNext + outUsed <= outNext + outSize && inUsed == inf.br.inCur <= |inp|
    ensures inf.br.inBuf == inp && !inf.abs.phase.Undefined?
    ensures OnTheWay(cfg, inf.abs, inf.br.Stream() + x, goal, rest, pads)
    ensures Follows(cfg, old(inf.First(cfg.zlib, cfg.wrap)), old(inf.Buffered()) + ByteBits(inp), inf.abs,
              inf.br.Stream())
    ensures Sound(cfg, st, more, inf.abs, goal, outUsed == outSize)
    ensures st.NeedsMoreInput? || st.HasMoreOutput? || st.Starved? ==> !inf.cutOff
    ensures st.HasMoreOutput? ==> WantsSpace(inf.abs.phase)
    ensures st.NeedsMoreInput? && x == [] ==> pads > 0 || InStored(goal.phase)
    ensures st.NeedsMoreInput? || st.HasMoreOutput? || st.Starved? || pads == 0
    ensures st.Starved? ==>
      && pads > 0 && Step(cfg, inf.abs, inf.br.Stream()).Need? && !inf.abs.phase.StoredData? && inUsed == |inp|
      && OnTheWay(cfg, inf.abs, inf.br.Stream() + Zeros(8), goal, rest, pads - 1)
    ensures old(inf.abs.out) <= inf.abs.out <= goal.out && |inf.abs.out| == old(|inf.abs.out|) + outUsed
    ensures WindowOk(out[..], inf.outCur, inf.base, cfg.wrap, inf.abs.out)
  {
    hide Inflator.Common, Inflator.Safe, Inflator.Tied, Inflator.Placed, Inflator.Win, Inflator.Summed, Inflator.Ended;
    hide BitReader.Valid, WindowOk, Step, Reaches, Follows, Stuck, OnTheWay, Adler, Pack, BitsOf, Runs;
    ghost var a0, b0 := inf.First(cfg.zlib, cfg.wrap), inf.Buffered();
    SoFar(inf, cfg);
    st, inUsed, outUsed := inf.Decompress(inp, out, outNext, outSize, cfg.zlib, cfg.wrap, more);
    ghost var s := inf.br.Stream();
    FollowsGrows(cfg, a0, b0 + ByteBits(inp), inf.abs, s);
    Written(inf);
    FollowsMore(cfg, a0, b0 + ByteBits(inp), inf.abs, s, x);
    StaysOnTheWay(cfg, a0, b0 + ByteBits(inp) + x, inf.abs, s + x, goal, rest, pads);
    SoFar(inf, cfg);
    OnlySound(inf, cfg, st, more, goal, rest, x, pads);
    OutputFits(cfg, inf.abs, s + x, goal, rest, pads);
  }

  /** One zero byte after the end of the input. It is used up before the program stops again. */
  method Pad(inf: Inflator, cfg: Config, out: array<byte>, outSize: nat, ghost goal: State, ghost rest: bits,
             ghost pads: nat) returns (st: Status, outUsed: nat)
    requires inf.Valid() && inf.Summed() && inf.Cfg() == cfg && !inf.cutOff && !inf.pc.Start?
    requires !inf.abs.phase.Undefined? && !inf.abs.phase.StoredData? && Step(cfg, inf.abs, inf.Buffered()).Need?
    requires OnTheWay(cfg, inf.abs, inf.Buffered() + Zeros(8), goal, rest, pads)
    requires inf.Accepts(out, inf.outCur, outSize, cfg.zlib, cfg.wrap) && (cfg.wrap ==> IsPow2(inf.outCur + outSize))
    requires cfg == Mode(cfg.zlib, cfg.wrap, out.Length) && (Stops(goal, rest) || |inf.abs.out| + outSize < |goal.out|)
    modifies inf, inf.br, inf.table0, inf.table0.lookUp, inf.table0.tree, inf.table1, inf.table1.lookUp,
      inf.table1.tree, inf.table2, inf.table2.lookUp, inf.table2.tree, out
    ensures inf.Valid() && inf.Summed() && inf.Cfg() == cfg && inf.outBuf == out && !inf.pc.Start?
    ensures inf.br.inBuf == [0] && inf.br.inCur == 1 && (st.Starved? || |inf.Buffered()| < 8)
    ensures inf.outCur == old(inf.outCur) + outUsed <= old(inf.outCur) + outSize && !inf.abs.phase.Undefined?
    ensures Sound(cfg, st, false, inf.abs, goal, outUsed == outSize) && !st.NeedsMoreInput?
    ensures st.HasMoreOutput? || st.Starved? ==> !inf.cutOff
    ensures st.HasMoreOutput? ==> OnTheWay(cfg, inf.abs, inf.Buffered(), goal, rest, pads)
    ensures st.Starved? ==>
      && pads > 0 && !inf.abs.phase.StoredData? && Step(cfg, inf.abs, inf.Buffered()).Need?
      && OnTheWay(cfg, inf.abs, inf.Buffered() + Zeros(8), goal, rest, pads - 1)
    ensures old(inf.abs.out) <= inf.abs.out <= goal.out && |inf.abs.out| == old(|inf.abs.out|) + outUsed
    ensures WindowOk(out[..], inf.outCur, inf.base, cfg.wrap, inf.abs.out)
  {
    hide Inflator.Common, Inflator.Safe, Inflator.Tied, Inflator.Placed, Inflator.Win, Inflator.Summed, Inflator.Ended;
    hide BitReader.Valid, WindowOk, Step, Reaches, Follows, Stuck, OnTheWay, Adler, Pack, BitsOf, Runs, ByteBits, Zeros;
    ghost var a, s := inf.abs, inf.Buffered();
    ZeroByte();
    assert s + Zeros(8) + [] == s + Zeros(8);
    var inUsed;
    st, inUsed, outUsed := Call(inf, cfg, [0], out, inf.outCur, outSize, false, [], goal, rest, pads);
    PadIsTaken(cfg, a, s, inf.abs, inf.br.Stream());
    NeedIsNoEnd(cfg, a, s);
    assert inUsed == 1;
    NothingUnread(inf);
    assert inf.br.Stream() + [] == inf.br.Stream();
  }

  lemma NothingUnread(inf: Inflator)
    requires inf.br.Valid() && inf.br.inCur == |inf.br.inBuf|
    ensures inf.br.Stream() == inf.Buffered()
  {
    assert inf.br.inBuf[inf.br.inCur..] == [];
  }

  lemma NeedIsNoEnd(cfg: Config, st: State, b: bits)
    requires Step(cfg, st, b).Need?
    ensures !Final(st.phase) && (WantsSpace(st.phase) ==> st.phase.StoredData?)
  {
    hide StepTables, StepCodeLens, StepSymbols, StepDistance, Accepted, LeVal;
  }

  lemma ZeroByte()
    ensures ByteBits([0]) == Zeros(8)
  {
    assert BitsOf(0, 8) == Zeros(8);
  }

  /** Passes `len` bytes of input and some output space to `tinfl_decompress`. Where the input runs out for good, it
      goes on with zero bytes, one at a time and only as far as they are needed. */
  method Feed(inf: Inflator, cfg: Config, z: seq<byte>, pos: nat, len: nat, out: array<byte>, outNext: nat,
              outSize: nat, more: bool, ghost goal: State, ghost rest: bits, ghost pads: nat)
    returns (st: Status, inUsed: nat, outUsed: nat, ghost left: nat)
    requires Synced(inf, cfg, z, pos, goal, rest, pads) && pos + len <= |z| && (!more ==> pos + len == |z|)
    requires inf.Accepts(out, outNext, outSize, cfg.zlib, cfg.wrap) && (cfg.wrap ==> IsPow2(outNext + outSize))
    requires cfg == Mode(cfg.zlib, cfg.wrap, out.Length) && (Stops(goal, rest) || |inf.abs.out| + outSize < |goal.out|)
    modifies inf, inf.br, inf.table0, inf.table0.lookUp, inf.table0.tree, inf.table1, inf.table1.lookUp,
      inf.table1.tree, inf.table2, inf.table2.lookUp, inf.table2.tree, out
    ensures pos + inUsed <= |z| && inUsed <= len && inf.outBuf == out && !inf.pc.Start?
    ensures inf.outCur == outNext + outUsed <= outNext + outSize
    ensures !st.Starved? && Sound(cfg, st, more, inf.abs, goal, outUsed == outSize)
    ensures st.NeedsMoreInput? && pos + len == |z| ==> pads > 0 || InStored(goal.phase)
    ensures more && !st.NeedsMoreInput? && !st.HasMoreOutput? ==> pads == 0
    ensures st.NeedsMoreInput? || st.HasMoreOutput? ==> Synced(inf, cfg, z, pos + inUsed, goal, rest, left)
    ensures inf.abs.out == old(inf.abs.out) + out[outNext..inf.outCur] && inf.abs.out <= goal.out
    ensures WindowOk(out[..], inf.outCur, inf.base, cfg.wrap, inf.abs.out)
  {
    hide Inflator.Common, Inflator.Safe, Inflator.Tied, Inflator.Placed, Inflator.Win, Inflator.Summed, Inflator.Ended;
    hide BitReader.Valid, WindowOk, Step, Reaches, Follows, Stuck, OnTheWay, Adler, Pack, BitsOf, Runs, ByteBits, Zeros;
    var piece := z[pos..pos + len];
    ghost var x := ByteBits(z[pos + len..]);
    SplitStream(z, pos, len, 0, inf.Buffered());
    st, inUsed, outUsed := Call(inf, cfg, piece, out, outNext, outSize, more, x, goal, rest, pads);
    SplitStream(z, pos, len, inUsed, inf.Buffered());
    if st.Starved? { NothingUnread(inf); }
    assert inf.Buffered() + ByteBits(z[|z|..]) == inf.Buffered() by { assert z[|z|..] == []; }
    left := pads;
    while st.Starved?
      invariant inf.Valid() && inf.Summed() && inf.Cfg() == cfg && inf.outBuf == out && !inf.pc.Start?
      invariant inf.outCur == outNext + outUsed <= outNext + outSize && inUsed <= len && !inf.abs.phase.Undefined?
      invariant Sound(cfg, st, more, inf.abs, goal, outUsed == outSize)
      invariant st.NeedsMoreInput? || st.HasMoreOutput? || st.Starved? ==> !inf.cutOff
      invariant st.NeedsMoreInput? || st.HasMoreOutput? ==>
        OnTheWay(cfg, inf.abs, inf.Buffered() + ByteBits(z[pos + inUsed..]), goal, rest, left)
      invariant st.NeedsMoreInput? && pos + len == |z| ==> pads > 0 || InStored(goal.phase)
      invariant more && !st.NeedsMoreInput? && !st.HasMoreOutput? ==> pads == 0
      invariant st.Starved? ==>
        && left > 0 && inUsed == len && !inf.abs.phase.StoredData? && Step(cfg, inf.abs, inf.Buffered()).Need?
        && OnTheWay(cfg, inf.abs, inf.Buffered() + Zeros(8), goal, rest, left - 1)
      invariant old(inf.abs.out) <= inf.abs.out <= goal.out && |inf.abs.out| == old(|inf.abs.out|) + outUsed
      invariant WindowOk(out[..], inf.outCur, inf.base, cfg.wrap, inf.abs.out)
      decreases if st.Starved? then left + 1 else 0
    {
      left := left - 1;
      var written;
      st, written := Pad(inf, cfg, out, outSize - outUsed, goal, rest, left);
      outUsed := outUsed + written;
      assert inf.Buffered() + ByteBits(z[|z|..]) == inf.Buffered() by { assert z[|z|..] == []; }
    }
    SoFar(inf, cfg);
    WindowNew(out[..], outNext, inf.outCur, inf.base, cfg.wrap, old(inf.abs.out), inf.abs.out);
    assert out[..][outNext..inf.outCur] == out[outNext..inf.outCur];
  }

  lemma Written(inf: Inflator)
    requires inf.Valid()
    ensures |inf.abs.out| <= inf.base + inf.outCur
  {
  }

  lemma SoFar(inf: Inflator, cfg: Config)
    requires inf.Valid() && !inf.abs.phase.Undefined?
    ensures inf.First(cfg.zlib, cfg.wrap).out == inf.abs.out && |inf.abs.out| == inf.base + inf.outCur
    ensures WindowOk(inf.outBuf[..], inf.outCur, inf.base, inf.wrap, inf.abs.out)
    ensures inf.pc.Start? ==> inf.outCur == 0
  {
    hide Inflator.Common, Inflator.Safe, Inflator.Tied, Inflator.Placed;
    if inf.pc.Start? { inf.AtStart(); }
  }

  lemma SplitStream(z: seq<byte>, pos: nat, len: nat, used: nat, b: bits)
    requires pos + len <= |z| && used <= len
    ensures b + ByteBits(z[pos..pos + len][used..]) + ByteBits(z[pos + len..]) == b + ByteBits(z[pos + used..])
    ensures |ByteBits(z[pos + len..])| % 8 == 0
    ensures used == 0 ==> z[pos..pos + len][used..] == z[pos..pos + len]
  {
    hide ByteBits;
    var p := z[pos..pos + len][used..];
    ByteBitsConcat(p, z[pos + len..]);
    assert p + z[pos + len..] == z[pos + used..];
    assert b + ByteBits(p) + ByteBits(z[pos + len..]) == b + (ByteBits(p) + ByteBits(z[pos + len..]));
  }

  // ----- whole decompressions

  lemma FlatContents(buf: seq<byte>, cur: nat, base: nat, out: seq<byte>)
    requires WindowOk(buf, cur, base, false, out)
    ensures base == 0 && cur == |out| <= |buf| && buf[..cur] == out
  {
    forall j | 0 <= j < cur ensures buf[j] == out[j] {
      assert buf[Index(j, base, |buf|)] == out[j];
    }
  }

  /** Moving the output to another buffer, as `realloc` does. */
  lemma FlatMoved(buf: seq<byte>, cur: nat, base: nat, out: seq<byte>, buf': seq<byte>)
    requires WindowOk(buf, cur, base, false, out) && cur <= |buf'| && buf[..cur] == buf'[..cur]
    ensures WindowOk(buf', cur, base, false, out)
  {
    forall j | 0 <= j < cur ensures buf'[Index(j, base, |buf'|)] == out[j] {
      assert buf[Index(j, base, |buf|)] == out[j];
      assert buf[..cur][j] == buf'[..cur][j];
    }
  }

  /** At the end of the window the position starts over. */
  lemma WindowWrap(buf: seq<byte>, base: nat, out: seq<byte>)
    requires WindowOk(buf, |buf|, base, true, out)
    ensures WindowOk(buf, 0, base + |buf|, true, out)
  {
    forall j | 0 <= j < |out| && |out| - |buf| <= j ensures buf[Index(j, base + |buf|, |buf|)] == out[j] {
      assert buf[Index(j, base, |buf|)] == out[j];
    }
  }

  lemma StartSynced(inf: Inflator, cfg: Config, z: seq<byte>, goal: State, rest: bits, n: nat, pads: nat)
    requires inf.pc.Start? && inf.Valid() && inf.checkAdler32 == 1 && !inf.cutOff && !inf.abs.phase.Undefined?
    requires Runs(cfg, Begin(cfg), ByteBits(z), goal, rest, n, pads)
    ensures Synced(inf, cfg, z, 0, goal, rest, pads) && inf.outCur == 0 == inf.base && inf.abs.out == []
  {
    hide Inflator.Safe, Inflator.Tied, Inflator.Placed, Inflator.Win, Runs, WindowOk;
    inf.AtStart();
    assert z[0..] == z;
    assert inf.Buffered() == [];
    assert inf.Buffered() + ByteBits(z[0..]) == ByteBits(z);
  }

  /** What a caller offers in one call: some input, and some space for output. */
  datatype Piece = Piece(input: nat, space: nat)

  /** Any division of the input and of the output space of a flat buffer into calls, the last one without
      TINFL_FLAG_HAS_MORE_INPUT, on a fast or slow machine, yields what the specification machine yields, or as much
      of it as there is room for. */
  method DecompressInPieces(cfg: Config, z: seq<byte>, pieces: seq<Piece>, out: array<byte>, wide: bool,
                            ghost goal: State, ghost rest: bits, ghost n: nat, ghost pads: nat)
    returns (st: Status, produced: nat)
    requires Settles(cfg, z, out.Length, goal, rest, n, pads) && cfg == Flat(cfg.zlib)
    modifies out
    ensures |goal.out| < out.Length || (|goal.out| == out.Length && !InStored(goal.phase)) ==>
      st == EndStatus(cfg, goal) && produced == |goal.out|
    ensures !(|goal.out| < out.Length || (|goal.out| == out.Length && !InStored(goal.phase))) ==>
      st == HasMoreOutput && produced == out.Length
    ensures produced <= |goal.out| && out[..produced] == goal.out[..produced]
  {
    hide Inflator.Valid, WindowOk, Synced, EndStatus, Inflator.Objects;
    hide Pow2, LeVal, Byte, Accepted, Stuck, BitsOf, ByteBits, Step, Runs, Follows, Adler, Pack, Inflator.Common,
         Inflator.Safe, Inflator.Tied, Inflator.Placed, Inflator.Win, BitReader.Valid, BitReader.Stream;
    var inf := new Inflator(wide);
    StartSynced(inf, cfg, z, goal, rest, n, pads);
    NothingWritten(out[..], false);
    var pos: nat, i, inUsed, outUsed := 0, 0, 0, 0;
    ghost var left := pads;
    while i < |pieces|
      invariant i <= |pieces| && Synced(inf, cfg, z, pos, goal, rest, left) && pos <= |z|
      invariant fresh(inf) && fresh(inf.br) && fresh(inf.table0) && fresh(inf.table0.lookUp) && fresh(inf.table0.tree)
        && fresh(inf.table1)
      invariant fresh(inf.table1.lookUp) && fresh(inf.table1.tree) && fresh(inf.table2) && fresh(inf.table2.lookUp)
        && fresh(inf.table2.tree)
      invariant WindowOk(out[..], inf.outCur, inf.base, false, inf.abs.out)
    {
      FlatContents(out[..], inf.outCur, inf.base, inf.abs.out);
      SyncedFlags(inf, cfg, z, pos, goal, rest, left);
      var p := pieces[i];
      st, inUsed, outUsed, left := Feed(inf, cfg, z, pos, Min(p.input, |z| - pos), out, inf.outCur,
                                        Min(p.space, out.Length - inf.outCur), true, goal, rest, left);
      pos := pos + inUsed;
      if !st.NeedsMoreInput? && !st.HasMoreOutput? {
        FlatContents(out[..], inf.outCur, inf.base, inf.abs.out);
        return st, inf.outCur;
      }
      i := i + 1;
    }
    FlatContents(out[..], inf.outCur, inf.base, inf.abs.out);
    SyncedFlags(inf, cfg, z, pos, goal, rest, left);
    st, inUsed, outUsed, left :=
      Feed(inf, cfg, z, pos, |z| - pos, out, inf.outCur, out.Length - inf.outCur, false, goal, rest, left);
    FlatContents(out[..], inf.outCur, inf.base, inf.abs.out);
    return st, inf.outCur;
  }

  lemma SyncedFlags(inf: Inflator, cfg: Config, z: seq<byte>, pos: nat, goal: State, rest: bits, pads: nat)
    requires Synced(inf, cfg, z, pos, goal, rest, pads)
    ensures inf.pc.Start? || inf.Cfg() == cfg
    ensures inf.Valid() && !inf.abs.phase.Undefined?
  {
  }

  /** `tinfl_decompress_mem_to_mem`: succeeds exactly when the stream, padded with zeros if need be, is sound and its
      output fits. */
  method MemToMem(out: array<byte>, z: seq<byte>, cfg: Config, wide: bool, ghost goal: State, ghost rest: bits,
                  ghost n: nat, ghost pads: nat)
    returns (len: int)
    requires Settles(cfg, z, out.Length, goal, rest, n, pads) && cfg == Flat(cfg.zlib)
    modifies out
    ensures if EndStatus(cfg, goal).StatusDone? && |goal.out| <= out.Length
      then len == |goal.out| && out[..len] == goal.out
            else len == -1
  {
    hide Inflator.Valid, Runs, WindowOk, Synced, EndStatus, Inflator.Objects;
    var inf := new Inflator(wide);
    StartSynced(inf, cfg, z, goal, rest, n, pads);
    NothingWritten(out[..], false);
    SyncedFlags(inf, cfg, z, 0, goal, rest, pads);
    var st, inUsed, outUsed, _ := Feed(inf, cfg, z, 0, |z|, out, 0, out.Length, false, goal, rest, pads);
    FlatContents(out[..], inf.outCur, inf.base, inf.abs.out);
    CutIsNoSuccess(cfg, goal);
    len := if st.StatusDone? then outUsed else -1;
  }

  lemma CutIsNoSuccess(cfg: Config, goal: State)
    ensures EndStatus(cfg, goal).StatusDone? ==> goal.phase.Done?
  {
  }

  datatype Option<T> = None | Some(value: T)

  method Realloc(buf: array<byte>, len: nat, capacity: nat) returns (bigger: array<byte>)
    requires len <= buf.Length <= capacity
    ensures fresh(bigger) && bigger.Length == capacity && bigger[..len] == buf[..len]
  {
    bigger := new byte[capacity];
    forall i | 0 <= i < len { bigger[i] := buf[i]; }
  }

  /** Twice the capacity, or 128 bytes to begin with; what was written moves along. */
  method Grow(buf: array<byte>, len: nat, ghost base: nat, ghost written: seq<byte>) returns (bigger: array<byte>)
    requires len <= buf.Length && WindowOk(buf[..], len, base, false, written)
    ensures fresh(bigger) && bigger.Length == if buf.Length * 2 < 128 then 128 else buf.Length * 2
    ensures WindowOk(bigger[..], len, base, false, written)
  {
    hide WindowOk;
    var capacity := if buf.Length * 2 < 128 then 128 else buf.Length * 2;
    bigger := Realloc(buf, len, capacity);
    FlatMoved(buf[..], len, base, written, bigger[..]);
  }

  lemma DictIsPow2()
    ensures IsPow2(LZ_DICT_SIZE)
  {
    assert IsPow2(2) && IsPow2(4) && IsPow2(8) && IsPow2(16) && IsPow2(32) && IsPow2(64) && IsPow2(128);
    assert IsPow2(256) && IsPow2(512) && IsPow2(1024) && IsPow2(2048) && IsPow2(4096) && IsPow2(8192) && IsPow2(16384);
  }

  /** `tinfl_decompress_mem_to_heap`: the buffer doubles whenever the output fills it. */
  method MemToHeap(z: seq<byte>, cfg: Config, wide: bool, ghost goal: State, ghost rest: bits, ghost n: nat,
                   ghost pads: nat)
    returns (r: Option<array<byte>>, len: nat)
    requires Settles(cfg, z, |goal.out|, goal, rest, n, pads) && cfg == Flat(cfg.zlib)
    ensures r.Some? <==> EndStatus(cfg, goal).StatusDone?
    ensures r.Some? ==> fresh(r.value) && len == |goal.out| <= r.value.Length && r.value[..len] == goal.out
    ensures r.Some? ==> r.value.Length <= 128 || r.value.Length < 2 * len
  {
    hide Inflator.Valid, WindowOk, OnTheWay, EndStatus, Inflator.Summed;
    hide Pow2, LeVal, Byte, Accepted, Stuck, BitsOf, ByteBits, Step, Runs, Follows, Adler, Pack, Inflator.Common,
         Inflator.Safe, Inflator.Tied, Inflator.Placed, Inflator.Win, BitReader.Valid, BitReader.Stream;
    var inf := new Inflator(wide);
    var buf := new byte[0];
    StartSynced(inf, cfg, z, goal, rest, n, pads);
    CutIsNoSuccess(cfg, goal);
    ghost var left := pads;
    NothingWritten(buf[..], false);
    var pos: nat, inUsed, outUsed, st := 0, 0, 0, Starved;
    len := 0;
    while true
      invariant Synced(inf, cfg, z, pos, goal, rest, left) && pos <= |z| && inf.outCur == len && fresh(buf)
      invariant fresh(inf) && fresh(inf.br) && fresh(inf.table0) && fresh(inf.table0.lookUp) && fresh(inf.table0.tree)
        && fresh(inf.table1)
      invariant fresh(inf.table1.lookUp) && fresh(inf.table1.tree) && fresh(inf.table2) && fresh(inf.table2.lookUp)
        && fresh(inf.table2.tree)
      invariant WindowOk(buf[..], len, inf.base, false, inf.abs.out)
      invariant buf.Length <= 128 || buf.Length < 2 * |goal.out|
        || (buf.Length == 2 * |goal.out| && InStored(goal.phase))
      decreases 128 + 2 * |goal.out| - buf.Length
    {
      FlatContents(buf[..], len, inf.base, inf.abs.out);
      SyncedFlags(inf, cfg, z, pos, goal, rest, left);
      st, inUsed, outUsed, left :=
        Feed(inf, cfg, z, pos, |z| - pos, buf, len, buf.Length - len, false, goal, rest, left);
      FlatContents(buf[..], inf.outCur, inf.base, inf.abs.out);
      if !st.StatusDone? && !st.HasMoreOutput? { return None, 0; }
      pos, len := pos + inUsed, len + outUsed;
      if st.StatusDone? { return Some(buf), len; }
      buf := Grow(buf, len, inf.base, inf.abs.out);
    }
  }

  ghost function Concat(pieces: seq<seq<byte>>): seq<byte>
  {
    if pieces == [] then [] else Concat(pieces[..|pieces| - 1]) + pieces[|pieces| - 1]
  }

  /** The callback was content with every one of the first `n` pieces. */
  ghost predicate Taken(put: seq<seq<byte>> -> bool, pieces: seq<seq<byte>>, n: nat)
    requires n <= |pieces|
  {
    forall k | 1 <= k <= n :: put(pieces[..k])
  }

  lemma OnePiece(put: seq<seq<byte>> -> bool, pieces: seq<seq<byte>>, piece: seq<byte>)
    requires Taken(put, pieces, |pieces|)
    ensures var more := pieces + [piece];
      Concat(more) == Concat(pieces) + piece && Taken(put, more, |pieces|) && (Taken(put, more, |more|) <==> put(more))
  {
    var more := pieces + [piece];
    assert more[..|pieces|] == pieces && more[..|more|] == more;
    forall k | 1 <= k <= |pieces| ensures more[..k] == pieces[..k] {
    }
  }

  /** `tinfl_decompress_mem_to_callback`, with the callback as a function of what it was given so far. The
      pieces of the wrapping dictionary together are the output, whole unless the callback breaks off. */
  method MemToCallback(z: seq<byte>, cfg: Config, wide: bool, put: seq<seq<byte>> -> bool,
                       ghost goal: State, ghost rest: bits, ghost n: nat, ghost pads: nat)
    returns (result: bool, used: nat, pieces: seq<seq<byte>>)
    requires Settles(cfg, z, |goal.out|, goal, rest, n, pads) && cfg == Wrapping(cfg.zlib, LZ_DICT_SIZE)
    ensures used <= |z| && Concat(pieces) <= goal.out
    ensures forall i | 0 <= i < |pieces| :: 1 <= |pieces[i]| <= LZ_DICT_SIZE
    ensures Taken(put, pieces, |pieces|) ==> Concat(pieces) == goal.out && result == EndStatus(cfg, goal).StatusDone?
    ensures !Taken(put, pieces, |pieces|) ==> !result && pieces != [] && Taken(put, pieces, |pieces| - 1)
  {
    hide Inflator.Valid, WindowOk, Synced, EndStatus, Inflator.Objects, IsPow2, Taken, Concat;
    hide Pow2, LeVal, Byte, Accepted, Stuck, BitsOf, ByteBits, Step, Runs, Follows, Adler, Pack, Inflator.Common,
         Inflator.Safe, Inflator.Tied, Inflator.Placed, Inflator.Win, BitReader.Valid, BitReader.Stream;
    var inf := new Inflator(wide);
    var dict := new byte[LZ_DICT_SIZE];
    StartSynced(inf, cfg, z, goal, rest, n, pads);
    CutIsNoSuccess(cfg, goal);
    ghost var left := pads;
    NothingWritten(dict[..], true);
    var dictOfs: nat, st, inUsed, outUsed := 0, Starved, 0, 0;
    result, used, pieces := false, 0, [];
    NoPieces(put);
    DictIsPow2();
    while true
      invariant Synced(inf, cfg, z, used, goal, rest, left) && used <= |z| && fresh(dict) && dict.Length == LZ_DICT_SIZE
      invariant fresh(inf) && fresh(inf.br) && fresh(inf.table0) && fresh(inf.table0.lookUp) && fresh(inf.table0.tree)
        && fresh(inf.table1)
      invariant fresh(inf.table1.lookUp) && fresh(inf.table1.tree) && fresh(inf.table2) && fresh(inf.table2.lookUp)
        && fresh(inf.table2.tree)
      invariant dictOfs == inf.outCur || (dictOfs == 0 && inf.outCur == LZ_DICT_SIZE)
      invariant dictOfs < LZ_DICT_SIZE
        && WindowOk(dict[..], dictOfs, inf.base + inf.outCur - dictOfs, true, inf.abs.out)
      invariant inf.pc.Start? || inf.outBuf == dict
      invariant Concat(pieces) == inf.abs.out && inf.abs.out <= goal.out && Taken(put, pieces, |pieces|)
      invariant forall i | 0 <= i < |pieces| :: 1 <= |pieces[i]| <= LZ_DICT_SIZE
      decreases |goal.out| - |inf.abs.out|
    {
      SyncedFlags(inf, cfg, z, used, goal, rest, left);
      st, inUsed, outUsed, left :=
        Feed(inf, cfg, z, used, |z| - used, dict, dictOfs, LZ_DICT_SIZE - dictOfs, false, goal, rest, left);
      used := used + inUsed;
      if outUsed > 0 {
        OnePiece(put, pieces, dict[dictOfs..dictOfs + outUsed]);
        pieces := pieces + [dict[dictOfs..dictOfs + outUsed]];
        if !put(pieces) { return; }
      }
      if !st.HasMoreOutput? {
        result := st.StatusDone?;
        return;
      }
      WindowWrap(dict[..], inf.base, inf.abs.out);
      dictOfs := (dictOfs + outUsed) % LZ_DICT_SIZE;
    }
  }

  lemma NoPieces(put: seq<seq<byte>> -> bool)
    ensures Concat([]) == [] && Taken(put, [], 0)
  {
  }
}
