/** What becomes of a stream that ends too early. When no more input is announced, `TINFL_GET_BYTE` goes on with
    zeros; only the bytes of a stored block must be there. */
module TinflPadding {
  import opened Numbers
  import opened TinflBits
  import opened TinflCanonical
  import opened TinflTables
  import opened TinflSpec
  import opened TinflInflate

  function Zeros(n: nat): (b: bits)
    ensures |b| == n && forall i | 0 <= i < n :: !b[i]
  {
    seq(n, _ => false)
  }

  /** A stored block has bytes to come. */
  predicate InStored(p: Phase) { p.StoredData? && p.left > 0 }

  /** `n` steps lead from `st` before `b` to `st'` before `b'`, where a step that needs more bits than there are gets
      zero bytes instead, `pads` of them. */
  ghost predicate Runs(cfg: Config, st: State, b: bits, st': State, b': bits, n: nat, pads: nat)
    decreases n
  {
    if n == 0 then st == st' && b == b' && pads == 0
    else match Step(cfg, st, b)
      case Go(next, used) => Runs(cfg, next, b[used..], st', b', n - 1, pads)
      case Need => !InStored(st.phase) && pads > 0 && Runs(cfg, st, b + Zeros(8), st', b', n - 1, pads - 1)
      case Halt => false
  }

  /** Without padding these are the runs of the specification. */
  lemma {:induction false} UnpaddedRuns(cfg: Config, st: State, b: bits, st': State, b': bits, n: nat)
    ensures Runs(cfg, st, b, st', b', n, 0) <==> Reaches(cfg, st, b, st', b', n)
    decreases n
  {
    hide Step;
    if n > 0 {
      var r := Step(cfg, st, b);
      if r.Go? { UnpaddedRuns(cfg, r.next, b[r.used..], st', b', n - 1); }
    }
  }

  /** Padding is as good as zeros at the end of the stream. */
  lemma {:induction false} PaddingIsZeros(cfg: Config, st: State, b: bits, st': State, b': bits, n: nat, pads: nat)
    requires Runs(cfg, st, b, st', b', n, pads)
    ensures pads <= n && Reaches(cfg, st, b + Zeros(8 * pads), st', b', n - pads)
    decreases n
  {
    hide Step;
    if n == 0 {
      assert b + Zeros(8 * pads) == b;
    } else {
      var r := Step(cfg, st, b);
      if r.Go? {
        PaddingIsZeros(cfg, r.next, b[r.used..], st', b', n - 1, pads);
        StepMore(cfg, st, b, Zeros(8 * pads));
        assert (b + Zeros(8 * pads))[r.used..] == b[r.used..] + Zeros(8 * pads);
      } else {
        PaddingIsZeros(cfg, st, b + Zeros(8), st', b', n - 1, pads - 1);
        assert b + Zeros(8) + Zeros(8 * (pads - 1)) == b + Zeros(8 * pads);
      }
    }
  }

  lemma {:induction false} RunsTrans(cfg: Config, s0: State, b0: bits, s1: State, b1: bits, m: nat, p: nat, s2: State,
                                     b2: bits, n: nat, q: nat)
    requires Runs(cfg, s0, b0, s1, b1, m, p) && Runs(cfg, s1, b1, s2, b2, n, q)
    ensures Runs(cfg, s0, b0, s2, b2, m + n, p + q)
    decreases m
  {
    hide Step;
    if m > 0 {
      var r := Step(cfg, s0, b0);
      if r.Go? {
        RunsTrans(cfg, r.next, b0[r.used..], s1, b1, m - 1, p, s2, b2, n, q);
      } else {
        RunsTrans(cfg, s0, b0 + Zeros(8), s1, b1, m - 1, p - 1, s2, b2, n, q);
      }
    }
  }

  /** Runs are deterministic: the shorter of two runs is the beginning of the longer one. */
  lemma {:induction false} RunsSplit(cfg: Config, s0: State, b0: bits, s1: State, b1: bits, m: nat, p: nat, s2: State,
                                     b2: bits, n: nat, q: nat)
    requires Runs(cfg, s0, b0, s1, b1, m, p) && Runs(cfg, s0, b0, s2, b2, n, q) && m <= n
    ensures p <= q && Runs(cfg, s1, b1, s2, b2, n - m, q - p)
    decreases m
  {
    hide Step;
    if m > 0 {
      var r := Step(cfg, s0, b0);
      if r.Go? {
        RunsSplit(cfg, r.next, b0[r.used..], s1, b1, m - 1, p, s2, b2, n - 1, q);
      } else {
        RunsSplit(cfg, s0, b0 + Zeros(8), s1, b1, m - 1, p - 1, s2, b2, n - 1, q - 1);
      }
    }
  }

  lemma {:induction false} RunsGrow(cfg: Config, st: State, b: bits, st': State, b': bits, n: nat, pads: nat)
    requires Runs(cfg, st, b, st', b', n, pads)
    ensures st.out <= st'.out
    decreases n
  {
    hide Step;
    if n > 0 {
      StepGrows(cfg, st, b);
      var r := Step(cfg, st, b);
      if r.Go? {
        RunsGrow(cfg, r.next, b[r.used..], st', b', n - 1, pads);
      } else {
        RunsGrow(cfg, st, b + Zeros(8), st', b', n - 1, pads - 1);
      }
    }
  }

  /** A zero byte is read only if a step takes bits of it: after that step less than a byte is left. */
  lemma NoPadIsSpare(cfg: Config, st: State, b: bits)
    requires Step(cfg, st, b).Need?
    ensures var r := Step(cfg, st, b + Zeros(8)); r.Go? && !r.next.phase.Undefined? ==> r.used > |b|
  {
    hide Accepted, LeVal, AfterCl, AfterSymbol, AfterDistance, AfterSize, AfterClSize, MoreLens, BlockStart, HeaderOk,
         AfterHeaderByte, Code, Byte, DistBase, LengthBase, SIZE_BITS;
    var x := b + Zeros(8);
    match st.phase
    case CodeLens(_, cls, _) => CodeIsLonger(cls, b, x);
    case Symbols(codes) => CodeIsLonger(codes.lit, b, x);
    case Distance(codes, _) => CodeIsLonger(codes.dist, b, x);
    case _ =>
  }

  lemma CodeIsLonger(lens: Lengths, b: bits, x: bits)
    requires DecodeSym(lens, b).Short? && b <= x
    ensures var d := DecodeSym(lens, x); d.Sym? ==> lens[d.s] > |b|
  {
    hide Code;
    var d := DecodeSym(lens, x);
    if d.Sym? {
      assert !IsNext(lens, d.s, b);
      assert x == b + x[|b|..];
      Comparable(Code(lens, d.s), b, x[|b|..]);
      assert Code(lens, d.s) != b;
    }
  }

  // ----- where a run ends

  predicate Verdict(p: Phase) { p.Done? || p.Failed? }

  /** Nothing follows: the machine has come to a verdict, or a stored block is cut short. */
  predicate Stops(goal: State, rest: bits) { Verdict(goal.phase) || (InStored(goal.phase) && |rest| < 8) }

  /** A run to `goal` passes through here: it goes no further than `goal`, or not before more is written. */
  predicate NotPast(st: State, goal: State, rest: bits) { Stops(goal, rest) || |st.out| < |goal.out| }

  /** From here a run with `pads` zero bytes leads to the goal. */
  ghost predicate OnTheWay(cfg: Config, st: State, b: bits, goal: State, rest: bits, pads: nat)
  {
    exists k: nat :: Runs(cfg, st, b, goal, rest, k, pads)
  }

  lemma StoppedStays(cfg: Config, a: State, b: bits, a': State, b': bits, n: nat, pads: nat)
    requires Stops(a, b) || Final(a.phase)
    requires Runs(cfg, a, b, a', b', n, pads)
    ensures n == 0 && pads == 0 && a == a' && b == b'
  {
    if Final(a.phase) { FinalHalts(cfg, a, b); } else { CutNeeds(cfg, a, b); }
  }

  lemma CutNeeds(cfg: Config, st: State, b: bits)
    requires InStored(st.phase) && |b| < 8
    ensures Step(cfg, st, b).Need?
  {
  }

  /** A state that bits of the stream lead to is on the way as well. */
  lemma StaysOnTheWay(cfg: Config, a: State, b: bits, a': State, b': bits, goal: State, rest: bits, pads: nat)
    requires OnTheWay(cfg, a, b, goal, rest, pads) && NotPast(a', goal, rest) && Follows(cfg, a, b, a', b')
    ensures !a'.phase.Undefined? && OnTheWay(cfg, a', b', goal, rest, pads)
  {
    hide Reaches, Runs, Step;
    var n: nat :| Runs(cfg, a, b, goal, rest, n, pads);
    var r, m: nat :| Reaches(cfg, a, b, a', r, m) && (a'.phase.Undefined? || r == b');
    UnpaddedRuns(cfg, a, b, a', r, m);
    if m <= n {
      RunsSplit(cfg, a, b, a', r, m, 0, goal, rest, n, pads);
      if a'.phase.Undefined? { StoppedStays(cfg, a', r, goal, rest, n - m, pads); }
    } else {
      RunsSplit(cfg, a, b, goal, rest, n, pads, a', r, m, 0);
      RunsGrow(cfg, goal, rest, a', r, m - n, 0);
      StoppedStays(cfg, goal, rest, a', r, m - n, 0);
    }
  }

  lemma GoalIsUnique(cfg: Config, st: State, b: bits, goal: State, rest: bits, pads: nat)
    requires OnTheWay(cfg, st, b, goal, rest, pads) && (Stops(st, b) || Final(st.phase))
    ensures st == goal && b == rest && pads == 0
  {
    hide Runs;
    var k: nat :| Runs(cfg, st, b, goal, rest, k, pads);
    StoppedStays(cfg, st, b, goal, rest, k, pads);
  }

  /** On the way the machine gets stuck only where a zero byte takes it on. */
  lemma PadsAhead(cfg: Config, st: State, b: bits, goal: State, rest: bits, pads: nat)
    requires OnTheWay(cfg, st, b, goal, rest, pads) && NotPast(st, goal, rest)
    requires Stuck(cfg, st, b) && !Final(st.phase) && !st.phase.StoredData?
    ensures pads > 0 && Step(cfg, st, b).Need? && OnTheWay(cfg, st, b + Zeros(8), goal, rest, pads - 1)
  {
    hide Step;
    var k: nat :| Runs(cfg, st, b, goal, rest, k, pads);
    assert k > 0;
    var r := Step(cfg, st, b);
    if r.Go? {
      StepGrows(cfg, st, b);
      StoppedStays(cfg, r.next, b[r.used..], goal, rest, k - 1, pads);
      StepGrowsLittle(cfg, st, b);
      assert false;
    }
    assert Runs(cfg, st, b + Zeros(8), goal, rest, k - 1, pads - 1);
  }

  /** Where the machine is stuck there is padding ahead, or a stored block is cut short. */
  lemma StuckIsCutOff(cfg: Config, st: State, b: bits, goal: State, rest: bits, pads: nat)
    requires OnTheWay(cfg, st, b, goal, rest, pads) && NotPast(st, goal, rest) && Stuck(cfg, st, b) && !Final(st.phase)
    ensures pads > 0 || (st == goal && InStored(goal.phase))
  {
    hide Step, Runs;
    if InStored(st.phase) {
      StoredIsStuck(cfg, st, b);
      GoalIsUnique(cfg, st, b, goal, rest, pads);
    } else {
      StoredGoesOn(cfg, st, b);
      PadsAhead(cfg, st, b, goal, rest, pads);
    }
  }

  lemma StoredIsStuck(cfg: Config, st: State, b: bits)
    requires InStored(st.phase) && Stuck(cfg, st, b)
    ensures |b| < 8
  {
  }

  lemma StoredGoesOn(cfg: Config, st: State, b: bits)
    requires Stuck(cfg, st, b) && !InStored(st.phase)
    ensures !st.phase.StoredData?
  {
    if st.phase.StoredData? { StepStoredEnd(cfg, st, b); }
  }

  /** Leaving the format writes nothing. */
  lemma StepGrowsLittle(cfg: Config, st: State, b: bits)
    ensures var r := Step(cfg, st, b); r.Go? && r.next.phase.Undefined? ==> r.next.out == st.out
  {
    hide Accepted, LeVal, DecodeSym, BlockStart, AfterHeaderByte, HeaderOk, EndBlock, AfterSize,
         AfterClSize, MoreLens;
    hide AddRun, RunValue, LengthExtraBits, LengthBase, DistExtraBits, DistBase, AfterDistance, AfterCl, AfterSymbol,
         AfterDistSym;
  }

  /** Of a zero byte that the machine waits for, less than eight bits are left when it has gone on. */
  lemma PadIsTaken(cfg: Config, a: State, s: bits, a': State, s': bits)
    requires Step(cfg, a, s).Need? && Follows(cfg, a, s + Zeros(8), a', s') && !a'.phase.Undefined?
    ensures |s'| < 8 || (a' == a && s' == s + Zeros(8))
  {
    hide Step;
    var r, n: nat :| Reaches(cfg, a, s + Zeros(8), a', r, n) && r == s';
    if n > 0 {
      var q := Step(cfg, a, s + Zeros(8));
      NoPadIsSpare(cfg, a, s);
      if q.next.phase.Undefined? { StaysUndefined(cfg, q.next, (s + Zeros(8))[q.used..], a', r, n - 1); }
      BitsRunOut(cfg, q.next, (s + Zeros(8))[q.used..], a', r, n - 1);
    }
  }

  lemma {:induction false} BitsRunOut(cfg: Config, st: State, b: bits, st': State, b': bits, n: nat)
    requires Reaches(cfg, st, b, st', b', n)
    ensures |b'| <= |b|
    decreases n
  {
    hide Step;
    if n > 0 {
      var r := Step(cfg, st, b);
      BitsRunOut(cfg, r.next, b[r.used..], st', b', n - 1);
    }
  }
}
