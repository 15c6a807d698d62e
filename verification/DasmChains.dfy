/** How the label arrays and the section buffers of dasm_State stand for the labels and references of
    DasmSpec: waiting references are threaded into one chain for each label. */
module DasmChains {
  import opened DasmActions
  import opened DasmSpec

  type Chains = map<Label, seq<int>>

  function ChainOf(chains: Chains, l: Label): seq<int>
  {
    if l in chains then chains[l] else []
  }

  /** The word of label `l` in `lglabels` or `pclabels`. */
  function WordOf(lg: seq<int>, pc: seq<int>, l: Label): int
    requires if l.LG? then l.n < |lg| else 0 <= l.i < |pc|
  {
    if l.LG? then lg[l.n] else pc[l.i]
  }

  /** Following the chain from its first element visits each element once and ends with zero. */
  ghost predicate Threaded(b: map<int, int>, c: seq<int>)
  {
    && (forall i | 0 <= i < |c| :: c[i] > 0 && c[i] in b && b[c[i]] == if i == |c| - 1 then 0 else c[i + 1])
    && (forall i, j | 0 <= i < j < |c| :: c[i] != c[j])
  }

  ghost predicate WaitersAre(refs: map<int, Target>, l: Label, c: seq<int>)
  {
    forall w :: w in c <==> w in refs && refs[w] == Waiting(l)
  }

  ghost predicate LabelHolds(v: Lab, word: int, b: map<int, int>, refs: map<int, Target>, l: Label, c: seq<int>)
  {
    && Threaded(b, c) && WaitersAre(refs, l, c)
    && match v
       case Unused => word == 0 && c == []
       case Defined(pos) => pos > 0 && word == -pos && c == []
       case Wanted => c != [] && word == c[0]
  }

  /** The words of an item. A reference that still waits holds a link of its chain instead. */
  ghost predicate Holds(it: Item, b: map<int, int>, refs: map<int, Target>)
  {
    && (Words(it.a) > 0 ==> it.at in b && (it.at in refs <==> IsRef(it.a)))
    && (it.a.Begin? || it.a.Imm? || it.a.RelA? || it.a.Space? ==> b[it.at] == it.arg)
    && (IsLabel(it.a) ==> b[it.at] == it.est)
    && (it.a.Align? ==> b[it.at] == it.est + it.a.mask)
    && (IsRef(it.a) && refs[it.at].At? ==> b[it.at] == refs[it.at].pos)
    && (IsRel(it.a) ==> it.at + 1 in b && it.at + 1 !in refs && b[it.at + 1] == it.est + 4)
  }

  ghost predicate AllHold(secs: seq<seq<Item>>, b: map<int, int>, refs: map<int, Target>)
  {
    forall k, i | 0 <= k < |secs| && 0 <= i < |secs[k]| :: Holds(secs[k][i], b, refs)
  }

  ghost predicate AllLabels(s: Asm, b: map<int, int>, lg: seq<int>, pc: seq<int>, chains: Chains)
    requires |lg| == |s.lg| && |pc| == |s.pc|
  {
    forall l | Known(s, l) :: LabelHolds(LabOf(s, l), WordOf(lg, pc, l), b, s.refs, l, ChainOf(chains, l))
  }

  ghost predicate Coupled(s: Asm, b: map<int, int>, lg: seq<int>, pc: seq<int>, chains: Chains)
  {
    && |lg| == |s.lg| && |pc| == |s.pc|
    && AllLabels(s, b, lg, pc, chains) && AllHold(s.secs, b, s.refs)
    && (forall w | w in s.refs && s.refs[w].Waiting? :: Known(s, s.refs[w].l))
    && (forall l | l in chains :: Known(s, l))
  }

  /** No item has a word at `pos`. */
  ghost predicate Free(s: Asm, pos: int)
  {
    && pos !in s.refs
    && forall k, i | 0 <= k < |s.secs| && 0 <= i < |s.secs[k]| :: Elsewhere(s.secs[k][i], pos)
  }

  predicate Elsewhere(it: Item, pos: int) { pos < it.at || it.at + Words(it.a) <= pos }

  lemma ThreadedIn(b: map<int, int>, c: seq<int>)
    requires Threaded(b, c)
    ensures forall w | w in c :: w in b && w > 0
  {
  }

  lemma EmptyChain(b: map<int, int>)
    ensures Threaded(b, [])
  {
  }

  lemma ThreadedSame(b: map<int, int>, b': map<int, int>, c: seq<int>)
    requires Threaded(b, c) && forall w | w in c :: w in b' && w in b && b'[w] == b[w]
    ensures Threaded(b', c)
  {
    forall i | 0 <= i < |c| ensures c[i] in b' && b'[c[i]] == b[c[i]] { assert c[i] in c; }
  }

  lemma ThreadedCons(b: map<int, int>, b': map<int, int>, c: seq<int>, pos: int)
    requires Threaded(b, c) && pos !in c && pos > 0 && forall w | w in c :: w in b' && w in b && b'[w] == b[w]
    requires pos in b' && b'[pos] == if c == [] then 0 else c[0]
    ensures Threaded(b', [pos] + c)
  {
    var c' := [pos] + c;
    ThreadedSame(b, b', c);
    forall i | 0 < i < |c'| ensures c'[i] > 0 && c'[i] in b' && b'[c'[i]] == if i == |c'| - 1 then 0 else c'[i + 1] {
      var k := i - 1;
      assert c'[i] == c[k] && c[k] in b' && b'[c[k]] == if k == |c| - 1 then 0 else c[k + 1];
    }
  }

  /** A label is not affected by changes outside its chain. */
  lemma LabelStays(v: Lab, word: int, b: map<int, int>, refs: map<int, Target>, l: Label, c: seq<int>, b': map<int,
                   int>, refs': map<int, Target>)
    requires LabelHolds(v, word, b, refs, l, c)
    requires forall w | w in c :: w in b && w in b' && b'[w] == b[w]
    requires forall w :: w in refs' && refs'[w] == Waiting(l) <==> w in refs && refs[w] == Waiting(l)
    ensures LabelHolds(v, word, b', refs', l, c)
  {
    hide Threaded;
    ThreadedSame(b, b', c);
  }

  /** A label whose chain grows by one reference. */
  lemma LabelGrows(v: Lab, n: int, b: map<int, int>, refs: map<int, Target>, l: Label, c: seq<int>, pos: int,
                   b': map<int, int>)
    requires LabelHolds(v, n, b, refs, l, c) && pos > 0 && pos !in refs && b' == b[pos := if n < 0 then 0 else n]
    ensures LabelHolds(Wanted, pos, b', refs[pos := Waiting(l)], l, [pos] + c)
  {
    hide Threaded;
    ThreadedIn(b, c);
    assert pos !in c;
    if c != [] { assert c[0] in c; }
    ThreadedCons(b, b', c, pos);
    assert WaitersAre(refs[pos := Waiting(l)], l, [pos] + c);
  }

  /** Writing where there is nothing yet. */
  lemma WriteFree(s: Asm, b: map<int, int>, lg: seq<int>, pc: seq<int>, chains: Chains, pos: int, v: int)
    requires Coupled(s, b, lg, pc, chains) && Free(s, pos)
    ensures Coupled(s, b[pos := v], lg, pc, chains)
  {
    var b' := b[pos := v];
    forall l | Known(s, l) ensures LabelHolds(LabOf(s, l), WordOf(lg, pc, l), b', s.refs, l, ChainOf(chains, l)) {
      assert LabelHolds(LabOf(s, l), WordOf(lg, pc, l), b, s.refs, l, ChainOf(chains, l));
      var c := ChainOf(chains, l);
      forall i | 0 <= i < |c| ensures c[i] != pos { assert c[i] in c; }
    }
    forall k, i | 0 <= k < |s.secs| && 0 <= i < |s.secs[k]| ensures Holds(s.secs[k][i], b', s.refs) {
      assert Elsewhere(s.secs[k][i], pos) && Holds(s.secs[k][i], b, s.refs);
    }
  }

  lemma AppendHolds(s: Asm, b: map<int, int>, lg: seq<int>, pc: seq<int>, chains: Chains, it: Item)
    requires Coupled(s, b, lg, pc, chains) && Holds(it, b, s.refs) && s.cur < |s.secs|
    ensures Coupled(Append(s, it), b, lg, pc, chains)
  {
    var s' := Append(s, it);
    forall k, i | 0 <= k < |s'.secs| && 0 <= i < |s'.secs[k]| ensures Holds(s'.secs[k][i], b, s.refs) {
      if k < |s.secs| && i < |s.secs[k]| { assert Holds(s.secs[k][i], b, s.refs); }
    }
    forall l | Known(s', l) ensures LabelHolds(LabOf(s', l), WordOf(lg, pc, l), b, s'.refs, l, ChainOf(chains, l)) {
      assert Known(s, l) && LabOf(s, l) == LabOf(s', l);
    }
  }

  /** The label words after assigning to `*pl`. */
  function SetLgWord(lg: seq<int>, l: Label, v: int): seq<int>
    requires l.LG? ==> l.n < |lg|
  {
    if l.LG? then lg[l.n := v] else lg
  }

  function SetPcWord(pc: seq<int>, l: Label, v: int): seq<int>
    requires l.PC? ==> 0 <= l.i < |pc|
  {
    if l.PC? then pc[l.i := v] else pc
  }

  /** A reference to a label that is defined. */
  lemma RefToDefined(s: Asm, b: map<int, int>, lg: seq<int>, pc: seq<int>, chains: Chains, l: Label, pos: int)
    requires Coupled(s, b, lg, pc, chains) && Free(s, pos) && Known(s, l) && LabOf(s, l).Defined?
    ensures WordOf(lg, pc, l) == -LabOf(s, l).pos < 0
    ensures Coupled(s.(refs := s.refs[pos := At(LabOf(s, l).pos)]), b[pos := LabOf(s, l).pos], lg, pc, chains)
  {
    var q := LabOf(s, l).pos;
    assert LabelHolds(LabOf(s, l), WordOf(lg, pc, l), b, s.refs, l, ChainOf(chains, l));
    WriteFree(s, b, lg, pc, chains, pos, q);
    NewRef(s, b[pos := q], lg, pc, chains, pos, At(q));
  }

  /** Entering a resolved reference leaves all chains as they are. */
  lemma NewRef(s: Asm, b: map<int, int>, lg: seq<int>, pc: seq<int>, chains: Chains, pos: int, t: Target)
    requires Coupled(s, b, lg, pc, chains) && Free(s, pos) && t.At?
    ensures Coupled(s.(refs := s.refs[pos := t]), b, lg, pc, chains)
  {
    var s' := s.(refs := s.refs[pos := t]);
    forall l | Known(s', l) ensures LabelHolds(LabOf(s', l), WordOf(lg, pc, l), b, s'.refs, l, ChainOf(chains, l)) {
      assert Known(s, l) && LabOf(s, l) == LabOf(s', l);
      assert LabelHolds(LabOf(s, l), WordOf(lg, pc, l), b, s.refs, l, ChainOf(chains, l));
    }
    RefsElsewhere(s, b, pos, t);
  }

  lemma RefsElsewhere(s: Asm, b: map<int, int>, pos: int, t: Target)
    requires AllHold(s.secs, b, s.refs) && Free(s, pos)
    ensures AllHold(s.secs, b, s.refs[pos := t])
  {
    forall k, i | 0 <= k < |s.secs| && 0 <= i < |s.secs[k]| ensures Holds(s.secs[k][i], b, s.refs[pos := t]) {
      assert Elsewhere(s.secs[k][i], pos) && Holds(s.secs[k][i], b, s.refs);
    }
  }

  /** A reference that has to wait becomes the first element of its label's chain. */
  lemma RefWaits(s: Asm, b: map<int, int>, lg: seq<int>, pc: seq<int>, chains: Chains, l: Label, pos: int)
    requires Coupled(s, b, lg, pc, chains) && Free(s, pos) && Known(s, l) && pos > 0
    ensures var n := WordOf(lg, pc, l);
      Coupled(SetLab(s, l, Wanted).(refs := s.refs[pos := Waiting(l)]), b[pos := if n < 0 then 0 else n],
              SetLgWord(lg, l, pos), SetPcWord(pc, l, pos), chains[l := [pos] + ChainOf(chains, l)])
  {
    hide Threaded, AllHold, LabelHolds;
    var n := WordOf(lg, pc, l);
    var b' := b[pos := if n < 0 then 0 else n];
    var s' := SetLab(s, l, Wanted).(refs := s.refs[pos := Waiting(l)]);
    var chains' := chains[l := [pos] + ChainOf(chains, l)];
    WriteFree(s, b, lg, pc, chains, pos, if n < 0 then 0 else n);
    RefsElsewhere(s, b', pos, Waiting(l));
    forall m | Known(s', m)
      ensures LabelHolds(LabOf(s', m), WordOf(SetLgWord(lg, l, pos), SetPcWord(pc, l, pos), m), b', s'.refs, m,
        ChainOf(chains', m))
    {
      assert Known(s, m);
      var c := ChainOf(chains, m);
      if m == l {
        LabelGrows(LabOf(s, l), n, b, s.refs, l, c, pos, b');
      } else {
        assert LabelHolds(LabOf(s, m), WordOf(lg, pc, m), b', s.refs, m, c);
        LabelIn(LabOf(s, m), WordOf(lg, pc, m), b', s.refs, m, c);
        LabelStays(LabOf(s, m), WordOf(lg, pc, m), b', s.refs, m, c, b', s'.refs);
      }
    }
  }

  lemma LabelIn(v: Lab, word: int, b: map<int, int>, refs: map<int, Target>, l: Label, c: seq<int>)
    requires LabelHolds(v, word, b, refs, l, c)
    ensures forall w | w in c :: w in b && w in refs && refs[w] == Waiting(l)
  {
    ThreadedIn(b, c);
  }

  /** Defining a label gives its position to all references of its chain and empties the chain. */
  lemma LabelTaken(s: Asm, b: map<int, int>, lg: seq<int>, pc: seq<int>, chains: Chains, l: Label, pos: int,
                   b': map<int, int>)
    requires Coupled(s, b, lg, pc, chains) && Free(s, pos) && Known(s, l) && pos > 0
    requires b'.Keys == b.Keys && forall w | w in b :: b'[w] == if w in ChainOf(chains, l) then pos else b[w]
    ensures Coupled(PutLabel(s, l, pos), b', SetLgWord(lg, l, -pos), SetPcWord(pc, l, -pos), chains[l := []])
    ensures Free(PutLabel(s, l, pos), pos)
  {
    hide Threaded, LabelHolds, Holds;
    var s' := PutLabel(s, l, pos);
    var chains' := chains[l := []];
    LabelIn(LabOf(s, l), WordOf(lg, pc, l), b, s.refs, l, ChainOf(chains, l));
    assert WaitersAre(s.refs, l, ChainOf(chains, l)) by {
      LabelWaiters(LabOf(s, l), WordOf(lg, pc, l), b, s.refs, l, ChainOf(chains, l));
    }
    forall m | Known(s', m)
      ensures LabelHolds(LabOf(s', m), WordOf(SetLgWord(lg, l, -pos), SetPcWord(pc, l, -pos), m), b', s'.refs, m,
        ChainOf(chains', m))
    {
      assert Known(s, m);
      var c := ChainOf(chains, m);
      if m == l {
        EmptyLabel(b', s'.refs, l, pos);
      } else {
        LabelIn(LabOf(s, m), WordOf(lg, pc, m), b, s.refs, m, c);
        LabelStays(LabOf(s, m), WordOf(lg, pc, m), b, s.refs, m, c, b', s'.refs);
      }
    }
    forall k, i | 0 <= k < |s.secs| && 0 <= i < |s.secs[k]| ensures Holds(s.secs[k][i], b', s'.refs) {
      assert Holds(s.secs[k][i], b, s.refs);
      LabelTakenItem(s.secs[k][i], b, s.refs, b', s'.refs, l, pos, ChainOf(chains, l));
    }
  }

  lemma LabelWaiters(v: Lab, word: int, b: map<int, int>, refs: map<int, Target>, l: Label, c: seq<int>)
    requires LabelHolds(v, word, b, refs, l, c)
    ensures WaitersAre(refs, l, c)
  {
  }

  lemma EmptyLabel(b: map<int, int>, refs: map<int, Target>, l: Label, pos: int)
    requires pos > 0 && forall w | w in refs :: refs[w] != Waiting(l)
    ensures LabelHolds(Defined(pos), -pos, b, refs, l, [])
  {
  }

  lemma LabelTakenItem(it: Item, b: map<int, int>, refs: map<int, Target>, b': map<int, int>, refs': map<int,
                       Target>, l: Label, pos: int, c: seq<int>)
    requires Holds(it, b, refs) && refs' == Resolve(refs, l, pos) && WaitersAre(refs, l, c)
    requires b'.Keys == b.Keys && forall w | w in b :: b'[w] == if w in c then pos else b[w]
    ensures Holds(it, b', refs')
  {
  }
}
