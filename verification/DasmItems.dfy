/** The items of a section follow the action list and lie one after the other. */
module DasmItems {
  import opened Numbers
  import opened DasmActions
  import opened DasmSpec
  import opened DasmChains

  /** `y` comes right after `x`: the next action of the same call, or the start of another call. */
  predicate Next(act: seq<byte>, x: Item, y: Item)
  {
    && y.at == x.at + Words(x.a) && y.est == x.est + MaxLen(x.a, x.arg)
    && if y.a.Begin? then Ends(Fetch(act, x.next).a) && y.arg == y.next else Fetch(act, x.next) == Fetched(y.a, y.next)
  }

  predicate ItemOk(it: Item)
  {
    && !it.a.Unsupported? && !Ends(it.a)
    && (it.a.Space? ==> it.arg >= 0) && (it.a.Imm? ==> InRange(it.a.kind, it.arg))
    && (it.a.Align? ==> IsMask(it.a.mask))
  }

  ghost predicate ItemsOk(act: seq<byte>, items: seq<Item>, sec: nat)
  {
    && (items != [] ==>
      items[0].a.Begin? && items[0].arg == items[0].next && items[0].at == sec * SEC_SPAN && items[0].est == 0)
    && (forall i, j | 0 <= i && j == i + 1 < |items| :: Next(act, items[i], items[j]))
    && (forall i | 0 <= i < |items| :: ItemOk(items[i]))
  }

  /** The last call of the section has ended. */
  predicate Complete(act: seq<byte>, items: seq<Item>)
  {
    items != [] ==> Ends(Fetch(act, items[|items| - 1].next).a)
  }

  ghost predicate LabelAt(secs: seq<seq<Item>>, q: int)
  {
    exists k, i :: 0 <= k < |secs| && 0 <= i < |secs[k]| && secs[k][i].at == q && IsLabel(secs[k][i].a)
  }

  ghost predicate RefAt(secs: seq<seq<Item>>, w: int)
  {
    exists k, i :: 0 <= k < |secs| && 0 <= i < |secs[k]| && secs[k][i].at == w && IsRef(secs[k][i].a)
  }

  ghost predicate RefsOk(s: Asm)
  {
    && (forall w | w in s.refs :: RefAt(s.secs, w) && (s.refs[w].At? ==> LabelAt(s.secs, s.refs[w].pos)))
    && (forall l | Known(s, l) && LabOf(s, l).Defined? :: LabelAt(s.secs, LabOf(s, l).pos))
  }

  ghost predicate AsmOk(act: seq<byte>, s: Asm)
  {
    && s.cur < |s.secs| && |s.lg| >= 10 && RefsOk(s)
    && forall k | 0 <= k < |s.secs| :: ItemsOk(act, s.secs[k], k) && EndPos(s.secs[k], k) <= k * SEC_SPAN + SEC_MAX
  }

  lemma {:induction false} Ascending(act: seq<byte>, items: seq<Item>, sec: nat, i: nat, j: nat)
    requires ItemsOk(act, items, sec) && i < j < |items|
    ensures items[i].at + Words(items[i].a) <= items[j].at
    decreases j
  {
    assert Next(act, items[j - 1], items[j]);
    if i < j - 1 { Ascending(act, items, sec, i, j - 1); }
  }

  lemma InSection(act: seq<byte>, items: seq<Item>, sec: nat, i: nat)
    requires ItemsOk(act, items, sec) && i < |items|
    ensures sec * SEC_SPAN <= items[i].at && items[i].at + Words(items[i].a) <= EndPos(items, sec)
  {
    if i > 0 { Ascending(act, items, sec, 0, i); }
    if i < |items| - 1 { Ascending(act, items, sec, i, |items| - 1); }
  }

  /** Nothing lies beyond the end of a section. */
  lemma FreeAtEnd(act: seq<byte>, s: Asm, pos: int)
    requires AsmOk(act, s) && EndPos(s.secs[s.cur], s.cur) <= pos < s.cur * SEC_SPAN + SEC_SPAN
    ensures Free(s, pos)
  {
    if s.secs[s.cur] != [] { InSection(act, s.secs[s.cur], s.cur, |s.secs[s.cur]| - 1); }
    forall k, i | 0 <= k < |s.secs| && 0 <= i < |s.secs[k]|
      ensures Elsewhere(s.secs[k][i], pos) && (IsRef(s.secs[k][i].a) ==> s.secs[k][i].at != pos)
    {
      assert ItemsOk(act, s.secs[k], k);
      InSection(act, s.secs[k], k, i);
      Apart(k, s.cur);
    }
    assert RefsOk(s);
  }

  lemma Apart(k: nat, m: nat)
    ensures k < m ==> k * SEC_SPAN + SEC_SPAN <= m * SEC_SPAN
    ensures k > m ==> m * SEC_SPAN + SEC_SPAN <= k * SEC_SPAN
  {
  }

  lemma LabelAtMore(secs: seq<seq<Item>>, cur: nat, it: Item, q: int)
    requires cur < |secs|
    ensures LabelAt(secs, q) ==> LabelAt(secs[cur := secs[cur] + [it]], q)
    ensures RefAt(secs, q) ==> RefAt(secs[cur := secs[cur] + [it]], q)
    ensures IsLabel(it.a) ==> LabelAt(secs[cur := secs[cur] + [it]], it.at)
    ensures IsRef(it.a) ==> RefAt(secs[cur := secs[cur] + [it]], it.at)
  {
    var secs' := secs[cur := secs[cur] + [it]];
    if LabelAt(secs, q) {
      var k, i :| 0 <= k < |secs| && 0 <= i < |secs[k]| && secs[k][i].at == q && IsLabel(secs[k][i].a);
      assert secs'[k][i] == secs[k][i];
    }
    if RefAt(secs, q) {
      var k, i :| 0 <= k < |secs| && 0 <= i < |secs[k]| && secs[k][i].at == q && IsRef(secs[k][i].a);
      assert secs'[k][i] == secs[k][i];
    }
    assert secs'[cur][|secs[cur]|] == it;
  }

  /** Every action keeps the structure. */
  lemma ActionKeeps(act: seq<byte>, s: Asm, f: Fetched, arg: int)
    requires AsmOk(act, s) && !f.a.Unsupported? && !Ends(f.a) && Check(s, f.a, f.next, arg).Ok? && ArgOk(f.a, arg)
    requires var items := s.secs[s.cur];
      if f.a.Begin? then Complete(act, items) && f.next == arg
        else items != [] && Fetch(act, items[|items| - 1].next) == f
    requires EndPos(s.secs[s.cur], s.cur) + Words(f.a) <= s.cur * SEC_SPAN + SEC_MAX
    ensures AsmOk(act, PutAction(s, f.a, f.next, arg))
  {
    hide Fetch, LabelAt, RefAt;
    var it := NewItem(s, f.a, f.next, arg);
    var s' := PutAction(s, f.a, f.next, arg);
    var secs' := s.secs[s.cur := s.secs[s.cur] + [it]];
    assert s'.secs == secs';
    forall k | 0 <= k < |secs'| ensures ItemsOk(act, secs'[k], k) && EndPos(secs'[k], k) <= k * SEC_SPAN + SEC_MAX {
      assert ItemsOk(act, s.secs[k], k);
      if k == s.cur { ItemAppended(act, s.secs[k], k, it); }
    }
    forall q ensures LabelAt(s.secs, q) ==> LabelAt(secs', q) { LabelAtMore(s.secs, s.cur, it, q); }
    forall q ensures RefAt(s.secs, q) ==> RefAt(secs', q) { LabelAtMore(s.secs, s.cur, it, q); }
    LabelAtMore(s.secs, s.cur, it, it.at);
    forall l | Known(s', l) && LabOf(s', l).Defined? ensures LabelAt(secs', LabOf(s', l).pos) {
      assert Known(s, l);
      assert LabOf(s', l) == LabOf(s, l) || LabOf(s', l) == Defined(it.at);
    }
    assert RefsOk(s');
  }

  lemma ItemAppended(act: seq<byte>, items: seq<Item>, sec: nat, it: Item)
    requires ItemsOk(act, items, sec) && ItemOk(it) && it.at == EndPos(items, sec) && it.est == EndEst(items)
    requires if it.a.Begin? then Complete(act, items) && it.next == it.arg
             else items != [] && Fetch(act, items[|items| - 1].next) == Fetched(it.a, it.next)
    ensures ItemsOk(act, items + [it], sec)
  {
    var items' := items + [it];
    forall i, j | 0 <= i && j == i + 1 < |items'| ensures Next(act, items'[i], items'[j]) {
      if j < |items| { assert Next(act, items[i], items[j]); }
    }
  }

  /** What an action does to the sections. */
  lemma ActionAppends(s: Asm, f: Fetched, arg: int)
    requires s.cur < |s.secs| && |s.lg| >= 10 && !f.a.Unsupported? && !Ends(f.a) && Check(s, f.a, f.next, arg).Ok?
    ensures var s', it := PutAction(s, f.a, f.next, arg), NewItem(s, f.a, f.next, arg);
      && s'.secs == s.secs[s.cur := s.secs[s.cur] + [it]] && s'.cur == s.cur && |s'.lg| == |s.lg| && |s'.pc| == |s.pc|
      && EndPos(s'.secs[s.cur], s.cur) == it.at + Words(f.a) && EndEst(s'.secs[s.cur]) == it.est + MaxLen(f.a, arg)
  {
  }

  /** An action that neither refers to a label nor defines one. */
  lemma PlainCoupled(act: seq<byte>, s: Asm, b: map<int, int>, lg: seq<int>, pc: seq<int>, chains: Chains,
                     f: Fetched, arg: int, b': map<int, int>)
    requires AsmOk(act, s) && Coupled(s, b, lg, pc, chains)
    requires !f.a.Unsupported? && !Ends(f.a) && !IsRef(f.a) && !IsLabel(f.a) && Check(s, f.a, f.next, arg).Ok?
    requires EndPos(s.secs[s.cur], s.cur) + Words(f.a) <= s.cur * SEC_SPAN + SEC_MAX
    requires f.a.Begin? ==> f.next == arg
    requires var it := NewItem(s, f.a, f.next, arg);
      b' == if f.a.Lit? then b else b[it.at := if f.a.Align? then it.est + f.a.mask else arg]
    ensures Coupled(PutAction(s, f.a, f.next, arg), b', lg, pc, chains)
  {
    hide Coupled, ItemsOk, AllLabels, AllHold;
    var it := NewItem(s, f.a, f.next, arg);
    if !f.a.Lit? {
      FreeAtEnd(act, s, it.at);
      WriteFree(s, b, lg, pc, chains, it.at, b'[it.at]);
    }
    AppendHolds(s, b', lg, pc, chains, it);
  }

  /** A reference, after its first word was written. */
  lemma RefCoupled(s: Asm, s1: Asm, b: map<int, int>, lg: seq<int>, pc: seq<int>, chains: Chains, f: Fetched,
                   arg: int, b': map<int, int>)
    requires s.cur < |s.secs| && |s.lg| >= 10 && IsRef(f.a) && Check(s, f.a, f.next, arg).Ok?
    requires var it := NewItem(s, f.a, f.next, arg);
      && Free(s, it.at) && (IsRel(f.a) ==> Free(s, it.at + 1))
      && s1 == PutRef(s, f.a, arg, it.at) && Coupled(s1, b, lg, pc, chains)
      && it.at in b && (s1.refs[it.at].At? ==> b[it.at] == s1.refs[it.at].pos)
      && b' == if IsRel(f.a) then b[it.at + 1 := it.est + 4] else b
    ensures Coupled(PutAction(s, f.a, f.next, arg), b', lg, pc, chains)
  {
    hide Coupled, AllLabels, AllHold;
    var it := NewItem(s, f.a, f.next, arg);
    if IsRel(f.a) {
      assert Free(s1, it.at + 1);
      WriteFree(s1, b, lg, pc, chains, it.at + 1, it.est + 4);
    }
    AppendHolds(s1, b', lg, pc, chains, it);
  }

  /** A label, after its chain was collapsed. */
  lemma LabelCoupled(s: Asm, s1: Asm, b: map<int, int>, lg: seq<int>, pc: seq<int>, chains: Chains, f: Fetched,
                     arg: int)
    requires s.cur < |s.secs| && |s.lg| >= 10 && IsLabel(f.a) && Check(s, f.a, f.next, arg).Ok?
    requires var it := NewItem(s, f.a, f.next, arg);
      Free(s1, it.at) && s1 == PutLabel(s, LabelOf(f.a, arg), it.at) && Coupled(s1, b, lg, pc, chains)
    ensures var it := NewItem(s, f.a, f.next, arg);
      Coupled(PutAction(s, f.a, f.next, arg), b[it.at := it.est], lg, pc, chains)
  {
    hide Coupled, AllLabels, AllHold;
    var it := NewItem(s, f.a, f.next, arg);
    WriteFree(s1, b, lg, pc, chains, it.at, it.est);
    AppendHolds(s1, b[it.at := it.est], lg, pc, chains, it);
  }

  lemma EndPosBound(act: seq<byte>, items: seq<Item>, sec: nat)
    requires ItemsOk(act, items, sec)
    ensures EndPos(items, sec) >= sec * SEC_SPAN >= 0
  {
    if items != [] { InSection(act, items, sec, |items| - 1); }
  }
}
