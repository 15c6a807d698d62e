/** The three passes of DynASM's x86 engine. */
module DasmEngine {
  import opened Numbers
  import opened DasmActions
  import opened DasmSpec
  import opened DasmChains
  import opened DasmItems
  import opened DasmLayout
  import opened DasmCode

  class Assembler {
    const act: seq<byte>
    var b: map<int, int>        // all section buffers, by biased position
    var lgLabels: seq<int>
    var pcLabels: seq<int>
    var secPos: seq<int>
    var secOfs: seq<int>
    var section: nat
    var status: Status
    var codeSize: int
    ghost var asm: Asm
    ghost var chains: Chains
    ghost var words: map<int, int>  // the section buffers before linking
    ghost var fin: seq<int>         // the final offset of every item, and the total

    ghost predicate Linked()
      reads this
    {
      AsmOk(act, asm) && Coupled(asm, b, lgLabels, pcLabels, chains)
    }

    /** Before and between calls; after a range error nothing is promised. */
    ghost predicate Valid()
      reads this
    {
      status.Ok? ==>
        Linked() && section == asm.cur && |secPos| == |secOfs| == |asm.secs| && Saved(act, asm.secs, secPos, secOfs, -1)
    }

    /** `dasm_init`, `dasm_setupglobal` and `dasm_setup`. */
    constructor (maxSection: nat, maxGlobal: nat, actionList: seq<byte>)
      requires maxSection > 0
      ensures Valid() && status.Ok? && act == actionList
      ensures asm == Asm(seq(maxSection, _ => []), 0, seq(10 + maxGlobal, _ => Unused), [], map[])
    {
      act := actionList;
      b := map[];
      lgLabels, pcLabels := seq(10 + maxGlobal, _ => 0), [];
      secPos, secOfs := seq(maxSection, k => k * SEC_SPAN), seq(maxSection, _ => 0);
      section, status, codeSize := 0, Ok, 0;
      words, fin := map[], [];
      asm, chains := Asm(seq(maxSection, _ => []), 0, seq(10 + maxGlobal, _ => Unused), [], map[]), map[];
    }

    /** `dasm_growpc`. */
    method GrowPc(maxPc: nat)
      requires Valid() && status.Ok?
      modifies this`pcLabels, this`asm
      ensures Valid() && status.Ok?
      ensures |pcLabels| == if maxPc > |old(pcLabels)| then maxPc else |old(pcLabels)|
      ensures asm == old(asm).(pc := old(asm.pc) + seq(|pcLabels| - |old(pcLabels)|, _ => Unused))
    {
      var more := if maxPc > |pcLabels| then maxPc - |pcLabels| else 0;
      MoreLabels(act, asm, b, lgLabels, pcLabels, chains, more);
      pcLabels := pcLabels + seq(more, _ => 0);
      asm := asm.(pc := asm.pc + seq(more, _ => Unused));
    }

    /** `*pl`. */
    function LabelWord(l: Label): int
      reads this
      requires if l.LG? then l.n < |lgLabels| else 0 <= l.i < |pcLabels|
    {
      WordOf(lgLabels, pcLabels, l)
    }

    method SetLabelWord(l: Label, v: int)
      requires if l.LG? then l.n < |lgLabels| else 0 <= l.i < |pcLabels|
      modifies this`lgLabels, this`pcLabels
      ensures lgLabels == SetLgWord(old(lgLabels), l, v) && pcLabels == SetPcWord(old(pcLabels), l, v)
    {
      if l.LG? {
        lgLabels := lgLabels[l.n := v];
      } else {
        pcLabels := pcLabels[l.i := v];
      }
    }

    /** The code from `putrel` and `linkrel` on: the label position, or a new link of its chain. */
    method PutReference(a: Action, arg: int, pos: int)
      requires IsRef(a) && Coupled(asm, b, lgLabels, pcLabels, chains) && Known(asm, LabelOf(a, arg))
        && Free(asm, pos) && pos > 0
      modifies this`b, this`lgLabels, this`pcLabels, this`asm, this`chains
      ensures asm == PutRef(old(asm), a, arg, pos) && Coupled(asm, b, lgLabels, pcLabels, chains)
      ensures pos in b && (asm.refs[pos].At? ==> b[pos] == asm.refs[pos].pos)
    {
      hide Coupled, Free, LabelHolds, SetLgWord, SetPcWord;
      assert |lgLabels| == |asm.lg| && |pcLabels| == |asm.pc| by { CoupledSizes(asm, b, lgLabels, pcLabels, chains); }
      var l := LabelOf(a, arg);
      WordTells(asm, b, lgLabels, pcLabels, chains, l);
      var n := LabelWord(l);
      if n < 0 && !Forward(a) {
        RefToDefined(asm, b, lgLabels, pcLabels, chains, l, pos);
        b := b[pos := -n];
      } else {
        RefWaits(asm, b, lgLabels, pcLabels, chains, l, pos);
        b := b[pos := if n < 0 then 0 else n];
        SetLabelWord(l, pos);
        chains := chains[l := [pos] + ChainOf(chains, l)];
      }
      asm := PutRef(asm, a, arg, pos);
    }

    /** `putlabel`: collapses the chain of the label and replaces it with the label position. */
    method DefineLabel(l: Label, pos: int)
      requires Coupled(asm, b, lgLabels, pcLabels, chains) && Known(asm, l) && Free(asm, pos) && pos > 0
      modifies this`b, this`lgLabels, this`pcLabels, this`asm, this`chains
      ensures asm == PutLabel(old(asm), l, pos) && Coupled(asm, b, lgLabels, pcLabels, chains) && Free(asm, pos)
    {
      hide Coupled, Free, Threaded, SetLgWord, SetPcWord, LabelHolds, WaitersAre;
      CoupledSizes(asm, b, lgLabels, pcLabels, chains);
      WordTells(asm, b, lgLabels, pcLabels, chains, l);
      ghost var c, i, b0 := ChainOf(chains, l), 0, b;
      var n := LabelWord(l);
      while n > 0
        invariant asm == old(asm) && chains == old(chains) && lgLabels == old(lgLabels) && pcLabels == old(pcLabels)
        invariant 0 <= i <= |c| && Threaded(b0, c) && b.Keys == b0.Keys
        invariant n == (if i < |c| then c[i] else if i == 0 then LabelWord(l) else 0) && (i < |c| ==> n > 0)
        invariant forall w | w in b0 :: b[w] == if w in c[..i] then pos else b0[w]
        decreases |c| - i
      {
        ChainStep(b0, c, i);
        var pb := n;
        n := b[pb];
        b := b[pb := pos];
        i := i + 1;
      }
      assert c[..i] == c;
      LabelTaken(asm, b0, lgLabels, pcLabels, chains, l, pos, b);
      SetLabelWord(l, -pos);
      chains := chains[l := []];
      asm := PutLabel(asm, l, pos);
    }

    /** Stores an action that has nothing to do with labels; `value` is its word in the buffer. */
    method PutPlain(ghost f: Fetched, ghost arg: int, pos: int, value: int)
      requires AsmOk(act, asm) && Coupled(asm, b, lgLabels, pcLabels, chains)
      requires !f.a.Unsupported? && !Ends(f.a) && !IsRef(f.a) && !IsLabel(f.a) && !f.a.Lit?
        && Check(asm, f.a, f.next, arg).Ok?
      requires pos == EndPos(asm.secs[asm.cur], asm.cur) && pos + 1 <= asm.cur * SEC_SPAN + SEC_MAX
      requires value == if f.a.Align? then EndEst(asm.secs[asm.cur]) + f.a.mask else arg
      requires if f.a.Begin? then Complete(act, asm.secs[asm.cur]) && f.next == arg else Reads(f) && ArgOk(f.a, arg)
      modifies this`b, this`asm
      ensures asm == PutAction(old(asm), f.a, f.next, arg) && Linked()
    {
      hide Coupled, RefsOk, ItemsOk, Holds;
      PlainCoupled(act, asm, b, lgLabels, pcLabels, chains, f, arg, b[pos := value]);
      ActionKeeps(act, asm, f, arg);
      b := b[pos := value];
      asm := PutAction(asm, f.a, f.next, arg);
    }

    ghost method KeepLit(f: Fetched)
      requires AsmOk(act, asm) && Coupled(asm, b, lgLabels, pcLabels, chains) && f.a.Lit? && Reads(f)
      modifies this`asm
      ensures asm == PutAction(old(asm), f.a, f.next, 0) && Linked()
    {
      hide Coupled, RefsOk, ItemsOk, Holds;
      PlainCoupled(act, asm, b, lgLabels, pcLabels, chains, f, 0, b);
      ActionKeeps(act, asm, f, 0);
      asm := PutAction(asm, f.a, f.next, 0);
    }

    /** The action that the list has next. */
    ghost predicate Reads(f: Fetched)
      reads this`asm
      requires asm.cur < |asm.secs|
    {
      var items := asm.secs[asm.cur];
      items != [] && Fetch(act, items[|items| - 1].next) == f
    }

    /** Stores a reference and, for a branch, the estimated offset behind it. */
    method PutRefAction(f: Fetched, arg: int, pos: int, ofs: int)
      requires AsmOk(act, asm) && Coupled(asm, b, lgLabels, pcLabels, chains)
      requires IsRef(f.a) && Check(asm, f.a, f.next, arg).Ok? && Reads(f) && pos > 0
      requires pos == EndPos(asm.secs[asm.cur], asm.cur) && pos + Words(f.a) <= asm.cur * SEC_SPAN + SEC_MAX
      requires ofs == EndEst(asm.secs[asm.cur])
      modifies this`b, this`lgLabels, this`pcLabels, this`asm, this`chains
      ensures asm == PutAction(old(asm), f.a, f.next, arg) && Linked()
    {
      hide Coupled, RefsOk, ItemsOk, Holds, Free, PutRef;
      ghost var s := asm;
      FreeAtEnd(act, asm, pos);
      if IsRel(f.a) { FreeAtEnd(act, asm, pos + 1); }
      ActionKeeps(act, asm, f, arg);
      PutReference(f.a, arg, pos);
      ghost var s1, b1 := asm, b;
      if IsRel(f.a) {
        b := b[pos + 1 := ofs + 4];
      }
      RefCoupled(s, s1, b1, lgLabels, pcLabels, chains, f, arg, b);
      asm := PutAction(s, f.a, f.next, arg);
    }

    method PutLabelAction(f: Fetched, arg: int, pos: int, ofs: int)
      requires AsmOk(act, asm) && Coupled(asm, b, lgLabels, pcLabels, chains)
      requires IsLabel(f.a) && Check(asm, f.a, f.next, arg).Ok? && Reads(f) && pos > 0
      requires pos == EndPos(asm.secs[asm.cur], asm.cur) && pos + 1 <= asm.cur * SEC_SPAN + SEC_MAX
      requires ofs == EndEst(asm.secs[asm.cur])
      modifies this`b, this`lgLabels, this`pcLabels, this`asm, this`chains
      ensures asm == PutAction(old(asm), f.a, f.next, arg) && Linked()
    {
      hide Coupled, RefsOk, ItemsOk, Holds, Free, PutLabel;
      ghost var s := asm;
      FreeAtEnd(act, asm, pos);
      ActionKeeps(act, asm, f, arg);
      DefineLabel(LabelOf(f.a, arg), pos);
      LabelCoupled(s, asm, b, lgLabels, pcLabels, chains, f, arg);
      b := b[pos := ofs];
      asm := PutAction(s, f.a, f.next, arg);
    }

    /** The range checks on the label of an action. */
    method CheckLabel(a: Action, next: nat, arg: int) returns (st: Status)
      requires Coupled(asm, b, lgLabels, pcLabels, chains) && |asm.lg| >= 10 && (IsRef(a) || IsLabel(a))
      ensures st == Check(asm, a, next, arg)
    {
      hide AllLabels, AllHold;
      var l := LabelOf(a, arg);
      if IsRef(a) && Forward(a) { return Ok; }
      if !InLabels(l) { return if l.PC? then RangePC(next - 1) else RangeLG(next - 1); }
      WordTells(asm, b, lgLabels, pcLabels, chains, l);
      if IsRef(a) && l.LG? && l.n < 10 && LabelWord(l) >= 0 { return RangeLG(next - 1); }
      return Ok;
    }

    /** One action of a call, other than its end: the body of the loop of `dasm_put`. */
    method PutNext(f: Fetched, arg: int, pos: int, ofs: int, ghost q: nat) returns (pos': int, ofs': int)
      requires Pending(section, q, pos, ofs) && Fetch(act, q) == f && !Ends(f.a) && !f.a.Unsupported? && status.Ok?
        && pos > 0
      requires pos + Words(f.a) <= section * SEC_SPAN + SEC_MAX && ArgOk(f.a, arg) && (!TakesArg(f.a) ==> arg == 0)
      modifies this
      ensures section == old(section) && status == Check(old(asm), f.a, f.next, arg)
      ensures status.Ok? ==> asm == PutAction(old(asm), f.a, f.next, arg)
      ensures status.Ok? ==> Pending(section, f.next, pos', ofs') && pos' == pos + Words(f.a)
    {
      hide Coupled, ItemsOk, RefsOk, Free, Holds, PutRef, PutLabel, EndPos, EndEst, Complete, PutAction, Check;
      pos', ofs' := pos, ofs;
      ghost var s := asm;
      CheckKinds(asm, f.a, f.next, arg);
      if Check(asm, f.a, f.next, arg).Ok? { ActionAppends(asm, f, arg); }
      if f.a.Lit? {
        KeepLit(f);
        ofs' := ofs + 1;
      } else if IsLabel(f.a) || IsRef(f.a) {
        var st := CheckLabel(f.a, f.next, arg);
        if !st.Ok? { status := st; return; }
        if IsLabel(f.a) {
          PutLabelAction(f, arg, pos, ofs);
          pos' := pos + 1;
        } else {
          PutRefAction(f, arg, pos, ofs);
          pos', ofs' := pos + Words(f.a), ofs + 4;
        }
      } else {
        if f.a.Imm? && !InRange(f.a.kind, arg) { status := RangeI(f.next - 1); return; }
        ofs' := ofs + MaxLen(f.a, arg);
        PutPlain(f, arg, pos, if f.a.Align? then ofs' else arg);
        pos' := pos + 1;
      }
    }

    /** The head of a call: the action list pointer goes into the buffer. */
    method StartCall(start: nat) returns (pos: int, ofs: int)
      requires Valid() && status.Ok?
      requires EndPos(asm.secs[asm.cur], asm.cur) + 1 <= asm.cur * SEC_SPAN + SEC_MAX
      modifies this`b, this`asm
      ensures asm == PutAction(old(asm), Begin, start, start) && asm.cur == section
      ensures Pending(section, start, pos, ofs) && pos == EndPos(old(asm).secs[section], section) + 1 > 0
    {
      hide Coupled, ItemsOk, RefsOk, Free, Holds, PutRef, PutLabel, EndPos, EndEst, Fetch;
      EndPosBound(act, asm.secs[section], section);
      ActionAppends(asm, Fetched(Begin, start), start);
      pos, ofs := secPos[section], secOfs[section];
      PutPlain(Fetched(Begin, start), start, pos, start);
      pos := pos + 1;
    }

    /** The end of a call: `DASM_STOP`, or `DASM_SECTION`, which switches sections. */
    method EndCall(f: Fetched, ghost p: nat, pos: int, ofs: int)
      requires Pending(section, p, pos, ofs) && f == Fetch(act, p) && Ends(f.a) && !f.a.Unsupported? && status.Ok?
      modifies this
      ensures Valid() && status == Check(old(asm), f.a, f.next, 0)
      ensures status.Ok? ==> asm == PutAction(old(asm), f.a, f.next, 0)
    {
      hide Coupled, ItemsOk, RefsOk, Fetch, EndPos, EndEst, Complete;
      var sec := section;
      if f.a.Section? {
        if f.a.n >= |secPos| { status := RangeSec(f.next - 2); return; }
        section := f.a.n;
      }
      CallEnds(act, asm, b, lgLabels, pcLabels, chains, section);
      asm := asm.(cur := section);
      secPos, secOfs := secPos[sec := pos], secOfs[sec := ofs];
    }

    /** `dasm_put`. */
    method Put(start: nat, args: seq<int>)
      requires Valid() && status.Ok? && CallOk(act, start, args)
      requires EndPos(asm.secs[asm.cur], asm.cur) + 1 + WordCount(act, start) <= asm.cur * SEC_SPAN + SEC_MAX
      modifies this
      ensures Valid()
      ensures match PutCall(old(asm), act, start, args)
        case Done(s) => status.Ok? && asm == s
        case Refused(st) => status == st
    {
      hide Coupled, ItemsOk, RefsOk, PutRef, PutLabel, EndPos, EndEst, Fetch, Saved;
      ghost var s0 := asm;
      var sec, p, k := section, start, 0;
      var pos, ofs := StartCall(start);
      assert args[0..] == args;
      var f := Fetch(act, p);
      while !Ends(f.a)
        invariant 0 <= k <= |args| && status.Ok? && section == sec && Pending(sec, p, pos, ofs) && pos > 0
          && f == Fetch(act, p)
        invariant CallOk(act, p, args[k..]) && pos + WordCount(act, p) <= sec * SEC_SPAN + SEC_MAX
        invariant PutRest(asm, act, p, args[k..]) == PutCall(s0, act, start, args)
        decreases |act| - p
      {
        var arg := 0;
        if TakesArg(f.a) { arg, k := args[k], k + 1; }
        pos, ofs := PutNext(f, arg, pos, ofs, p);
        if !status.Ok? { return; }
        p := f.next;
        f := Fetch(act, p);
      }
      EndCall(f, p, pos, ofs);
    }

    /** `dasm_checkstep`: local labels may not stay open, and do not outlive the step. */
    method CheckStep(secMatch: int) returns (st: Status)
      requires Valid() && status.Ok?
      modifies this
      ensures Valid() && st == status
      ensures st.Ok? <==> (forall i | 1 <= i <= 9 :: !old(asm).lg[i].Wanted?) && (secMatch < 0 || section == secMatch)
      ensures st.UndefL? <==> exists i :: 1 <= i <= 9 && old(asm).lg[i].Wanted?
      ensures st.UndefL? ==> 1 <= st.n <= 9 && old(asm).lg[st.n].Wanted?
      ensures section == old(section) && (!st.Ok? && !st.UndefL? ==> st == MatchSec(section))
      ensures st.Ok? ==> asm == old(asm).(lg := Forget(old(asm).lg, 10))
    {
      hide Coupled, RefsOk, ItemsOk, Saved;
      var i := 1;
      ghost var s0 := asm;
      while i <= 9
        invariant 1 <= i <= 10 && status.Ok? && Valid() && |s0.lg| >= 10 && section == old(section)
        invariant forall j | 1 <= j < i :: !s0.lg[j].Wanted?
        invariant asm == s0.(lg := Forget(s0.lg, i))
      {
        WordTells(asm, b, lgLabels, pcLabels, chains, LG(i));
        CoupledSizes(asm, b, lgLabels, pcLabels, chains);
        if lgLabels[i] > 0 {
          status := UndefL(i);
          return status;
        }
        Forgotten(act, asm, b, lgLabels, pcLabels, chains, i);
        lgLabels := lgLabels[i := 0];
        asm := asm.(lg := asm.lg[i := Unused]);
        i := i + 1;
      }
      if secMatch >= 0 && section != secMatch { status := MatchSec(section); }
      return status;
    }

    // ----- pass 2

    ghost function All(): seq<Item>
      reads this`asm
    {
      Flat(asm.secs, |asm.secs|)
    }

    /** Sections `0..k` and `i` items of section `k` are linked; `ofs` is what the estimates are off by. */
    ghost predicate Linking(k: nat, i: nat, ofs: int)
      reads this
    {
      && SecsOk(act, asm.secs, secOfs) && |secPos| == |secOfs| == |asm.secs| && Saved(act, asm.secs, secPos, secOfs, -1)
      && k < |asm.secs| && i <= |asm.secs[k]| && Spread(All(), secOfs) && Resolved(All(), words)
      && LinkPoint(asm.secs, k, i) <= |All()| && LinkedUpTo(All(), LinkPoint(asm.secs, k, i), words, b, secOfs, fin)
      && |fin| == LinkPoint(asm.secs, k, i) + 1 && fin[LinkPoint(asm.secs, k, i)] == EndEst(asm.secs[k][..i]) + ofs >= 0
    }

    /** The sections before section `k` are linked. */
    ghost predicate LinkedSections(k: nat, ofs: int)
      reads this
    {
      if k < |asm.secs| then Linking(k, 0, ofs) else k == |asm.secs| && LinkedAll(ofs)
    }

    /** All sections are linked, and `ofs` is the size of the code. */
    ghost predicate LinkedAll(ofs: int)
      reads this
    {
      && SecsOk(act, asm.secs, secOfs) && |secPos| == |secOfs| == |asm.secs| && Saved(act, asm.secs, secPos, secOfs, -1)
      && Spread(All(), secOfs) && Resolved(All(), words)
      && LinkedUpTo(All(), |All()|, words, b, secOfs, fin) && |fin| == |All()| + 1 && fin[|All()|] == ofs
    }

    lemma SectionLinked(k: nat, ofs: int)
      requires k < |asm.secs| && Linking(k, |asm.secs[k]|, ofs)
      ensures k < |secOfs| && LinkedSections(k + 1, ofs + secOfs[k])
    {
      hide Saved, SecsOk, Spread, Resolved, LinkedUpTo;
      assert asm.secs[k][..|asm.secs[k]|] == asm.secs[k];
      SectionSize(act, asm.secs, secOfs, k);
    }

    /** Decides whether a branch can be short. */
    method Decide(ghost it: Item, op: byte, pos: int, secNum: nat, ofs: int, ghost o: int) returns (shrink: int)
      requires IsRel(it.a) && op == it.a.op && pos == it.at && 0 <= pos && secNum == SecOf(pos) && o == it.est + ofs
      requires pos in b && pos + 1 in b && pos in words && b[pos] == words[pos] && b[pos + 1] == it.est + 4
      requires words[pos] in words && words[pos] in b && 0 <= words[pos] && SecOf(words[pos]) < |secOfs|
      requires words[pos] > pos ==> b[words[pos]] == words[words[pos]]
      ensures shrink == ShrinkOf(it, o, words, b, secOfs)
    {
      shrink := Shrinkable(op);
      if shrink > 0 {
        var lpos := b[pos];
        var lofs := b[lpos];
        if lpos > pos {
          var i := secNum;
          assert SecOf(pos) <= SecOf(lpos);
          while i < SecOf(lpos)
            invariant secNum <= i <= SecOf(lpos)
            invariant lofs == words[lpos] + SecSum(secOfs, secNum, i)
          {
            lofs := lofs + secOfs[i];
            i := i + 1;
          }
        } else {
          lofs := lofs - ofs;
        }
        lofs := lofs - b[pos + 1];
        if !(lofs >= -128 - shrink && lofs <= 127) { shrink := 0; }
      }
    }

    /** One action: shrinks a branch or an alignment, or fixes the offset of a label. */
    method LinkNext(a: Action, pos: int, k: nat, ghost i: nat, ofs: int) returns (pos': int, ofs': int)
      requires Linking(k, i, ofs) && i < |asm.secs[k]| && asm.secs[k][i].a == a && asm.secs[k][i].at == pos
      modifies this`b, this`fin
      ensures Linking(k, i + 1, ofs') && pos' == pos + Words(a)
    {
      hide SecsOk, Saved, Spread, Resolved, LinkedUpTo, LinkedWords, ItemsOk, ShrinkOf, Distance, IsMask;
      ghost var x, all, it, o := LinkPoint(asm.secs, k, i), All(), asm.secs[k][i], fin[LinkPoint(asm.secs, k, i)];
      ghost var was := b;
      FlatAt(asm.secs, |asm.secs|, k, i);
      BeforeLink(all, x, words, b, secOfs, fin);
      EstAt(act, asm.secs, secOfs, k, i);
      pos', ofs' := pos + Words(a), ofs;
      if IsRel(a) {
        BranchReady(all, x, words, b, secOfs, fin);
        PosSection(act, asm.secs, secOfs, k, i);
        var shrink := Decide(it, OpOf(a), pos, k, ofs, o);
        ofs' := ofs - shrink;
        b := b[pos + 1 := shrink];
      } else if IsLabel(a) {
        b := b[pos := b[pos] + ofs];
      } else if a.Align? {
        AlignedEnd(o, a.mask);
        ofs' := ofs - BitAnd(b[pos] + ofs, a.mask);
      }
      ghost var o' := EndEst(asm.secs[k][..i + 1]) + ofs';
      LinkItem(all, x, words, was, secOfs, fin, b, o, o');
      fin := fin + [o'];
    }

    /** Walks the calls of one section along the action list. */
    method LinkSection(k: nat, ofs: int) returns (ofs': int)
      requires Linking(k, 0, ofs)
      modifies this`b, this`fin
      ensures Linking(k, |asm.secs[k]|, ofs')
    {
      hide SecsOk, Saved, Spread, Resolved, LinkedUpTo, LinkedWords, ItemsOk, Fetch;
      ghost var i, items := 0, asm.secs[k];
      var pos, lastPos := k * SEC_SPAN, secPos[k];
      ofs' := ofs;
      Walk(act, asm.secs, secPos, secOfs, k, 0);
      while pos != lastPos
        invariant Linking(k, i, ofs') && pos == PosAt(items, i, k) && (i < |items| ==> items[i].a.Begin?)
        invariant lastPos == EndPos(items, k) && (pos != lastPos <==> i < |items|)
        decreases |items| - i
      {
        FlatAt(asm.secs, |asm.secs|, k, i);
        BeforeLink(All(), LinkPoint(asm.secs, k, i), words, b, secOfs, fin);
        Walk(act, asm.secs, secPos, secOfs, k, i);
        var p := b[pos];
        pos, ofs' := LinkNext(Begin, pos, k, i, ofs');
        i := i + 1;
        ghost var i0 := i;
        var f := Fetch(act, p);
        while !Ends(f.a)
          invariant i0 <= i <= |items| && Linking(k, i, ofs') && pos == PosAt(items, i, k) && p >= 0
          invariant items[i - 1].next == p && f == Fetch(act, p)
          decreases |act| - p
        {
          Walk(act, asm.secs, secPos, secOfs, k, i - 1);
          Walk(act, asm.secs, secPos, secOfs, k, i);
          pos, ofs' := LinkNext(f.a, pos, k, i, ofs');
          i, p := i + 1, f.next;
          f := Fetch(act, p);
        }
        Walk(act, asm.secs, secPos, secOfs, k, i - 1);
        if i < |items| { Walk(act, asm.secs, secPos, secOfs, k, i); }
      }
    }

    /** Numbered labels may not stay open. */
    method CheckPcLabels() returns (st: Status)
      requires Coupled(asm, b, lgLabels, pcLabels, chains)
      ensures st.Ok? ==> forall i | 0 <= i < |asm.pc| :: !asm.pc[i].Wanted?
      ensures !st.Ok? ==> st.UndefPC? && st.n < |asm.pc| && asm.pc[st.n].Wanted?
    {
      hide Coupled;
      CoupledSizes(asm, b, lgLabels, pcLabels, chains);
      var pc := 0;
      while pc < |pcLabels|
        invariant 0 <= pc <= |pcLabels| && forall i | 0 <= i < pc :: !asm.pc[i].Wanted?
      {
        WordTells(asm, b, lgLabels, pcLabels, chains, PC(pc));
        if pcLabels[pc] > 0 { return UndefPC(pc); }
        pc := pc + 1;
      }
      return Ok;
    }

    /** `dasm_link`, for code without undefined globals. */
    method Link() returns (st: Status, size: int)
      requires Valid() && (status.Ok? ==> forall i | 0 <= i < |asm.lg| :: !asm.lg[i].Wanted?)
      modifies this`b, this`fin, this`words, this`codeSize
      ensures !status.Ok? ==> st == status && size == 0
      ensures status.Ok? ==> (st.Ok? <==> forall i | 0 <= i < |asm.pc| :: !asm.pc[i].Wanted?)
      ensures status.Ok? && !st.Ok? ==> st.UndefPC? && size == 0 && st.n < |asm.pc| && asm.pc[st.n].Wanted?
      ensures st.Ok? ==> Assembled() && words == old(b) && size == codeSize
    {
      hide Coupled, RefsOk, ItemsOk, Spread, Resolved, LinkedUpTo, Saved, SecsOk, Fetch, AsmOk;
      if !status.Ok? { return status, 0; }
      st := CheckPcLabels();
      if !st.Ok? { return st, 0; }
      forall l | Known(asm, l) ensures !LabOf(asm, l).Wanted? {
      }
      NoneWaits(act, asm, b, lgLabels, pcLabels, chains);
      SectionsOk(act, asm, secPos, secOfs);
      FlatSpread(act, asm.secs, secOfs, |asm.secs|);
      words, fin := b, [0];
      StartLink(All(), b, secOfs);
      var secNum, ofs := 0, 0;
      while secNum < |secPos|
        invariant 0 <= secNum <= |secPos| && asm == old(asm) && secOfs == old(secOfs) && secPos == old(secPos)
          && words == old(b)
        invariant LinkedSections(secNum, ofs)
      {
        ofs := LinkSection(secNum, ofs);
        SectionLinked(secNum, ofs);
        ofs := ofs + secOfs[secNum];
        secNum := secNum + 1;
      }
      codeSize := ofs;
      return Ok, ofs;
    }

    /** After linking: the layout is final. */
    ghost predicate Assembled()
      reads this
    {
      && |secOfs| == |secPos| == |asm.secs| && Saved(act, asm.secs, secPos, secOfs, -1) && SecsOk(act, asm.secs, secOfs)
      && Laid(All(), words, b, secOfs, fin) && |fin| == |All()| + 1 && codeSize == fin[|All()|]
    }

    // ----- pass 3

    /** The items before item `i` of section `k` are encoded, `cp` bytes of them. */
    ghost predicate Encoding(k: nat, i: nat, cp: int, out: array<byte>, base: int)
      reads this, out
    {
      && Assembled() && HasWords(All(), b) && OpcodesInPlace(All()) && out.Length == codeSize
      && k < |asm.secs| && i <= |asm.secs[k]| && LinkPoint(asm.secs, k, i) <= |All()|
      && cp == fin[LinkPoint(asm.secs, k, i)] && EncodedUpTo(All(), LinkPoint(asm.secs, k, i), b, fin, base, out[..])
    }

    /** `dasmb`, `dasmw` and `dasmd`. */
    method Emit(out: array<byte>, cp: nat, n: int, len: nat)
      requires cp + len <= out.Length
      modifies out
      ensures out[cp..cp + len] == LE(n, len) && out[..cp] == old(out[..cp])
    {
      var j, v := 0, n;
      while j < len
        invariant 0 <= j <= len && out[..cp] == old(out[..cp]) && out[cp..cp + j] + LE(v, len - j) == LE(n, len)
      {
        ghost var was, rest := out[cp..cp + j], LE(v / 256, len - j - 1);
        assert LE(v, len - j) == [v % 256] + rest;
        out[cp + j] := v % 256;
        v, j := v / 256, j + 1;
        assert out[cp..cp + j] == was + [out[cp + j - 1]];
      }
      assert LE(v, 0) == [];
      assert out[cp..cp + j] + [] == out[cp..cp + j];
    }

    /** The displacement of a branch; a short one also rewrites the opcode. */
    method EncodeBranch(a: Action, pos: int, ghost x: nat, cp: nat, out: array<byte>, ghost base: int)
      returns (cp': int)
      requires Assembled() && HasWords(All(), b) && OpcodesInPlace(All()) && out.Length == codeSize && x < |All()|
      requires IsRel(a) && All()[x].a == a && All()[x].at == pos && cp == fin[x]
        && EncodedUpTo(All(), x, b, fin, base, out[..])
      modifies out
      ensures cp' == fin[x + 1] && SameUpTo(out[..], old(out[..]), cp - Reach(All()[x], b))
      ensures ItemBytes(All(), x, x + 1, b, fin, base, out[..])
    {
      hide Laid, Saved, SecsOk, LE, EncodedUpTo, OpcodesInPlace, HasWords, PatchesOpcode;
      ghost var all, it := All(), All()[x];
      BranchFacts(all, x, words, b, secOfs, fin, base, out[..]);
      var shrink := b[pos + 1];
      var n := b[b[pos]] - (cp + 4 - shrink);
      cp' := cp + 4 - shrink;
      if shrink == 0 {
        Emit(out, cp, n, 4);
        assert out[..][cp..cp + 4] == out[cp..cp + 4];
      } else if shrink == 4 {
        assert out[..][cp - 1] == out[cp - 1];
        out[cp - 2] := out[cp - 1] - 0x10;
        out[cp - 1] := n % 256;
      } else {
        out[cp - 1] := 0xeb;
        out[cp] := n % 256;
      }
    }

    /** An immediate operand; a byte-sized one may rewrite the opcode two bytes back. */
    method EncodeImm(a: Action, pos: int, ghost x: nat, cp: nat, out: array<byte>, ghost base: int) returns (cp': int)
      requires Assembled() && HasWords(All(), b) && OpcodesInPlace(All()) && out.Length == codeSize && x < |All()|
      requires a.Imm? && All()[x].a == a && All()[x].at == pos && cp == fin[x]
        && EncodedUpTo(All(), x, b, fin, base, out[..])
      modifies out
      ensures cp' == fin[x + 1] && SameUpTo(out[..], old(out[..]), cp - Reach(All()[x], b))
      ensures ItemBytes(All(), x, x + 1, b, fin, base, out[..])
    {
      hide Laid, Saved, SecsOk, LE, EncodedUpTo, OpcodesInPlace, HasWords, PatchesOpcode;
      ImmFacts(All(), x, words, b, secOfs, fin, base, out[..]);
      var n := b[pos];
      cp' := cp + ImmLen(a.kind, n);
      if Widened(a, n) {
        assert out[..][cp - 2] == out[cp - 2];
        var c: int := out[cp - 2];
        out[cp - 2] := (c + 2) % 256;
      }
      Emit(out, cp, n, ImmLen(a.kind, n));
      assert out[..][cp..cp'] == out[cp..cp'];
    }

    /** Operands of four bytes: an absolute target, or the address of a label. */
    method EncodeAddress(a: Action, pos: int, ghost x: nat, cp: nat, out: array<byte>, base: int) returns (cp': int)
      requires Assembled() && HasWords(All(), b) && OpcodesInPlace(All()) && out.Length == codeSize && x < |All()|
      requires (a.RelA? || a.ImmLG? || a.ImmPC?) && All()[x].a == a && All()[x].at == pos && cp == fin[x]
      modifies out
      ensures cp' == fin[x + 1] && SameUpTo(out[..], old(out[..]), cp - Reach(All()[x], b))
      ensures ItemBytes(All(), x, x + 1, b, fin, base, out[..])
    {
      hide Laid, Saved, SecsOk, LE;
      PlainFacts(All(), x, words, b, secOfs, fin);
      var n := b[pos];
      cp' := cp + 4;
      Emit(out, cp, if a.RelA? then n - (base + cp + 4) else b[n] + base, 4);
      assert out[..][cp..cp'] == out[cp..cp'];
    }

    /** A literal byte, a gap, or the padding up to a boundary. */
    method EncodeFill(a: Action, pos: int, ghost x: nat, cp: nat, out: array<byte>, ghost base: int) returns (cp': int)
      requires Assembled() && HasWords(All(), b) && OpcodesInPlace(All()) && out.Length == codeSize && x < |All()|
      requires (a.Lit? || a.Space? || a.Align?) && All()[x].a == a && All()[x].at == pos && cp == fin[x]
      modifies out
      ensures cp' == fin[x + 1] && SameUpTo(out[..], old(out[..]), cp)
      ensures ItemBytes(All(), x, x + 1, b, fin, base, out[..])
    {
      hide Laid, Saved, SecsOk, LE, BitAnd;
      PlainFacts(All(), x, words, b, secOfs, fin);
      cp' := cp;
      if a.Lit? {
        out[cp] := a.c;
        cp' := cp + 1;
      } else if a.Space? {
        var n := b[pos];
        while n > 0
          invariant n >= 0 && cp' == cp + b[pos] - n && out[..cp] == old(out[..cp])
          invariant forall j | cp <= j < cp' :: out[j] == a.fill
        {
          out[cp'] := a.fill;
          cp', n := cp' + 1, n - 1;
        }
      } else {
        AndIsMod(cp', a.mask);
        while BitAnd(cp', a.mask) != 0
          invariant cp <= cp' <= fin[x + 1] && out[..cp] == old(out[..cp])
          invariant BitAnd(cp', a.mask) == cp' % (a.mask + 1)
          invariant forall j | cp <= j < cp' :: out[j] == 0x90
          decreases fin[x + 1] - cp'
        {
          out[cp'] := 0x90;
          cp' := cp' + 1;
          AndIsMod(cp', a.mask);
        }
        SameBoundary(cp', fin[x + 1], a.mask);
      }
    }

    method EncodeNext(a: Action, pos: int, k: nat, ghost i: nat, cp: int, out: array<byte>, base: int)
      returns (pos': int, cp': int)
      requires Encoding(k, i, cp, out, base) && i < |asm.secs[k]| && asm.secs[k][i].a == a && asm.secs[k][i].at == pos
      modifies out
      ensures Encoding(k, i + 1, cp', out, base) && pos' == pos + Words(a)
    {
      hide Laid, Saved, SecsOk, EncodedUpTo, OpcodesInPlace, HasWords, ItemBytes;
      ghost var x, all, was := LinkPoint(asm.secs, k, i), All(), out[..];
      FlatAt(asm.secs, |asm.secs|, k, i);
      FinGrows(all, words, b, secOfs, fin, 0, x);
      pos', cp' := pos + Words(a), cp;
      if IsRel(a) {
        cp' := EncodeBranch(a, pos, x, cp, out, base);
      } else if a.Imm? {
        cp' := EncodeImm(a, pos, x, cp, out, base);
      } else if a.RelA? || a.ImmLG? || a.ImmPC? {
        cp' := EncodeAddress(a, pos, x, cp, out, base);
      } else if a.Lit? || a.Space? || a.Align? {
        cp' := EncodeFill(a, pos, x, cp, out, base);
      } else {
        Silent(all, x, words, b, secOfs, fin, base, out[..]);
      }
      EncodeOne(all, x, words, b, secOfs, fin, base, was, out[..], cp - ReachAt(all, x, b), x + 1);
    }

    method EncodeSection(k: nat, cp: int, out: array<byte>, base: int) returns (cp': int)
      requires Encoding(k, 0, cp, out, base)
      modifies out
      ensures Encoding(k, |asm.secs[k]|, cp', out, base)
    {
      hide Laid, Saved, SecsOk, EncodedUpTo, OpcodesInPlace, HasWords, Fetch;
      ghost var i, items := 0, asm.secs[k];
      var pos, endPos := k * SEC_SPAN, secPos[k];
      cp' := cp;
      Walk(act, asm.secs, secPos, secOfs, k, 0);
      while pos != endPos
        invariant Encoding(k, i, cp', out, base) && pos == PosAt(items, i, k) && (i < |items| ==> items[i].a.Begin?)
        invariant endPos == EndPos(items, k) && (pos != endPos <==> i < |items|)
        decreases |items| - i
      {
        FlatAt(asm.secs, |asm.secs|, k, i);
        Starts(All(), LinkPoint(asm.secs, k, i), words, b, secOfs, fin);
        Walk(act, asm.secs, secPos, secOfs, k, i);
        var p := b[pos];
        pos, cp' := EncodeNext(Begin, pos, k, i, cp', out, base);
        i := i + 1;
        ghost var i0 := i;
        var f := Fetch(act, p);
        while !Ends(f.a)
          invariant i0 <= i <= |items| && Encoding(k, i, cp', out, base) && pos == PosAt(items, i, k) && p >= 0
          invariant items[i - 1].next == p && f == Fetch(act, p)
          decreases |act| - p
        {
          Walk(act, asm.secs, secPos, secOfs, k, i - 1);
          Walk(act, asm.secs, secPos, secOfs, k, i);
          pos, cp' := EncodeNext(f.a, pos, k, i, cp', out, base);
          i, p := i + 1, f.next;
          f := Fetch(act, p);
        }
        Walk(act, asm.secs, secPos, secOfs, k, i - 1);
        if i < |items| { Walk(act, asm.secs, secPos, secOfs, k, i); }
      }
    }

    /** `dasm_encode`: fills exactly the buffer whose size pass 2 computed. */
    method Encode(out: array<byte>, base: int) returns (st: Status)
      requires Assembled() && OpcodesInPlace(All()) && out.Length == codeSize
      modifies out
      ensures st.Ok? && HasWords(All(), b) && EncodedUpTo(All(), |All()|, b, fin, base, out[..])
    {
      hide Laid, Saved, SecsOk, OpcodesInPlace;
      LinkedHasWords(All(), words, b, secOfs, fin);
      FinSize(All(), words, b, secOfs, fin);
      var cp, secNum := 0, 0;
      while secNum < |secPos|
        invariant 0 <= secNum <= |secPos|
        invariant secNum < |secPos| ==> Encoding(secNum, 0, cp, out, base)
        invariant secNum == |secPos| ==> cp == codeSize && EncodedUpTo(All(), |All()|, b, fin, base, out[..])
      {
        cp := EncodeSection(secNum, cp, out, base);
        SectionSize(act, asm.secs, secOfs, secNum);
        secNum := secNum + 1;
      }
      if cp != codeSize { return Phase; }
      return Ok;
    }

    predicate InLabels(l: Label)
      reads this
    {
      if l.LG? then l.n < |lgLabels| else 0 <= l.i < |pcLabels|
    }

    /** In the middle of a call to section `sec`: the list goes on at `p`. */
    ghost predicate Pending(sec: nat, p: nat, pos: int, ofs: int)
      reads this
    {
      && Linked() && asm.cur == sec && |secPos| == |secOfs| == |asm.secs| && asm.secs[sec] != []
      && asm.secs[sec][|asm.secs[sec]| - 1].next == p
      && pos == EndPos(asm.secs[sec], sec) && ofs == EndEst(asm.secs[sec])
      && Saved(act, asm.secs, secPos, secOfs, sec)
    }
  }

  lemma CheckKinds(s: Asm, a: Action, next: nat, arg: int)
    requires |s.lg| >= 10
    ensures a.Imm? ==> Check(s, a, next, arg) == if InRange(a.kind, arg) then Ok else RangeI(next - 1)
    ensures !a.Imm? && !IsRef(a) && !IsLabel(a) && !a.Section? ==> Check(s, a, next, arg) == Ok
  {
  }

  lemma MoreLabels(act: seq<byte>, s: Asm, b: map<int, int>, lg: seq<int>, pc: seq<int>, chains: Chains, more: nat)
    requires Coupled(s, b, lg, pc, chains) && AsmOk(act, s)
    ensures Coupled(s.(pc := s.pc + seq(more, _ => Unused)), b, lg, pc + seq(more, _ => 0), chains)
    ensures AsmOk(act, s.(pc := s.pc + seq(more, _ => Unused)))
  {
    hide Threaded, ItemsOk, LabelAt, RefAt, AllHold;
    var s' := s.(pc := s.pc + seq(more, _ => Unused));
    var pc' := pc + seq(more, _ => 0);
    EmptyChain(b);
    forall l | Known(s', l)
      ensures LabelHolds(LabOf(s', l), WordOf(lg, pc', l), b, s.refs, l, ChainOf(chains, l))
      ensures LabOf(s', l).Defined? ==> Known(s, l) && LabOf(s, l) == LabOf(s', l)
    {
      if Known(s, l) {
        assert LabelHolds(LabOf(s, l), WordOf(lg, pc, l), b, s.refs, l, ChainOf(chains, l));
      } else {
        assert l !in chains;
      }
    }
  }

  lemma EstAt(act: seq<byte>, secs: seq<seq<Item>>, secOfs: seq<int>, k: nat, i: nat)
    requires SecsOk(act, secs, secOfs) && k < |secs| && i < |secs[k]|
    ensures EndEst(secs[k][..i]) == secs[k][i].est
    ensures EndEst(secs[k][..i + 1]) == secs[k][i].est + MaxLen(secs[k][i].a, secs[k][i].arg)
  {
    assert ItemsOk(act, secs[k], k);
    if i > 0 { assert Next(act, secs[k][i - 1], secs[k][i]); }
  }

  lemma PosSection(act: seq<byte>, secs: seq<seq<Item>>, secOfs: seq<int>, k: nat, i: nat)
    requires SecsOk(act, secs, secOfs) && k < |secs| && i < |secs[k]|
    ensures 0 <= secs[k][i].at && SecOf(secs[k][i].at) == k
  {
    assert ItemsOk(act, secs[k], k);
    InSection(act, secs[k], k, i);
    SecOfIs(k, secs[k][i].at);
  }

  /** The words that pass 2 gives an item are the ones that were specified. */
  lemma LinkWords(all: seq<Item>, x: nat, b0: map<int, int>, was: map<int, int>, secOfs: seq<int>, fin: seq<int>,
                  b: map<int, int>, o: int, o': int)
    requires x < |all| && Spread(all, secOfs) && Resolved(all, b0) && LinkedUpTo(all, x, b0, was, secOfs, fin)
      && o == fin[x]
    requires var it := all[x];
      && b == (if IsRel(it.a) then (RelOk(all, x, b0, secOfs); was[it.at + 1 := ShrinkOf(it, o, b0, was, secOfs)])
               else if IsLabel(it.a) then was[it.at := o] else was)
    requires Advances(all[x], b, o, o')
    ensures LinkedWords(all, x, b0, b, secOfs, fin[x])
    ensures b.Keys == was.Keys
      && forall w | w in was && !(all[x].at <= w < all[x].at + Words(all[x].a)) :: b[w] == was[w]
  {
    assert SameWords(all[x], b0, was);
    if IsRel(all[x].a) { RelOk(all, x, b0, secOfs); }
  }

  lemma LinkItem(all: seq<Item>, x: nat, b0: map<int, int>, was: map<int, int>, secOfs: seq<int>, fin: seq<int>,
                 b: map<int, int>, o: int, o': int)
    requires x < |all| && Spread(all, secOfs) && Resolved(all, b0) && LinkedUpTo(all, x, b0, was, secOfs, fin)
      && o == fin[x]
    requires var it := all[x];
      && b == (if IsRel(it.a) then (RelOk(all, x, b0, secOfs); was[it.at + 1 := ShrinkOf(it, o, b0, was, secOfs)])
               else if IsLabel(it.a) then was[it.at := o] else was)
    requires Advances(all[x], b, o, o')
    ensures LinkedUpTo(all, x + 1, b0, b, secOfs, fin + [o'])
  {
    hide Spread, Resolved, LinkedUpTo, LinkedWords, Advances, ShrinkOf;
    LinkWords(all, x, b0, was, secOfs, fin, b, o, o');
    LinkOne(all, x, b0, was, secOfs, fin, b, o');
  }

  function PosAt(items: seq<Item>, i: nat, k: nat): int
    requires i <= |items|
  {
    if i == |items| then EndPos(items, k) else items[i].at
  }

  /** The list and the positions lead from an item to the next one, or to the end of the section. */
  lemma Walk(act: seq<byte>, secs: seq<seq<Item>>, secPos: seq<int>, secOfs: seq<int>, k: nat, i: nat)
    requires |secPos| == |secOfs| == |secs| && SecsOk(act, secs, secOfs) && Saved(act, secs, secPos, secOfs, -1)
      && k < |secs| && i <= |secs[k]|
    ensures var items := secs[k];
      && (items != [] ==> items[0].a.Begin? && items[0].at == k * SEC_SPAN) && secPos[k] == EndPos(items, k)
      && (i < |items| ==>
        PosAt(items, i + 1, k) == items[i].at + Words(items[i].a)
        && (items[i].a.Begin? ==> items[i].arg == items[i].next && items[i].at < EndPos(items, k)))
      && (i < |items| && Ends(Fetch(act, items[i].next).a) && i + 1 < |items| ==> items[i + 1].a.Begin?)
      && (i < |items| && !Ends(Fetch(act, items[i].next).a) ==>
            i + 1 < |items| && Fetch(act, items[i].next) == Fetched(items[i + 1].a, items[i + 1].next))
      && (i < |items| && !Ends(Fetch(act, items[i].next).a) ==> !Fetch(act, items[i].next).a.Unsupported?)
      && (items == [] ==> EndPos(items, k) == k * SEC_SPAN)
  {
    var items := secs[k];
    assert ItemsOk(act, items, k);
    if i < |items| {
      if i > 0 { assert Next(act, items[i - 1], items[i]); }
      InSection(act, items, k, i);
      if i + 1 < |items| { assert Next(act, items[i], items[i + 1]); }
    }
  }

  lemma SectionsOk(act: seq<byte>, s: Asm, secPos: seq<int>, secOfs: seq<int>)
    requires AsmOk(act, s) && |secPos| == |secOfs| == |s.secs| && Saved(act, s.secs, secPos, secOfs, -1)
    ensures SecsOk(act, s.secs, secOfs)
  {
  }

  lemma StartLink(all: seq<Item>, b: map<int, int>, secOfs: seq<int>)
    requires Spread(all, secOfs) && Resolved(all, b)
    ensures LinkedUpTo(all, 0, b, b, secOfs, [0])
  {
  }

  lemma SectionSize(act: seq<byte>, secs: seq<seq<Item>>, secOfs: seq<int>, k: nat)
    requires SecsOk(act, secs, secOfs) && k < |secs|
    ensures secOfs[k] == EndEst(secs[k])
    ensures |Flat(secs, k + 1)| == |Flat(secs, k)| + |secs[k]|
  {
  }

  lemma BranchFacts(all: seq<Item>, x: nat, b0: map<int, int>, b: map<int, int>, secOfs: seq<int>, fin: seq<int>,
                    base: int, out: seq<byte>)
    requires Laid(all, b0, b, secOfs, fin) && x < |all| && IsRel(all[x].a) && HasWords(all, b) && OpcodesInPlace(all)
    requires |fin| == |all| + 1 && |out| == fin[|all|] && EncodedUpTo(all, x, b, fin, base, out)
    ensures PatchesOpcode(all, x)
    ensures var it := all[x]; var s := b[it.at + 1];
      && it.at in b && it.at + 1 in b && b[it.at] in b
      && (s == 0 || s == 3 || s == 4) && fin[x + 1] == fin[x] + 4 - s && 0 <= fin[x] && fin[x + 1] <= |out|
      && (s == 3 ==> fin[x] >= 1) && (s == 4 ==> fin[x] >= 2 && it.a.op >= 0x10 && out[fin[x] - 1] == it.a.op)
  {
    hide LE, EncodedUpTo, Reach;
    ItemFacts(all, b0, b, secOfs, fin, x);
    FinGrows(all, b0, b, secOfs, fin, 0, x);
    FinGrows(all, b0, b, secOfs, fin, x + 1, |all|);
    assert PatchesOpcode(all, x);
    BranchOpcode(all, x, b0, b, secOfs, fin, base, out);
  }

  /** The opcode byte of a short conditional branch is the one just written in front of it. */
  lemma BranchOpcode(all: seq<Item>, x: nat, b0: map<int, int>, b: map<int, int>, secOfs: seq<int>, fin: seq<int>,
                     base: int, out: seq<byte>)
    requires Laid(all, b0, b, secOfs, fin) && x < |all| && IsRel(all[x].a) && HasWords(all, b) && PatchesOpcode(all, x)
    requires OpcodesInPlace(all) && |fin| == |all| + 1 && EncodedUpTo(all, x, b, fin, base, out)
    ensures all[x].at + 1 in b && var s := b[all[x].at + 1];
      && (s == 0 || s == 3 || s == 4) && (s == 3 ==> fin[x] >= 1)
      && (s == 4 ==> 2 <= fin[x] <= |out| && all[x].a.op >= 0x10 && out[fin[x] - 1] == all[x].a.op)
  {
    hide LE, Laid, OpcodesInPlace;
    assert all[x].at + 1 in b;
    ReachIsLit(all, x, b0, b, secOfs, fin);
    if b[all[x].at + 1] >= 3 {
      FinGrows(all, b0, b, secOfs, fin, 0, x - 1);
      OneByte(all, b0, b, secOfs, fin, x - 1);
      OpcodeOf(all, x - 1);
      assert ItemBytes(all, x - 1, x, b, fin, base, out);
    }
    if b[all[x].at + 1] == 4 {
      FinGrows(all, b0, b, secOfs, fin, 0, x - 2);
      OneByte(all, b0, b, secOfs, fin, x - 2);
    }
  }

  lemma OpcodeOf(all: seq<Item>, x: nat)
    requires OpcodesInPlace(all) && x < |all|
    ensures PatchesOpcode(all, x)
  {
  }

  lemma OneByte(all: seq<Item>, b0: map<int, int>, b: map<int, int>, secOfs: seq<int>, fin: seq<int>, x: nat)
    requires Laid(all, b0, b, secOfs, fin) && x < |all| && all[x].a.Lit?
    ensures |fin| == |all| + 1 && fin[x + 1] == fin[x] + 1
  {
    ItemFacts(all, b0, b, secOfs, fin, x);
  }

  function ReachAt(all: seq<Item>, x: nat, b: map<int, int>): nat
    requires x < |all| && HasWords(all, b)
  {
    Reach(all[x], b)
  }

  /** Labels and the starts of calls produce no code. */
  lemma Silent(all: seq<Item>, x: nat, b0: map<int, int>, b: map<int, int>, secOfs: seq<int>, fin: seq<int>,
               base: int, out: seq<byte>)
    requires Laid(all, b0, b, secOfs, fin) && x < |all| && HasWords(all, b) && OpcodesInPlace(all)
    requires |fin| == |all| + 1 && |out| == fin[|all|] && !IsRef(all[x].a) && !all[x].a.RelA? && !all[x].a.Imm?
    requires !all[x].a.Lit? && !all[x].a.Space? && !all[x].a.Align?
    ensures PatchesOpcode(all, x) && fin[x + 1] == fin[x] && ItemBytes(all, x, x + 1, b, fin, base, out)
      && ReachAt(all, x, b) == 0
  {
    PlainFacts(all, x, b0, b, secOfs, fin);
    assert PatchesOpcode(all, x) && ItemOk(all[x]);
  }

  lemma Starts(all: seq<Item>, x: nat, b0: map<int, int>, b: map<int, int>, secOfs: seq<int>, fin: seq<int>)
    requires Laid(all, b0, b, secOfs, fin) && x < |all|
    ensures all[x].a.Begin? ==> all[x].at in b && b[all[x].at] == all[x].arg
  {
    ItemFacts(all, b0, b, secOfs, fin, x);
  }

  predicate SameUpTo(s: seq<byte>, t: seq<byte>, n: int)
  {
    |s| == |t| && 0 <= n <= |s| && s[..n] == t[..n]
  }

  lemma ImmFacts(all: seq<Item>, x: nat, b0: map<int, int>, b: map<int, int>, secOfs: seq<int>, fin: seq<int>,
                 base: int, out: seq<byte>)
    requires Laid(all, b0, b, secOfs, fin) && x < |all| && all[x].a.Imm? && HasWords(all, b) && OpcodesInPlace(all)
    requires |fin| == |all| + 1 && |out| == fin[|all|] && EncodedUpTo(all, x, b, fin, base, out)
    ensures PatchesOpcode(all, x)
    ensures var it := all[x];
      && it.at in b && b[it.at] == it.arg && fin[x + 1] == fin[x] + ImmLen(it.a.kind, it.arg) && 0 <= fin[x]
      && fin[x + 1] <= |out|
      && (Widened(it.a, it.arg) ==> fin[x] >= 2 && x >= 2 && all[x - 2].a.Lit? && out[fin[x] - 2] == all[x - 2].a.c)
  {
    hide LE;
    PlainFacts(all, x, b0, b, secOfs, fin);
    assert PatchesOpcode(all, x);
    ReachIsLit(all, x, b0, b, secOfs, fin);
    if x >= 2 {
      FinGrows(all, b0, b, secOfs, fin, 0, x - 2);
      assert ItemBytes(all, x - 2, x, b, fin, base, out);
    }
  }

  lemma PlainFacts(all: seq<Item>, x: nat, b0: map<int, int>, b: map<int, int>, secOfs: seq<int>, fin: seq<int>)
    requires Laid(all, b0, b, secOfs, fin) && x < |all| && !IsRel(all[x].a)
    ensures |fin| == |all| + 1 && 0 <= fin[x] <= fin[x + 1] <= fin[|all|]
    ensures var it := all[x];
      && (it.a.Imm? || it.a.RelA? || it.a.Space? ==> it.at in b && b[it.at] == it.arg) && MaxLen(it.a, it.arg) >= 0
      && (if it.a.Align? then fin[x + 1] % (it.a.mask + 1) == 0 && fin[x + 1] <= fin[x] + it.a.mask && IsMask(it.a.mask)
          else fin[x + 1] == fin[x] + MaxLen(it.a, it.arg))
  {
    FinGrows(all, b0, b, secOfs, fin, 0, x);
    FinGrows(all, b0, b, secOfs, fin, x, x + 1);
    FinGrows(all, b0, b, secOfs, fin, x + 1, |all|);
    ItemFacts(all, b0, b, secOfs, fin, x);
    assert ItemOk(all[x]);
  }

  /** Two boundaries that are less than the alignment apart are the same. */
  lemma SameBoundary(p: nat, q: nat, mask: nat)
    requires p <= q <= p + mask && p % (mask + 1) == 0 && q % (mask + 1) == 0
    ensures p == q
  {
    var d := mask + 1;
    assert p == d * (p / d) && q == d * (q / d);
    assert q - p == d * (q / d - p / d);
    Multiple(d, q / d - p / d);
  }

  /** How many items come before item `i` of section `k`. */
  function LinkPoint(secs: seq<seq<Item>>, k: nat, i: nat): nat
    requires k < |secs|
  {
    |Flat(secs, k)| + i
  }

  /** The label array after resetting local labels 1 to `n - 1`. */
  function Forget(lg: seq<Lab>, n: nat): (r: seq<Lab>)
    requires 1 <= n <= 10 <= |lg|
    ensures |r| == |lg|
  {
    seq(|lg|, i requires 0 <= i < |lg| => if 1 <= i < n then Unused else lg[i])
  }

  lemma Forgotten(act: seq<byte>, s: Asm, b: map<int, int>, lg: seq<int>, pc: seq<int>, chains: Chains, i: nat)
    requires Coupled(s, b, lg, pc, chains) && AsmOk(act, s) && i < |s.lg| && !s.lg[i].Wanted?
    ensures var s' := s.(lg := s.lg[i := Unused]); Coupled(s', b, lg[i := 0], pc, chains) && AsmOk(act, s')
  {
    hide Threaded, ItemsOk, AllHold, LabelAt, RefAt;
    var s' := s.(lg := s.lg[i := Unused]);
    forall l | Known(s', l)
      ensures LabelHolds(LabOf(s', l), WordOf(lg[i := 0], pc, l), b, s.refs, l, ChainOf(chains, l))
      ensures LabOf(s', l).Defined? ==> Known(s, l) && LabOf(s, l) == LabOf(s', l)
    {
      assert Known(s, l);
      assert LabelHolds(LabOf(s, l), WordOf(lg, pc, l), b, s.refs, l, ChainOf(chains, l));
    }
  }

  /** Where each section ends, with `except` possibly under way. */
  ghost predicate Saved(act: seq<byte>, secs: seq<seq<Item>>, secPos: seq<int>, secOfs: seq<int>, except: int)
    requires |secPos| == |secOfs| == |secs|
  {
    forall k | 0 <= k < |secs| && k != except ::
      secPos[k] == EndPos(secs[k], k) && secOfs[k] == EndEst(secs[k]) && Complete(act, secs[k])
  }

  lemma CallEnds(act: seq<byte>, s: Asm, b: map<int, int>, lg: seq<int>, pc: seq<int>, chains: Chains, cur: nat)
    requires AsmOk(act, s) && Coupled(s, b, lg, pc, chains) && cur < |s.secs|
    requires var items := s.secs[s.cur]; items != [] && Ends(Fetch(act, items[|items| - 1].next).a)
    ensures AsmOk(act, s.(cur := cur)) && Coupled(s.(cur := cur), b, lg, pc, chains) && Complete(act, s.secs[s.cur])
  {
    hide LabelHolds, AllHold, ItemsOk;
    var s' := s.(cur := cur);
    forall l | Known(s', l) ensures LabOf(s', l) == LabOf(s, l) && Known(s, l) {
    }
    assert AllLabels(s', b, lg, pc, chains);
  }

  lemma CoupledSizes(s: Asm, b: map<int, int>, lg: seq<int>, pc: seq<int>, chains: Chains)
    requires Coupled(s, b, lg, pc, chains)
    ensures |lg| == |s.lg| && |pc| == |s.pc|
  {
  }

  /** The sign of a label word tells whether the label is defined, referenced or neither. */
  lemma WordTells(s: Asm, b: map<int, int>, lg: seq<int>, pc: seq<int>, chains: Chains, l: Label)
    requires Coupled(s, b, lg, pc, chains) && Known(s, l)
    ensures var n, c := WordOf(lg, pc, l), ChainOf(chains, l);
      && Threaded(b, c) && (n > 0 <==> c != []) && (n > 0 ==> c[0] == n)
      && match LabOf(s, l)
         case Defined(q) => n == -q && q > 0
         case Unused => n == 0
         case Wanted => n > 0
  {
    assert LabelHolds(LabOf(s, l), WordOf(lg, pc, l), b, s.refs, l, ChainOf(chains, l));
    var c := ChainOf(chains, l);
    if c != [] { assert c[0] in c; }
  }

  lemma ChainStep(b: map<int, int>, c: seq<int>, i: nat)
    requires Threaded(b, c) && i < |c|
    ensures c[i] in b && c[i] !in c[..i] && b[c[i]] == if i == |c| - 1 then 0 else c[i + 1]
    ensures i < |c| - 1 ==> c[i + 1] > 0
    ensures c[..i + 1] == c[..i] + [c[i]]
  {
  }
}
