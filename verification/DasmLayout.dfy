/** Linking: the final offset of everything, and why short branches reach. */
module DasmLayout {
  import opened Numbers
  import opened DasmActions
  import opened DasmSpec
  import opened DasmChains
  import opened DasmItems

  /** The items of the first `n` sections, one section after the other. */
  function Flat(secs: seq<seq<Item>>, n: nat): seq<Item>
    requires n <= |secs|
  {
    if n == 0 then [] else Flat(secs, n - 1) + secs[n - 1]
  }

  /** The estimated size of sections `lo` to `hi`, without the latter. */
  function SecSum(secOfs: seq<int>, lo: nat, hi: nat): int
    requires lo <= hi <= |secOfs|
  {
    if lo == hi then 0 else SecSum(secOfs, lo, hi - 1) + secOfs[hi - 1]
  }

  function SecOf(pos: nat): nat { pos / SEC_SPAN }

  /** Items ascend by position, and each has its words to itself. */
  ghost predicate Ordered(all: seq<Item>)
  {
    forall x, y | 0 <= x < y < |all| :: all[x].at + Words(all[x].a) <= all[y].at
  }

  /** The estimated offset from the start of the first section. */
  function MaxOfs(it: Item, secOfs: seq<int>): int
    requires 0 <= it.at && SecOf(it.at) <= |secOfs|
  {
    SecSum(secOfs, 0, SecOf(it.at)) + it.est
  }

  ghost predicate Spread(all: seq<Item>, secOfs: seq<int>)
  {
    && Ordered(all)
    && (forall x | 0 <= x < |all| :: 0 <= all[x].at && SecOf(all[x].at) < |secOfs| && ItemOk(all[x]))
    && (forall x, y | 0 <= x && y == x + 1 < |all| ::
      MaxOfs(all[y], secOfs) == MaxOfs(all[x], secOfs) + MaxLen(all[x].a, all[x].arg))
  }

  /** Everything every reference stands for is a label position; the words are those of pass 1. */
  ghost predicate Resolved(all: seq<Item>, b: map<int, int>)
  {
    && (forall x | 0 <= x < |all| && Words(all[x].a) > 0 :: all[x].at in b && (IsRel(all[x].a) ==> all[x].at + 1 in b))
    && (forall x | 0 <= x < |all| && IsRef(all[x].a) :: exists y: nat :: LabelIndex(all, y, b[all[x].at]))
    && (forall x | 0 <= x < |all| && (all[x].a.Begin? || all[x].a.Imm? || all[x].a.RelA? || all[x].a.Space?) ::
      b[all[x].at] == all[x].arg)
    && (forall x | 0 <= x < |all| && IsLabel(all[x].a) :: b[all[x].at] == all[x].est)
    && (forall x | 0 <= x < |all| && IsRel(all[x].a) :: b[all[x].at + 1] == all[x].est + 4)
    && (forall x | 0 <= x < |all| && all[x].a.Align? :: b[all[x].at] == all[x].est + all[x].a.mask)
  }

  predicate LabelIndex(all: seq<Item>, y: nat, pos: int)
  {
    y < |all| && all[y].at == pos && IsLabel(all[y].a)
  }

  // ----- what linking computes

  /** The distance on which the decision is based: estimates for a label further on, final offsets for one
      behind; `o` is the final offset of the branch and `lpos` the position of the label. */
  function Distance(it: Item, lpos: int, o: int, b0: map<int, int>, b: map<int, int>, secOfs: seq<int>): int
    requires lpos in b0 && lpos in b && 0 <= it.at && 0 <= lpos && SecOf(lpos) < |secOfs|
  {
    if lpos > it.at then
      assert SecOf(it.at) <= SecOf(lpos);
      b0[lpos] + SecSum(secOfs, SecOf(it.at), SecOf(lpos)) - (it.est + 4)
    else b[lpos] - (o + 4)
  }

  /** By how much the branch is shortened. */
  function ShrinkOf(it: Item, o: int, b0: map<int, int>, b: map<int, int>, secOfs: seq<int>): (s: int)
    requires IsRel(it.a) && it.at in b0 && b0[it.at] in b0 && b0[it.at] in b && 0 <= it.at && 0 <= b0[it.at]
    requires SecOf(b0[it.at]) < |secOfs|
    ensures 0 <= s <= 4
  {
    var s := Shrinkable(it.a.op);
    if s > 0 && -128 - s <= Distance(it, b0[it.at], o, b0, b, secOfs) <= 127 then s else 0
  }

  /** From final offset `o` to final offset `o'`. */
  predicate Advances(it: Item, b: map<int, int>, o: int, o': int)
  {
    if IsRel(it.a) then it.at + 1 in b && o' == o + 4 - b[it.at + 1]
    else if it.a.Align? then o <= o' <= o + it.a.mask && o' % (it.a.mask + 1) == 0
    else o' == o + MaxLen(it.a, it.arg)
  }

  /** The words of a linked item: labels have their final offset, branches how much they shrink. */
  ghost predicate LinkedWords(all: seq<Item>, x: nat, b0: map<int, int>, b: map<int, int>, secOfs: seq<int>, o: int)
    requires x < |all| && Spread(all, secOfs) && Resolved(all, b0)
  {
    var it := all[x];
    && (Words(it.a) > 0 ==> it.at in b && b[it.at] == if IsLabel(it.a) then o else b0[it.at])
    && (IsRel(it.a) ==>
      (RelOk(all, x, b0, secOfs); b0[it.at] in b && it.at + 1 in b && b[it.at + 1] == ShrinkOf(it, o, b0, b, secOfs)))
  }

  lemma RelOk(all: seq<Item>, x: nat, b0: map<int, int>, secOfs: seq<int>)
    requires x < |all| && IsRef(all[x].a) && Spread(all, secOfs) && Resolved(all, b0)
    ensures all[x].at in b0 && b0[all[x].at] in b0 && 0 <= b0[all[x].at] && SecOf(b0[all[x].at]) < |secOfs|
    ensures b0[all[x].at] != all[x].at
  {
    hide Ordered, MaxOfs, SecOf, ItemOk;
    var y: nat :| LabelIndex(all, y, b0[all[x].at]);
    ApartAt(all, x, y);
  }

  lemma ApartAt(all: seq<Item>, x: nat, y: nat)
    requires Ordered(all) && x < |all| && y < |all| && IsRef(all[x].a) && IsLabel(all[y].a)
    ensures all[x].at != all[y].at
  {
    if x < y { assert all[x].at + Words(all[x].a) <= all[y].at; }
    if y < x { assert all[y].at + Words(all[y].a) <= all[x].at; }
  }

  predicate SameWords(it: Item, b0: map<int, int>, b: map<int, int>)
    requires Words(it.a) > 0 ==> it.at in b0 && (IsRel(it.a) ==> it.at + 1 in b0)
  {
    && (Words(it.a) > 0 ==> it.at in b && b[it.at] == b0[it.at])
    && (IsRel(it.a) ==> it.at + 1 in b && b[it.at + 1] == b0[it.at + 1])
  }

  /** The first `n` items are linked. */
  ghost predicate LinkedUpTo(all: seq<Item>, n: nat, b0: map<int, int>, b: map<int, int>, secOfs: seq<int>,
                             fin: seq<int>)
    requires n <= |all| && Spread(all, secOfs) && Resolved(all, b0)
  {
    && |fin| == n + 1 && fin[0] == 0 && b.Keys == b0.Keys
    && (forall x | 0 <= x < n :: LinkedWords(all, x, b0, b, secOfs, fin[x]))
    && (forall x, y | 0 <= x < n && y == x + 1 :: Advances(all[x], b, fin[x], fin[y]))
    && (forall x | n <= x < |all| :: SameWords(all[x], b0, b))
  }

  // ----- one item after the other

  /** Linking one more item: it may change its own words and nothing else. */
  lemma LinkOne(all: seq<Item>, x: nat, b0: map<int, int>, b: map<int, int>, secOfs: seq<int>, fin: seq<int>,
                b': map<int, int>, o: int)
    requires x < |all| && Spread(all, secOfs) && Resolved(all, b0) && LinkedUpTo(all, x, b0, b, secOfs, fin)
    requires b'.Keys == b.Keys && forall w | w in b && !(all[x].at <= w < all[x].at + Words(all[x].a)) :: b'[w] == b[w]
    requires LinkedWords(all, x, b0, b', secOfs, fin[x]) && Advances(all[x], b', fin[x], o)
    ensures LinkedUpTo(all, x + 1, b0, b', secOfs, fin + [o])
  {
    hide Spread, Resolved, LinkedWords, Advances;
    var fin' := fin + [o];
    assert Ordered(all) by { Parts(all, secOfs); }
    forall y | 0 <= y < x + 1 ensures LinkedWords(all, y, b0, b', secOfs, fin'[y]) {
      if y < x { WordsStay(all, x, y, b0, b, secOfs, fin[y], b'); }
    }
    forall y, z | 0 <= y < x + 1 && z == y + 1 ensures Advances(all[y], b', fin'[y], fin'[z]) {
      if y < x { AdvancesStay(all, x, y, b, fin[y], fin[z], b'); }
    }
    forall y | x + 1 <= y < |all| ensures ResolvedIn(all, y, b0) && SameWords(all[y], b0, b') {
      InB(all, y, b0);
      assert SameWords(all[y], b0, b);
    }
  }

  predicate ResolvedIn(all: seq<Item>, y: nat, b0: map<int, int>)
    requires y < |all|
  {
    Words(all[y].a) > 0 ==> all[y].at in b0 && (IsRel(all[y].a) ==> all[y].at + 1 in b0)
  }

  lemma InB(all: seq<Item>, y: nat, b0: map<int, int>)
    requires y < |all| && Resolved(all, b0)
    ensures ResolvedIn(all, y, b0)
  {
  }

  lemma Parts(all: seq<Item>, secOfs: seq<int>)
    requires Spread(all, secOfs)
    ensures Ordered(all)
  {
  }

  lemma WordsStay(all: seq<Item>, x: nat, y: nat, b0: map<int, int>, b: map<int, int>, secOfs: seq<int>, o: int,
                  b': map<int, int>)
    requires y < x < |all| && Spread(all, secOfs) && Resolved(all, b0) && LinkedWords(all, y, b0, b, secOfs, o)
    requires b'.Keys == b.Keys && forall w | w in b && !(all[x].at <= w < all[x].at + Words(all[x].a)) :: b'[w] == b[w]
    ensures LinkedWords(all, y, b0, b', secOfs, o)
  {
    assert all[y].at + Words(all[y].a) <= all[x].at;
  }

  lemma AdvancesStay(all: seq<Item>, x: nat, y: nat, b: map<int, int>, o: int, o': int, b': map<int, int>)
    requires y < x < |all| && Ordered(all) && Advances(all[y], b, o, o')
    requires b'.Keys == b.Keys && forall w | w in b && !(all[x].at <= w < all[x].at + Words(all[x].a)) :: b'[w] == b[w]
    ensures Advances(all[y], b', o, o')
  {
    assert all[y].at + Words(all[y].a) <= all[x].at;
  }

  lemma OrderOf(all: seq<Item>, y: nat, x: nat)
    requires Ordered(all) && y < |all| && x < |all|
    ensures y < x ==> all[y].at + Words(all[y].a) <= all[x].at
  {
  }

  /** What the decision about a branch needs. */
  lemma BranchReady(all: seq<Item>, x: nat, b0: map<int, int>, b: map<int, int>, secOfs: seq<int>, fin: seq<int>)
    requires x < |all| && Spread(all, secOfs) && Resolved(all, b0) && LinkedUpTo(all, x, b0, b, secOfs, fin)
      && IsRel(all[x].a)
    ensures var pos := all[x].at;
      && 0 <= pos && pos in b0 && pos in b && pos + 1 in b && b[pos] == b0[pos] && b[pos + 1] == all[x].est + 4
      && b0[pos] in b0 && b0[pos] in b && 0 <= b0[pos] && SecOf(b0[pos]) < |secOfs|
      && (b0[pos] > pos ==> b[b0[pos]] == b0[b0[pos]])
  {
    RelOk(all, x, b0, secOfs);
    var y: nat :| LabelIndex(all, y, b0[all[x].at]);
    assert SameWords(all[x], b0, b);
    if b0[all[x].at] > all[x].at {
      OrderOf(all, y, x);
      assert SameWords(all[y], b0, b);
    }
  }

  /** Rounding the largest possible end of a padding down gives its end. */
  lemma AlignedEnd(o: nat, mask: nat)
    requires IsMask(mask)
    ensures var e := o + mask; var o' := e - BitAnd(e, mask); o <= o' <= o + mask && o' % (mask + 1) == 0
  {
    AndIsMod(o + mask, mask);
    FloorTo(o + mask, mask + 1);
  }

  lemma FloorTo(e: nat, d: nat)
    requires d > 0
    ensures e - d < e - e % d <= e && (e - e % d) % d == 0
  {
    assert e == d * (e / d) + e % d;
    DivUnique(e - e % d, d, e / d, 0);
  }

  /** What an item's words say before it is linked. */
  lemma BeforeLink(all: seq<Item>, x: nat, b0: map<int, int>, b: map<int, int>, secOfs: seq<int>, fin: seq<int>)
    requires x < |all| && Spread(all, secOfs) && Resolved(all, b0) && LinkedUpTo(all, x, b0, b, secOfs, fin)
    ensures var it := all[x];
      && (Words(it.a) > 0 ==> it.at in b && it.at in b0 && b[it.at] == b0[it.at])
      && (IsLabel(it.a) ==> b[it.at] == it.est) && (it.a.Align? ==> b[it.at] == it.est + it.a.mask && IsMask(it.a.mask))
      && (it.a.Begin? ==> b[it.at] == it.arg) && MaxLen(it.a, it.arg) >= 0
  {
    assert SameWords(all[x], b0, b) && ItemOk(all[x]);
  }

  // ----- the soundness of shrinking

  /** The outcome of linking: everything is linked. */
  ghost predicate Laid(all: seq<Item>, b0: map<int, int>, b: map<int, int>, secOfs: seq<int>, fin: seq<int>)
  {
    Spread(all, secOfs) && Resolved(all, b0) && LinkedUpTo(all, |all|, b0, b, secOfs, fin)
  }

  lemma ItemShrinks(all: seq<Item>, b0: map<int, int>, b: map<int, int>, secOfs: seq<int>, fin: seq<int>, x: nat)
    requires Laid(all, b0, b, secOfs, fin) && x < |all|
    ensures 0 <= fin[x + 1] - fin[x] <= MaxLen(all[x].a, all[x].arg)
  {
    assert LinkedWords(all, x, b0, b, secOfs, fin[x]) && Advances(all[x], b, fin[x], fin[x + 1]) && ItemOk(all[x]);
    if IsRel(all[x].a) { RelOk(all, x, b0, secOfs); }
  }

  /** Between any two items, the final distance is at most the estimated one. */
  lemma {:induction false} DistanceShrinks(all: seq<Item>, b0: map<int, int>, b: map<int, int>, secOfs: seq<int>,
                                           fin: seq<int>, x: nat, y: nat)
    requires Laid(all, b0, b, secOfs, fin) && x <= y < |all|
    ensures 0 <= all[x].at && 0 <= all[y].at && SecOf(all[x].at) < |secOfs| && SecOf(all[y].at) < |secOfs|
    ensures 0 <= fin[y] - fin[x] <= MaxOfs(all[y], secOfs) - MaxOfs(all[x], secOfs)
    decreases y
  {
    hide LinkedUpTo, Resolved, Ordered;
    FinSize(all, b0, b, secOfs, fin);
    if x < y {
      DistanceShrinks(all, b0, b, secOfs, fin, x, y - 1);
      ItemShrinks(all, b0, b, secOfs, fin, y - 1);
    }
  }

  lemma FinSize(all: seq<Item>, b0: map<int, int>, b: map<int, int>, secOfs: seq<int>, fin: seq<int>)
    requires Laid(all, b0, b, secOfs, fin)
    ensures |fin| == |all| + 1 && fin[0] == 0
  {
  }

  lemma {:induction false} SecSumSplit(secOfs: seq<int>, i: nat, j: nat)
    requires i <= j <= |secOfs|
    ensures SecSum(secOfs, 0, j) == SecSum(secOfs, 0, i) + SecSum(secOfs, i, j)
    decreases j
  {
    if i < j { SecSumSplit(secOfs, i, j - 1); }
  }

  /** Every branch that was shortened reaches its label with a signed byte, counted from its end. This
      holds although the decision rests on distances that later shrinking and alignment still change. */
  lemma ShortBranchReaches(all: seq<Item>, b0: map<int, int>, b: map<int, int>, secOfs: seq<int>, fin: seq<int>,
                           x: nat, y: nat)
    requires Laid(all, b0, b, secOfs, fin) && x < |all| && IsRel(all[x].a)
    requires all[x].at in b0 && LabelIndex(all, y, b0[all[x].at]) && all[x].at + 1 in b && b[all[x].at + 1] != 0
    ensures |fin| == |all| + 1 && FitsByte(fin[y] - fin[x + 1])
  {
    hide LinkedUpTo;
    var it := all[x];
    FinSize(all, b0, b, secOfs, fin);
    RelOk(all, x, b0, secOfs);
    ItemFacts(all, b0, b, secOfs, fin, x);
    ItemFacts(all, b0, b, secOfs, fin, y);
    if y > x {
      assert it.at + 2 <= all[y].at;
      DistanceShrinks(all, b0, b, secOfs, fin, x + 1, y);
      ItemShrinks(all, b0, b, secOfs, fin, x);
      SecSumSplit(secOfs, SecOf(it.at), SecOf(all[y].at));
    } else {
      assert y < x && all[y].at + 1 <= it.at;
      DistanceShrinks(all, b0, b, secOfs, fin, y, x);
      ItemShrinks(all, b0, b, secOfs, fin, x);
    }
  }

  lemma ItemFacts(all: seq<Item>, b0: map<int, int>, b: map<int, int>, secOfs: seq<int>, fin: seq<int>, x: nat)
    requires Laid(all, b0, b, secOfs, fin) && x < |all|
    ensures LinkedWords(all, x, b0, b, secOfs, fin[x]) && Advances(all[x], b, fin[x], fin[x + 1])
  {
  }

  // ----- the items of all sections, in a row

  /** Items of section `k`, none of them beyond its last position. */
  ghost predicate SecItems(act: seq<byte>, items: seq<Item>, k: nat)
  {
    ItemsOk(act, items, k) && EndPos(items, k) <= k * SEC_SPAN + SEC_MAX
  }

  ghost predicate SecsOk(act: seq<byte>, secs: seq<seq<Item>>, secOfs: seq<int>)
  {
    && |secOfs| == |secs|
    && forall k | 0 <= k < |secs| :: SecItems(act, secs[k], k) && secOfs[k] == EndEst(secs[k])
  }

  lemma SecOfIs(k: nat, pos: int)
    requires k * SEC_SPAN <= pos <= k * SEC_SPAN + SEC_MAX
    ensures SecOf(pos) == k
  {
  }

  ghost predicate FlatOk(all: seq<Item>, n: nat, secOfs: seq<int>)
  {
    && n <= |secOfs| && Spread(all, secOfs)
    && (forall x | 0 <= x < |all| :: all[x].at + Words(all[x].a) <= n * SEC_SPAN)
    && EndOfs(all, secOfs) == SecSum(secOfs, 0, n)
  }

  /** The estimated offset behind the last item. */
  function EndOfs(all: seq<Item>, secOfs: seq<int>): int
    requires all != [] ==> 0 <= all[|all| - 1].at && SecOf(all[|all| - 1].at) <= |secOfs|
  {
    if all == [] then 0 else var it := all[|all| - 1]; MaxOfs(it, secOfs) + MaxLen(it.a, it.arg)
  }

  lemma {:induction false} FlatSpread(act: seq<byte>, secs: seq<seq<Item>>, secOfs: seq<int>, n: nat)
    requires SecsOk(act, secs, secOfs) && n <= |secs|
    ensures FlatOk(Flat(secs, n), n, secOfs)
  {
    if n > 0 {
      FlatSpread(act, secs, secOfs, n - 1);
      OneMore(act, Flat(secs, n - 1), secs[n - 1], n - 1, secOfs);
    }
  }

  lemma InItsSection(act: seq<byte>, items: seq<Item>, k: nat, i: nat)
    requires SecItems(act, items, k) && i < |items|
    ensures k * SEC_SPAN <= items[i].at && items[i].at + Words(items[i].a) <= k * SEC_SPAN + SEC_MAX
    ensures SecOf(items[i].at) == k && ItemOk(items[i])
  {
    hide Words, EndPos, SecOf, ItemOk;
    InSection(act, items, k, i);
    SecOfIs(k, items[i].at);
  }

  lemma OrderedMore(act: seq<byte>, all: seq<Item>, items: seq<Item>, k: nat, secOfs: seq<int>)
    requires FlatOk(all, k, secOfs) && SecItems(act, items, k)
    ensures Ordered(all + items)
  {
    hide Words, SecOf, MaxOfs, SecSum, ItemOk, EndPos;
    var all' := all + items;
    forall x, y | 0 <= x < y < |all'| ensures all'[x].at + Words(all'[x].a) <= all'[y].at {
      if x >= |all| {
        Ascending(act, items, k, x - |all|, y - |all|);
      } else if y >= |all| {
        InItsSection(act, items, k, y - |all|);
      }
    }
  }

  lemma StepMore(act: seq<byte>, all: seq<Item>, items: seq<Item>, k: nat, secOfs: seq<int>, y: nat)
    requires FlatOk(all, k, secOfs) && k < |secOfs| && SecItems(act, items, k) && 0 < y < |all| + |items|
    ensures var x, z := (all + items)[y - 1], (all + items)[y];
      && 0 <= x.at && SecOf(x.at) < |secOfs| && 0 <= z.at && SecOf(z.at) < |secOfs|
      && MaxOfs(z, secOfs) == MaxOfs(x, secOfs) + MaxLen(x.a, x.arg)
  {
    hide Ordered, Words, SecOf, SecSum, ItemOk, EndPos, MaxLen, Fetch;
    if y >= |all| {
      InItsSection(act, items, k, y - |all|);
      if y > |all| {
        InItsSection(act, items, k, y - 1 - |all|);
        assert Next(act, items[y - 1 - |all|], items[y - |all|]);
      }
    }
  }

  lemma EndMore(act: seq<byte>, all: seq<Item>, items: seq<Item>, k: nat, secOfs: seq<int>)
    requires FlatOk(all, k, secOfs) && k < |secOfs| && SecItems(act, items, k) && secOfs[k] == EndEst(items)
    requires var all' := all + items; all' != [] ==> 0 <= all'[|all'| - 1].at && SecOf(all'[|all'| - 1].at) <= |secOfs|
    ensures EndOfs(all + items, secOfs) == SecSum(secOfs, 0, k + 1)
  {
    hide Spread, Words, SecOf, MaxLen, SecItems;
    if items == [] {
      assert all + items == all;
    } else {
      InItsSection(act, items, k, |items| - 1);
    }
  }

  lemma OneMore(act: seq<byte>, all: seq<Item>, items: seq<Item>, k: nat, secOfs: seq<int>)
    requires FlatOk(all, k, secOfs) && k < |secOfs| && SecItems(act, items, k) && secOfs[k] == EndEst(items)
    ensures FlatOk(all + items, k + 1, secOfs)
  {
    OrderedMore(act, all, items, k, secOfs);
    hide Ordered, Words, SecOf, ItemOk, MaxLen, SecItems, SecSum, EndOfs;
    var all' := all + items;
    forall x | 0 <= x < |all'|
      ensures 0 <= all'[x].at && SecOf(all'[x].at) < |secOfs| && ItemOk(all'[x])
      ensures all'[x].at + Words(all'[x].a) <= (k + 1) * SEC_SPAN
    {
      if x >= |all| { InItsSection(act, items, k, x - |all|); }
    }
    forall x, y | 0 <= x && y == x + 1 < |all'|
      ensures MaxOfs(all'[y], secOfs) == MaxOfs(all'[x], secOfs) + MaxLen(all'[x].a, all'[x].arg)
    {
      StepMore(act, all, items, k, secOfs, y);
    }
    EndMore(act, all, items, k, secOfs);
  }

  lemma {:induction false} FlatAt(secs: seq<seq<Item>>, n: nat, k: nat, i: nat)
    requires k < n <= |secs| && i < |secs[k]|
    ensures |Flat(secs, k)| + i < |Flat(secs, n)| && Flat(secs, n)[|Flat(secs, k)| + i] == secs[k][i]
    decreases n
  {
    if k < n - 1 { FlatAt(secs, n - 1, k, i); }
  }

  /** Where an item of the row comes from. */
  lemma {:induction false} FlatFrom(secs: seq<seq<Item>>, n: nat, x: nat) returns (k: nat, i: nat)
    requires n <= |secs| && x < |Flat(secs, n)|
    ensures k < n && i < |secs[k]| && x == |Flat(secs, k)| + i && Flat(secs, n)[x] == secs[k][i]
    decreases n
  {
    var m := |Flat(secs, n - 1)|;
    if x < m {
      k, i := FlatFrom(secs, n - 1, x);
    } else {
      k, i := n - 1, x - m;
    }
  }

  lemma WaitedIsWanted(s: Asm, b: map<int, int>, lg: seq<int>, pc: seq<int>, chains: Chains, w: int)
    requires Coupled(s, b, lg, pc, chains) && w in s.refs
    ensures s.refs[w].Waiting? ==> Known(s, s.refs[w].l) && LabOf(s, s.refs[w].l).Wanted?
  {
    if s.refs[w].Waiting? {
      var l := s.refs[w].l;
      assert LabelHolds(LabOf(s, l), WordOf(lg, pc, l), b, s.refs, l, ChainOf(chains, l));
      assert w in ChainOf(chains, l);
    }
  }

  lemma FlatHolds(s: Asm, b: map<int, int>, x: nat)
    requires AllHold(s.secs, b, s.refs) && x < |Flat(s.secs, |s.secs|)|
    ensures Holds(Flat(s.secs, |s.secs|)[x], b, s.refs)
  {
    hide Holds;
    var k, i := FlatFrom(s.secs, |s.secs|, x);
    assert Holds(s.secs[k][i], b, s.refs);
  }

  lemma FlatLabel(secs: seq<seq<Item>>, q: int)
    requires LabelAt(secs, q)
    ensures exists y: nat :: LabelIndex(Flat(secs, |secs|), y, q)
  {
    var k, i :| 0 <= k < |secs| && 0 <= i < |secs[k]| && secs[k][i].at == q && IsLabel(secs[k][i].a);
    FlatAt(secs, |secs|, k, i);
    assert LabelIndex(Flat(secs, |secs|), |Flat(secs, k)| + i, q);
  }

  /** Once no label is wanted, every reference has become the position of a label. */
  lemma NoneWaits(act: seq<byte>, s: Asm, b: map<int, int>, lg: seq<int>, pc: seq<int>, chains: Chains)
    requires AsmOk(act, s) && Coupled(s, b, lg, pc, chains) && forall l | Known(s, l) :: !LabOf(s, l).Wanted?
    ensures Resolved(Flat(s.secs, |s.secs|), b)
  {
    hide AllLabels, ItemsOk, LabelAt, RefAt, Flat;
    var all := Flat(s.secs, |s.secs|);
    forall x | 0 <= x < |all| ensures Holds(all[x], b, s.refs) { FlatHolds(s, b, x); }
    forall x | 0 <= x < |all| && IsRef(all[x].a) ensures exists y: nat :: LabelIndex(all, y, b[all[x].at]) {
      assert Holds(all[x], b, s.refs);
      WaitedIsWanted(s, b, lg, pc, chains, all[x].at);
      FlatLabel(s.secs, s.refs[all[x].at].pos);
    }
  }
}
