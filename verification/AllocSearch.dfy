/** Best fit in the tree bins. */
module AllocSearch {
  import opened Numbers
  import opened AllocSizes
  import opened AllocRings
  import opened AllocTrees
  import opened AllocTries
  import opened AllocUnlink
  import opened AllocDescent
  import opened AllocSmall
  import opened AllocIndex

  /** A size no longer matters: it does not fit, or leaves at least remainder `rem`. */
  predicate Beaten(z: int, nb: nat, rem: nat) { z < nb || z - nb >= rem }

  /** The wrapped difference is below a remainder only if the size fits and leaves less. */
  lemma WrappedRemainder(z: nat, nb: nat, rem: nat)
    requires z < WORD && 0 < nb < WORD && rem <= WORD - nb
    ensures Sub(z, nb) < rem <==> z >= nb && z - nb < rem
    ensures z >= nb ==> Sub(z, nb) == z - nb
    ensures Sub(0, nb) == WORD - nb
  {
    if z >= nb { DivUnique(z - nb, WORD, 0, z - nb); } else { DivUnique(z - nb, WORD, -1, z - nb + WORD); }
    DivUnique(0 - nb, WORD, -1, WORD - nb);
  }

  predicate Under(p: Path, r: Path) { |p| <= |r| && r[..|p|] == p }

  /** Sizes above all that can be found below path `p`. */
  predicate Beyond(i: nat, p: Path, z: int) { |p| <= Bits(i) && z >= Lo(i, p) + Pow2(Bits(i) - |p|) }

  ghost predicate AllBeaten(tr: Trie, mem: Mem, nb: nat, rem: nat)
  {
    forall r | r in tr :: Beaten(SizeOf(mem, tr[r]), nb, rem)
  }

  /** The least chunk that matters, if one is left, is below `p`, where all chunks fit. */
  ghost predicate Leads(tr: Trie, i: nat, mem: Mem, p: Path, nb: nat, rem: nat)
  {
    || AllBeaten(tr, mem, nb, rem)
    || (&& (forall r | r in tr && Under(p, r) :: SizeOf(mem, tr[r]) >= nb)
        && (forall r | r in tr ::
          Beaten(SizeOf(mem, tr[r]), nb, rem) || Under(p, r) || Beyond(i, p, SizeOf(mem, tr[r]))))
  }

  lemma UnderChild(tr: Trie, p: Path, r: Path)
    requires Under(p, r) && r != p
    ensures |r| > |p| && Under(p + [r[|p|]], r)
  {
    assert r[..|r|] == r;
    assert r[..|p| + 1] == r[..|p|] + [r[|p|]];
  }

  ghost predicate Rooted(tr: Trie)
  {
    forall q | q in tr && q != [] :: q[..|q| - 1] in tr
  }

  lemma TrieRooted(tr: Trie, i: nat, mem: Mem)
    requires TrieAt(tr, i, mem)
    ensures Rooted(tr)
  {
    hide NodeAt;
  }

  lemma ChildOnTheWay(tr: Trie, p: Path, r: Path)
    requires Under(p, r) && r in tr && r != p && Rooted(tr)
    ensures |r| > |p| && p + [r[|p|]] in tr && (p + [false] in tr || p + [true] in tr)
  {
    UnderChild(tr, p, r);
    PrefixIn(tr, r, |p| + 1);
    assert r[..|p| + 1] == p + [r[|p|]];
    assert r[..|p| + 1] == p + [if r[|p|] then true else false];
  }

  lemma UnderLeaf(tr: Trie, p: Path, r: Path)
    requires Under(p, r) && r in tr && IsLeaf(tr, p) && Rooted(tr)
    ensures r == p
  {
    if r != p { ChildOnTheWay(tr, p, r); }
  }

  lemma {:induction false} PrefixIn(tr: Trie, r: Path, k: nat)
    requires r in tr && k <= |r| && Rooted(tr)
    ensures r[..k] in tr
    decreases |r|
  {
    if k < |r| {
      PrefixIn(tr, r[..|r| - 1], k);
      assert r[..|r| - 1][..k] == r[..k];
    } else {
      assert r[..k] == r;
    }
  }

  /** The sizes below a node. */
  lemma SizeBounds(tr: Trie, i: nat, mem: Mem, p: Path, r: Path)
    requires TrieAt(tr, i, mem) && r in tr && Under(p, r)
    ensures |p| <= Bits(i) && SizeOf(mem, tr[r]) >= 0 && Covers(i, p, SizeOf(mem, tr[r]))
  {
    hide TreeIndex, SizeOf, Kid;
    assert NodeAt(tr, i, r, mem, tr[r]);
    CoversUp(i, r, |p|, SizeOf(mem, tr[r]));
  }

  /** After the node at `p` was considered, only what is below its leftmost child matters. */
  lemma GoLeftmost(tr: Trie, i: nat, mem: Mem, p: Path, nb: nat, rem: nat, rem': nat, d: bool)
    requires TrieAt(tr, i, mem) && p in tr && p + [d] in tr && (d ==> p + [false] !in tr)
    requires Leads(tr, i, mem, p, nb, rem) && rem' <= rem && Beaten(SizeOf(mem, tr[p]), nb, rem')
    ensures Leads(tr, i, mem, p + [d], nb, rem')
  {
    hide TrieAt, SizeOf, Pow2, Lo;
    if AllBeaten(tr, mem, nb, rem) {
      assert AllBeaten(tr, mem, nb, rem');
    } else {
      forall r | r in tr && Under(p + [d], r) ensures SizeOf(mem, tr[r]) >= nb {
        assert r[..|p|] == r[..|p + [d]|][..|p|] == p;
      }
      forall r | r in tr
        ensures Beaten(SizeOf(mem, tr[r]), nb, rem') || Under(p + [d], r) || Beyond(i, p + [d], SizeOf(mem, tr[r]))
      {
        LeftmostStep(tr, i, mem, p, nb, rem, rem', d, r);
      }
    }
  }

  lemma BeyondMonotone(i: nat, p: Path, z: int, z': int)
    requires z >= 0 && Covers(i, p, z) && Beyond(i, p, z')
    ensures z < z'
  {
  }

  /** What lies beyond a node lies beyond its children; sizes of the right child lie beyond the left one. */
  lemma BeyondChild(i: nat, p: Path, d: bool, z: int)
    requires |p| < Bits(i)
    ensures Beyond(i, p, z) ==> Beyond(i, p + [d], z)
    ensures z >= 0 && Covers(i, p + [true], z) ==> Beyond(i, p + [false], z)
  {
    CoversChild(i, p, 0, d);
    CoversChild(i, p, 0, false);
    CoversChild(i, p, 0, true);
    PowStep(Bits(i) - |p| - 1);
    hide Lo, Pow2;
  }

  lemma LeftmostStep(tr: Trie, i: nat, mem: Mem, p: Path, nb: nat, rem: nat, rem': nat, d: bool, r: Path)
    requires TrieAt(tr, i, mem) && p in tr && p + [d] in tr && (d ==> p + [false] !in tr) && r in tr
    requires Leads(tr, i, mem, p, nb, rem) && rem' <= rem && Beaten(SizeOf(mem, tr[p]), nb, rem')
    ensures Beaten(SizeOf(mem, tr[r]), nb, rem') || Under(p + [d], r) || Beyond(i, p + [d], SizeOf(mem, tr[r]))
  {
    hide SizeOf, Covers, Beyond, TrieAt;
    TrieRooted(tr, i, mem);
    var z := SizeOf(mem, tr[r]);
    SizeBounds(tr, i, mem, p + [d], p + [d]);
    BeyondChild(i, p, d, z);
    if Under(p, r) && r != p {
      UnderChild(tr, p, r);
      var e := r[|p|];
      SizeBounds(tr, i, mem, p + [e], r);
      ChildOnTheWay(tr, p, r);
    }
  }

  /** At a leaf the search ends. */
  lemma LeafEnds(tr: Trie, i: nat, mem: Mem, p: Path, nb: nat, rem: nat, rem': nat)
    requires TrieAt(tr, i, mem) && p in tr && IsLeaf(tr, p)
    requires Leads(tr, i, mem, p, nb, rem) && rem' <= rem && Beaten(SizeOf(mem, tr[p]), nb, rem')
    ensures AllBeaten(tr, mem, nb, rem')
  {
    hide SizeOf, Covers, Beyond, TrieAt, IsLeaf, Under;
    TrieRooted(tr, i, mem);
    UnderSelf(p);
    SizeBounds(tr, i, mem, p, p);
    forall r | r in tr ensures Beaten(SizeOf(mem, tr[r]), nb, rem') {
      if !AllBeaten(tr, mem, nb, rem) {
        if Under(p, r) { UnderLeaf(tr, p, r); }
        if Beyond(i, p, SizeOf(mem, tr[r])) { BeyondMonotone(i, p, SizeOf(mem, tr[p]), SizeOf(mem, tr[r])); }
      }
    }
  }

  lemma UnderSelf(p: Path)
    ensures Under(p, p)
  {
    assert p[..|p|] == p;
  }

  // ----- the way down along the bits of the request

  /** What matters is below `q`, on the way of `nb`, or else in the right subtree at `rq` passed last, or above the
      sizes of that one. */
  ghost predicate Splits(tr: Trie, i: nat, mem: Mem, q: Path, rst: int, rq: Path, nb: nat, rem: nat)
  {
    && Covers(i, q, nb) && |rq| <= Bits(i)
    && (rst != 0 ==> Beyond(i, q, Lo(i, rq)) && forall r | r in tr && Under(rq, r) :: SizeOf(mem, tr[r]) >= nb)
    && (forall r | r in tr :: Beaten(SizeOf(mem, tr[r]), nb, rem) || Under(q, r) || Aside(tr, i, mem, rst, rq, r))
  }

  ghost predicate Aside(tr: Trie, i: nat, mem: Mem, rst: int, rq: Path, r: Path)
    requires r in tr
  {
    rst != 0 && (Under(rq, r) || Beyond(i, rq, SizeOf(mem, tr[r])))
  }

  ghost predicate Searching(tr: Trie, i: nat, mem: Mem, q: Path, rst: int, rq: Path, nb: nat, rem: nat)
  {
    && q in tr && (rst != 0 ==> rq in tr && tr[rq] == rst)
    && if nb >= TERA then AllBeaten(tr, mem, nb, rem) else Splits(tr, i, mem, q, rst, rq, nb, rem)
  }

  /** The right subtree that is passed when the way goes left. */
  function Passed(tr: Trie, q: Path, d: bool, rst: int): int { if !d && q + [true] in tr then tr[q + [true]] else rst }

  function PassedAt(tr: Trie, q: Path, d: bool, rq: Path): Path { if !d && q + [true] in tr then q + [true] else rq }

  /** All sizes below a node are at least its lower bound. */
  lemma AtLeastLo(tr: Trie, i: nat, mem: Mem, p: Path, r: Path)
    requires TrieAt(tr, i, mem) && r in tr && |p| <= Bits(i) && (Under(p, r) || Beyond(i, p, SizeOf(mem, tr[r])))
    ensures SizeOf(mem, tr[r]) >= Lo(i, p)
  {
    hide SizeOf, TrieAt, Lo, Pow2;
    if Under(p, r) { SizeBounds(tr, i, mem, p, r); }
  }

  /** The two halves of an interval, and what lies beyond it. */
  lemma Halving(i: nat, q: Path, z: int)
    requires |q| < Bits(i) && z >= 0
    ensures Covers(i, q + [false], z) ==> z < Lo(i, q + [true])
    ensures Covers(i, q + [true], z) ==> Lo(i, q + [true]) <= z
    ensures Beyond(i, q, z) ==> Beyond(i, q + [false], z) && Beyond(i, q + [true], z)
    ensures Beyond(i, q + [false], Lo(i, q + [true]))
  {
    hide Lo, Pow2, Bits;
    CoversChild(i, q, 0, false);
    CoversChild(i, q, 0, true);
    assert |q + [false]| == |q| + 1 == |q + [true]|;
    PowStep(Bits(i) - |q| - 1);
  }

  lemma BeyondUp(i: nat, p: Path, z: int, z': int)
    requires Beyond(i, p, z) && z <= z'
    ensures Beyond(i, p, z')
  {
  }

  lemma DescendOne(tr: Trie, i: nat, mem: Mem, q: Path, rst: int, rq: Path, nb: nat, rem: nat, rem': nat, d: bool,
                   r: Path)
    requires TrieAt(tr, i, mem) && Splits(tr, i, mem, q, rst, rq, nb, rem) && q in tr && r in tr && |q| < Bits(i)
      && Covers(i, q + [d], nb)
    requires rem' <= rem && Beaten(SizeOf(mem, tr[q]), nb, rem')
    ensures Beaten(SizeOf(mem, tr[r]), nb, rem') || Under(q + [d], r)
      || Aside(tr, i, mem, Passed(tr, q, d, rst), PassedAt(tr, q, d, rq), r)
  {
    hide SizeOf, TrieAt, Covers, Beyond, Lo;
    TrieRooted(tr, i, mem);
    Halving(i, q, nb);
    if Under(q, r) && r != q {
      UnderChild(tr, q, r);
      ChildOnTheWay(tr, q, r);
      var e := r[|q|];
      assert q + [e] == if e then q + [true] else q + [false];
      SizeBounds(tr, i, mem, q + [e], r);
      Halving(i, q, SizeOf(mem, tr[r]));
      NonZero(tr, i, mem, q + [true]);
    } else if Aside(tr, i, mem, rst, rq, r) {
      AtLeastLo(tr, i, mem, rq, r);
      BeyondUp(i, q, Lo(i, rq), SizeOf(mem, tr[r]));
      SizeBounds(tr, i, mem, r, r) by { UnderSelf(r); }
      Halving(i, q, SizeOf(mem, tr[r]));
      NonZero(tr, i, mem, q + [true]);
    }
  }

  lemma NonZero(tr: Trie, i: nat, mem: Mem, q: Path)
    requires TrieAt(tr, i, mem)
    ensures q in tr ==> tr[q] != 0
  {
    hide NodeAt;
  }

  /** What was passed aside lies beyond the way that is taken, and fits. */
  lemma PassedFits(tr: Trie, i: nat, mem: Mem, q: Path, rst: int, rq: Path, nb: nat, rem: nat, d: bool)
    requires TrieAt(tr, i, mem) && Splits(tr, i, mem, q, rst, rq, nb, rem) && q in tr && |q| < Bits(i)
      && Covers(i, q + [d], nb)
    ensures var rst', rq' := Passed(tr, q, d, rst), PassedAt(tr, q, d, rq);
      |rq'| <= Bits(i) && (rst' != 0 ==>
        Beyond(i, q + [d], Lo(i, rq')) && forall r | r in tr && Under(rq', r) :: SizeOf(mem, tr[r]) >= nb)
  {
    hide SizeOf, TrieAt, Covers, Beyond, Lo;
    var rst', rq' := Passed(tr, q, d, rst), PassedAt(tr, q, d, rq);
    Halving(i, q, nb);
    if !d && q + [true] in tr {
      forall r | r in tr && Under(rq', r) ensures SizeOf(mem, tr[r]) >= nb {
        AtLeastLo(tr, i, mem, rq', r);
      }
    } else if rst' != 0 {
      LoNat(i, rq);
      Halving(i, q, Lo(i, rq));
    }
  }

  lemma LoNat(i: nat, p: Path)
    requires |p| <= Bits(i)
    ensures Lo(i, p) >= 0
  {
  }

  /** The way goes on below the node at `q`. */
  lemma GoOn(tr: Trie, i: nat, mem: Mem, q: Path, rst: int, rq: Path, nb: nat, rem: nat, rem': nat, d: bool)
    requires TrieAt(tr, i, mem) && Searching(tr, i, mem, q, rst, rq, nb, rem) && q + [d] in tr
    requires rem' <= rem && Beaten(SizeOf(mem, tr[q]), nb, rem') && |q| < Bits(i)
    requires Covers(i, q, nb) ==> Covers(i, q + [d], nb)
    ensures Searching(tr, i, mem, q + [d], Passed(tr, q, d, rst), PassedAt(tr, q, d, rq), nb, rem')
  {
    hide SizeOf, TrieAt, Covers, Beyond, Lo;
    if nb >= TERA {
      assert AllBeaten(tr, mem, nb, rem');
    } else {
      PassedFits(tr, i, mem, q, rst, rq, nb, rem, d);
      forall r | r in tr
        ensures Beaten(SizeOf(mem, tr[r]), nb, rem') || Under(q + [d], r)
          || Aside(tr, i, mem, Passed(tr, q, d, rst), PassedAt(tr, q, d, rq), r)
      {
        DescendOne(tr, i, mem, q, rst, rq, nb, rem, rem', d, r);
      }
    }
  }

  /** The way ends at `q`: what is left is in the right subtree passed last. */
  lemma WayEnds(tr: Trie, i: nat, mem: Mem, q: Path, rst: int, rq: Path, nb: nat, rem: nat, rem': nat, d: bool)
    requires TrieAt(tr, i, mem) && Searching(tr, i, mem, q, rst, rq, nb, rem) && q + [d] !in tr
    requires rem' <= rem && Beaten(SizeOf(mem, tr[q]), nb, rem')
    requires Covers(i, q, nb) ==> |q| < Bits(i) && Covers(i, q + [d], nb)
    ensures var rst', rq' := Passed(tr, q, d, rst), PassedAt(tr, q, d, rq);
      && (rst' == 0 ==> AllBeaten(tr, mem, nb, rem'))
      && (rst' != 0 ==>
        rq' in tr && tr[rq'] == rst' && Leads(tr, i, mem, rq', nb, rem') && (nb < TERA ==> SizeOf(mem, rst') >= nb))
  {
    hide SizeOf, TrieAt, Covers, Beyond, Lo;
    if nb >= TERA {
      assert AllBeaten(tr, mem, nb, rem');
    } else {
      TrieRooted(tr, i, mem);
      PassedFits(tr, i, mem, q, rst, rq, nb, rem, d);
      forall r | r in tr
        ensures Beaten(SizeOf(mem, tr[r]), nb, rem')
          || Aside(tr, i, mem, Passed(tr, q, d, rst), PassedAt(tr, q, d, rq), r)
      {
        DescendOne(tr, i, mem, q, rst, rq, nb, rem, rem', d, r);
        if Under(q + [d], r) { OffTheTree(tr, q + [d], r); }
      }
      UnderSelf(PassedAt(tr, q, d, rq));
    }
  }

  lemma OffTheTree(tr: Trie, p: Path, r: Path)
    requires Under(p, r) && r in tr && Rooted(tr)
    ensures p in tr
  {
    PrefixIn(tr, r, |p|);
  }

  /** A node of exactly the size ends all search. */
  lemma ExactFit(tr: Trie, i: nat, mem: Mem, q: Path, nb: nat)
    ensures AllBeaten(tr, mem, nb, 0) && Leads(tr, i, mem, q, nb, 0)
  {
  }

  lemma SearchStarts(tr: Trie, i: nat, mem: Mem, nb: nat, rem: nat)
    requires [] in tr && if nb >= TERA then AllBeaten(tr, mem, nb, rem) else Covers(i, [], nb)
    ensures Searching(tr, i, mem, [], 0, [], nb, rem)
  {
    forall r | r in tr ensures Under([], r) { }
  }

  function LeftmostChild(mem: Mem, t: int): int
  {
    if Kid(mem, false, t) != 0 then Kid(mem, false, t) else Kid(mem, true, t)
  }

  lemma LeftStep(tr: Trie, i: nat, mem: Mem, p: Path, nb: nat, rem: nat, rem': nat) returns (p': Path)
    requires TrieAt(tr, i, mem) && p in tr && Leads(tr, i, mem, p, nb, rem) && rem' <= rem
      && Beaten(SizeOf(mem, tr[p]), nb, rem')
    ensures var t' := LeftmostChild(mem, tr[p]);
      && (t' != 0 ==> p' in tr && tr[p'] == t' && Leads(tr, i, mem, p', nb, rem') && |p| < |p'| <= Bits(i))
      && (t' == 0 ==> AllBeaten(tr, mem, nb, rem'))
  {
    hide TrieAt, Leads, AllBeaten, Kid, Beaten;
    p' := p;
    KidsOf(tr, i, mem, p);
    if Kid(mem, false, tr[p]) != 0 {
      KidThere(tr, i, mem, p, false);
      p' := p + [false];
      GoLeftmost(tr, i, mem, p, nb, rem, rem', false);
    } else if Kid(mem, true, tr[p]) != 0 {
      KidThere(tr, i, mem, p, true);
      p' := p + [true];
      NonZero(tr, i, mem, p + [false]);
      GoLeftmost(tr, i, mem, p, nb, rem, rem', true);
    } else {
      NoKids(tr, i, mem, p);
      LeafEnds(tr, i, mem, p, nb, rem, rem');
    }
  }

  /** One step along the bits of the request: `t` is the next node, `rt` the right child. */
  lemma WayStep(tr: Trie, i: nat, mem: Mem, q: Path, rst: int, rq: Path, nb: nat, rem: nat, rem': nat, d: bool)
    requires TrieAt(tr, i, mem) && Searching(tr, i, mem, q, rst, rq, nb, rem)
    requires rem' <= rem && Beaten(SizeOf(mem, tr[q]), nb, rem')
    requires Covers(i, q, nb) ==> |q| < Bits(i) && Covers(i, q + [d], nb)
    ensures var rt, t := Kid(mem, true, tr[q]), Kid(mem, d, tr[q]);
      var rst', rq' := if rt != 0 && rt != t then rt else rst, PassedAt(tr, q, d, rq);
      && (t != 0 ==>
        q + [d] in tr && tr[q + [d]] == t && |q| < |q + [d]| <= Bits(i)
        && Searching(tr, i, mem, q + [d], rst', rq', nb, rem'))
      && (t == 0 ==>
        (rst' == 0 ==> AllBeaten(tr, mem, nb, rem'))
        && (rst' != 0 ==>
        rq' in tr && tr[rq'] == rst' && Leads(tr, i, mem, rq', nb, rem') && (nb < TERA ==> SizeOf(mem, rst') >= nb)))
  {
    hide Leads, AllBeaten, Kid, Beaten, Covers, Searching, NodeAt;
    assert q in tr by { SearchingAt(tr, i, mem, q, rst, rq, nb, rem); }
    KidsOf(tr, i, mem, q);
    NonZero(tr, i, mem, q + [true]);
    NonZero(tr, i, mem, q + [false]);
    assert q + [true] != q + [false] by { SnocPath(q, true, q + [false]); }
    var rt, t := Kid(mem, true, tr[q]), Kid(mem, d, tr[q]);
    assert (if rt != 0 && rt != t then rt else rst) == Passed(tr, q, d, rst);
    hide TrieAt;
    if t != 0 {
      KidThere(tr, i, mem, q, d);
      GoOn(tr, i, mem, q, rst, rq, nb, rem, rem', d);
    } else {
      WayEnds(tr, i, mem, q, rst, rq, nb, rem, rem', d);
    }
  }

  lemma SearchingAt(tr: Trie, i: nat, mem: Mem, q: Path, rst: int, rq: Path, nb: nat, rem: nat)
    requires Searching(tr, i, mem, q, rst, rq, nb, rem)
    ensures q in tr
  {
  }

  // ----- all bins

  /** The size of the best node found so far, or no node yet. */
  ghost predicate Best(t: Trees, mem: Mem, k: nat, nb: nat, v: int, rem: nat)
    requires Placed(t)
  {
    if v == 0 then rem == WORD - nb else v in t.place && t.place[v].0 == k && SizeOf(mem, v) - nb == rem
  }

  ghost predicate NodesBeaten(t: Trees, mem: Mem, nb: nat, rem: nat)
    requires Placed(t)
  {
    forall n | n in t.place :: Beaten(SizeOf(mem, n), nb, rem)
  }

  lemma NodeIndex(t: Trees, mem: Mem, n: int)
    requires Placed(t) && NodesOk(t, mem) && n in t.place
    ensures 256 <= SizeOf(mem, n) < TERA && TreeIndex(SizeOf(mem, n)) == t.place[n].0 < NTREEBINS
      && t.place[n].1 in t.tries[t.place[n].0]
    ensures t.tries[t.place[n].0][t.place[n].1] == n
  {
    hide TreeIndex, SizeOf;
    assert NodeOk(t, mem, n);
  }

  /** Bins below the one of the request hold too small chunks only; bins above the one of the best chunk hold larger
      ones only. */
  lemma BinsBeaten(t: Trees, mem: Mem, nb: nat, k: nat, v: int, rem: nat)
    requires Placed(t) && NodesOk(t, mem) && 256 <= nb < WORD && k < NTREEBINS && k >= TreeIndex(nb)
      && Best(t, mem, k, nb, v, rem)
    requires AllBeaten(t.tries[k], mem, nb, rem)
    requires forall j | TreeIndex(nb) <= j < k :: AllBeaten(t.tries[j], mem, nb, WORD - nb)
    requires v == 0 ==> nb >= TERA || forall j | k < j < NTREEBINS :: t.tries[j] == map[]
    ensures NodesBeaten(t, mem, nb, rem)
  {
    assert |t.tries| == NTREEBINS;
    hide TreeIndex, SizeOf, Placed, NodesOk;
    forall n | n in t.place ensures Beaten(SizeOf(mem, n), nb, rem) {
      NodeIndex(t, mem, n);
      var j, z := t.place[n].0, SizeOf(mem, n);
      if TreeIndex(nb) <= j < k {
        assert AllBeaten(t.tries[j], mem, nb, WORD - nb);
        TooLarge(z, nb);
      }
      if z >= nb {
        IndexMono(nb, z);
        if j > k && v != 0 {
          NodeIndex(t, mem, v);
          if z <= SizeOf(mem, v) { IndexMono(z, SizeOf(mem, v)); }
        }
      }
    }
  }

  lemma TooLarge(z: int, nb: nat)
    requires z < WORD && nb < WORD
    ensures Beaten(z, nb, WORD - nb) <==> z < nb
  {
  }

  /** In a bin above the request's, every chunk fits. */
  lemma NextBinLeads(t: Trees, mem: Mem, nb: nat, k: nat)
    requires Placed(t) && NodesOk(t, mem) && 256 <= nb < WORD && TreeIndex(nb) < k < NTREEBINS
    ensures Leads(t.tries[k], k, mem, [], nb, WORD - nb)
  {
    hide TreeIndex, SizeOf, NodesOk, Beyond;
    var tr := t.tries[k];
    forall r | r in tr
      ensures Under([], r) && (nb < TERA ==> SizeOf(mem, tr[r]) >= nb)
        && (nb >= TERA ==> Beaten(SizeOf(mem, tr[r]), nb, WORD - nb))
    {
      NodeIndex(t, mem, tr[r]);
      if SizeOf(mem, tr[r]) < nb < TERA { IndexMono(SizeOf(mem, tr[r]), nb); }
    }
  }

  /** A search through a bin whose chunks all fit does not end without a chunk. */
  lemma SomeFound(t: Trees, mem: Mem, nb: nat, k: nat, v: int, rem: nat)
    requires Placed(t) && NodesOk(t, mem) && 256 <= nb < TERA && TreeIndex(nb) < k < NTREEBINS && [] in t.tries[k]
    requires AllBeaten(t.tries[k], mem, nb, rem) && Best(t, mem, k, nb, v, rem)
    ensures v != 0
  {
    hide TreeIndex, SizeOf, NodesOk;
    var n := t.tries[k][[]];
    NodeIndex(t, mem, n);
    TooLarge(SizeOf(mem, n), nb);
    if SizeOf(mem, n) < nb { IndexMono(SizeOf(mem, n), nb); }
  }

  lemma FitFound(tr: Trie, mem: Mem, p: Path, nb: nat, rem: nat)
    requires AllBeaten(tr, mem, nb, rem) && p in tr && nb <= SizeOf(mem, tr[p]) < WORD && nb < WORD
    ensures rem < WORD - nb
  {
  }

  /** When only the best chunk's bin and empty bins below it remain, the best is best of all. */
  lemma LeastBin(t: Trees, mem: Mem, nb: nat, k: nat, v: int, rem: nat)
    requires Placed(t) && NodesOk(t, mem) && nb < 256 && k < NTREEBINS && v in t.place && t.place[v].0 == k
      && SizeOf(mem, v) - nb == rem
    requires AllBeaten(t.tries[k], mem, nb, rem) && forall j | 0 <= j < k :: t.tries[j] == map[]
    ensures NodesBeaten(t, mem, nb, rem)
  {
    hide TreeIndex, SizeOf, NodesOk;
    NodeIndex(t, mem, v);
    forall n | n in t.place ensures Beaten(SizeOf(mem, n), nb, rem) {
      NotInEmpty(t, mem, n, k);
      LeastBeaten(t, mem, nb, k, v, rem, n);
    }
  }

  lemma NotInEmpty(t: Trees, mem: Mem, n: int, k: nat)
    requires Placed(t) && NodesOk(t, mem) && n in t.place && k < NTREEBINS
      && forall j | 0 <= j < k :: t.tries[j] == map[]
    ensures t.place[n].0 >= k
  {
    hide NodesOk;
  }

  lemma LeastBeaten(t: Trees, mem: Mem, nb: nat, k: nat, v: int, rem: nat, n: int)
    requires Placed(t) && NodesOk(t, mem) && k < NTREEBINS && v in t.place && t.place[v].0 == k
      && SizeOf(mem, v) - nb == rem
    requires AllBeaten(t.tries[k], mem, nb, rem) && n in t.place && t.place[n].0 >= k
    ensures Beaten(SizeOf(mem, n), nb, rem)
  {
    hide TreeIndex, SizeOf, NodesOk, Placed;
    NodeIndex(t, mem, v);
    NodeIndex(t, mem, n);
    if SizeOf(mem, n) <= SizeOf(mem, v) { IndexMono(SizeOf(mem, n), SizeOf(mem, v)); }
  }

  lemma AllFit(t: Trees, mem: Mem, nb: nat, k: nat, rem: nat)
    requires Placed(t) && NodesOk(t, mem) && nb < 256 && k < NTREEBINS
    ensures Leads(t.tries[k], k, mem, [], nb, rem)
  {
    hide TreeIndex, SizeOf, NodesOk, Beyond;
    var tr := t.tries[k];
    forall r | r in tr ensures Under([], r) && SizeOf(mem, tr[r]) >= nb {
      NodeIndex(t, mem, tr[r]);
    }
  }

  // ----- what the search says about the chunks

  lemma ChunksBeaten(t: Trees, mem: Mem, nb: nat, rem: nat, x: int)
    requires Placed(t) && RingsOk(t, mem) && NodesBeaten(t, mem, nb, rem) && x in t.node
    ensures Beaten(SizeOf(mem, x), nb, rem)
  {
    hide Placed;
    RingsOf(t, mem, x);
    assert t.node[x] in t.place;
  }

  /** The chunk found is the least large chunk that fits, and there is none only if none fits. */
  lemma FoundBest(t: Trees, small: seq<seq<int>>, mem: Mem, roots: seq<int>, treemap: set<nat>, smallmap: set<nat>,
                  free: map<int, nat>,
                  nb: nat, k: nat, v: int, rem: nat)
    requires BinsOk(t, small, mem, roots, treemap, smallmap, free) && NodesBeaten(t, mem, nb, rem)
      && Best(t, mem, k, nb, v, rem) && nb < WORD
    ensures v == 0 ==> forall x | x in free && free[x] >= 256 :: free[x] < nb
    ensures v != 0 ==>
      v in free && free[v] >= 256 && rem == free[v] - nb
      && forall x | x in free && free[x] >= 256 && free[x] >= nb :: free[v] <= free[x]
  {
    hide Placed, NodesOk, RingsOk, RootsOk, SmallOk, SizeOf;
    NodesAreMembers(t, mem);
    forall x | x in free && free[x] >= 256 ensures Beaten(free[x], nb, rem) {
      assert x in t.node;
      ChunksBeaten(t, mem, nb, rem, x);
    }
  }

  lemma BinShape(t: Trees, mem: Mem, roots: seq<int>, map_: set<nat>)
    requires TreesOk(t, mem, roots, map_)
    ensures |roots| == NTREEBINS && |t.tries| == NTREEBINS
  {
  }

  lemma RootOfBin(t: Trees, mem: Mem, roots: seq<int>, map_: set<nat>, k: nat, nb: nat, rem: nat)
    requires TreesOk(t, mem, roots, map_) && k < NTREEBINS && 256 <= nb < WORD
    ensures |roots| == NTREEBINS && |t.tries| == NTREEBINS
      && (roots[k] == 0 ==> t.tries[k] == map[] && AllBeaten(t.tries[k], mem, nb, rem))
    ensures k in map_ <==> roots[k] != 0
    ensures roots[k] != 0 ==>
      [] in t.tries[k] && t.tries[k][[]] == roots[k]
      && (k == TreeIndex(nb) && rem == WORD - nb ==> Searching(t.tries[k], k, mem, [], 0, [], nb, rem))
  {
    hide NodesOk, RingsOk, TreeIndex, SizeOf, Searching;
    EmptyBin(t, k);
    if roots[k] != 0 && k == TreeIndex(nb) && rem == WORD - nb {
      if nb < TERA {
        RootCovers(nb);
      } else {
        forall r | r in t.tries[k]
          ensures Beaten(SizeOf(mem, t.tries[k][r]), nb, rem)
        {
          NodeIndex(t, mem, t.tries[k][r]);
        }
      }
      SearchStarts(t.tries[k], k, mem, nb, rem);
    }
  }

  lemma CoversFurther(i: nat, q: Path, d: bool, s: nat)
    requires |q + [d]| <= Bits(i)
    ensures Covers(i, q + [d], s) ==> Covers(i, q, s) && d == Goes(i, q, s)
  {
    CoversChild(i, q, s, d);
  }

  /** Between the request's bin and the next marked one the bins are empty. */
  lemma EmptyBins(t: Trees, mem: Mem, roots: seq<int>, map_: set<nat>, k: nat, next: nat, nb: nat)
    requires TreesOk(t, mem, roots, map_) && k < next <= NTREEBINS && nb < WORD
      && (forall j | k < j < next :: j !in map_)
    ensures |t.tries| == NTREEBINS
      && forall j | k < j < next :: t.tries[j] == map[] && AllBeaten(t.tries[j], mem, nb, WORD - nb)
  {
    hide NodesOk, RingsOk;
  }

  lemma EmptyBelow(t: Trees, mem: Mem, roots: seq<int>, map_: set<nat>, k: nat)
    requires TreesOk(t, mem, roots, map_) && k < NTREEBINS && (forall j | 0 <= j < k :: j !in map_)
    ensures |t.tries| == NTREEBINS && forall j | 0 <= j < k :: t.tries[j] == map[]
  {
    hide NodesOk, RingsOk;
  }

  lemma LowestMarked(t: Trees, mem: Mem, roots: seq<int>, map_: set<nat>)
    requires TreesOk(t, mem, roots, map_) && map_ != {}
    ensures |t.tries| == NTREEBINS && exists j | 0 <= j < NTREEBINS :: j in map_
  {
    hide NodesOk, RingsOk;
    var j :| j in map_;
  }
}
