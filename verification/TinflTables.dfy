/** The decoding tables of core/tinfl.c: a 1024-entry lookup on the next ten bits, with an
    overflow tree for longer codes, and their construction from the code lengths.

    A tree node is named by the bit path that leads to it. The ghost map `at` gives each
    allocated path its number: -1, -3, -5, ... in order of allocation. Node `t` owns the two
    slots `-t - 1` and `-t` of the tree array, one for each value of the next bit. */
module TinflTables {
  import opened Numbers
  import opened TinflBits
  import opened TinflCanonical

  const FAST_LOOKUP_SIZE := 1024
  const MAX_SYMBOLS := 288
  const TREE_SIZE := 2 * MAX_SYMBOLS

  type Nodes = map<bits, int>

  /** The index of `m_tree[~t + b]`. */
  function Slot(t: int, b: bool): int { -t - 1 + Bit(b) }

  function NextNode(at: Nodes): int { -1 - 2 * |at| }

  function Parent(p: bits): bits
    requires p != []
  {
    p[..|p| - 1]
  }

  /** `p` is a proper prefix of the code of one of the first `m` symbols. */
  ghost predicate Within(lens: Lengths, m: nat, p: bits)
  {
    exists s :: 0 <= s < m && s < |lens| && |p| < lens[s] && p <= Code(lens, s)
  }

  ghost predicate Shape(at: Nodes, tr: seq<int>)
  {
    && |tr| == TREE_SIZE
    && |at| <= MAX_SYMBOLS
    && (forall p | p in at :: 10 <= |p| <= 14 && at[p] % 2 == 1 && NextNode(at) < at[p] < 0)
    && (forall p, q | p in at && q in at && at[p] == at[q] :: p == q)
    && (forall j | 2 * |at| <= j < TREE_SIZE :: tr[j] == 0)
  }

  /** Every node below depth ten hangs in the slot of its parent that its last bit selects. */
  ghost predicate LinkedAt(at: Nodes, tr: seq<int>, p: bits)
    requires Shape(at, tr) && p in at && |p| > 10
  {
    Parent(p) in at && tr[Slot(at[Parent(p)], p[|p| - 1])] == at[p]
  }

  ghost predicate Linked(at: Nodes, tr: seq<int>)
    requires Shape(at, tr)
  {
    forall p | p in at && |p| > 10 :: LinkedAt(at, tr, p)
  }

  /** A slot that leads to no node is empty, or holds the symbol whose code ends there. */
  ghost predicate Leaf(lens: Lengths, n: nat, c: bits, v: int)
  {
    v == 0 || (0 <= v < n && v < |lens| && Uses(lens, v) && Code(lens, v) == c)
  }

  ghost predicate LeafAt(lens: Lengths, n: nat, at: Nodes, tr: seq<int>, p: bits, b: bool)
    requires Shape(at, tr) && p in at
  {
    p + [b] !in at ==> Leaf(lens, n, p + [b], tr[Slot(at[p], b)])
  }

  ghost predicate Leaves(lens: Lengths, n: nat, at: Nodes, tr: seq<int>)
    requires Shape(at, tr)
  {
    forall p, b | p in at :: LeafAt(lens, n, at, tr, p, b)
  }

  ghost predicate LongCode(lens: Lengths, s: nat, at: Nodes, tr: seq<int>)
    requires Shape(at, tr) && s < |lens| && lens[s] > 10
  {
    var c := Code(lens, s);
    Parent(c) in at && tr[Slot(at[Parent(c)], c[|c| - 1])] == s
  }

  ghost predicate LongCodes(lens: Lengths, n: nat, at: Nodes, tr: seq<int>)
    requires Shape(at, tr) && n <= |lens|
  {
    forall s | 0 <= s < n && lens[s] > 10 :: LongCode(lens, s, at, tr)
  }

  function Entry(lens: Lengths, s: nat): nat
    requires s < |lens|
  {
    lens[s] * 512 + s
  }

  ghost predicate ShortCode(lens: Lengths, s: nat, lk: seq<int>)
    requires s < |lens| && |lk| == FAST_LOOKUP_SIZE
  {
    forall i | 0 <= i < FAST_LOOKUP_SIZE && Code(lens, s) <= BitsOf(i, 10) :: lk[i] == Entry(lens, s)
  }

  /** What an entry of the lookup array stands for. */
  ghost predicate EntryOk(lens: Lengths, n: nat, at: Nodes, i: nat, v: int)
  {
    if v < 0 then BitsOf(i, 10) in at && at[BitsOf(i, 10)] == v
    else v > 0 ==>
      var s := v % 512;
      s < n && s < |lens| && 0 < lens[s] <= 10 && v == Entry(lens, s) && Code(lens, s) <= BitsOf(i, 10)
  }

  ghost predicate Lookup(lens: Lengths, n: nat, at: Nodes, lk: seq<int>)
    requires n <= |lens|
  {
    && |lk| == FAST_LOOKUP_SIZE
    && (forall i | 0 <= i < FAST_LOOKUP_SIZE :: EntryOk(lens, n, at, i, lk[i]))
    && (forall p | p in at && |p| == 10 :: 0 <= LeVal(p) < FAST_LOOKUP_SIZE && lk[LeVal(p)] == at[p])
    && (forall s | 0 <= s < n && 0 < lens[s] <= 10 :: ShortCode(lens, s, lk))
  }

  /** No node is there for nothing. */
  ghost predicate Grounded(lens: Lengths, m: nat, at: Nodes)
  {
    forall p | p in at :: Within(lens, m, p)
  }

  /** The tables hold exactly the first `n` symbols; nodes may already exist for `m` of them. */
  ghost predicate Holds(lens: Lengths, n: nat, m: nat, at: Nodes, lk: seq<int>, tr: seq<int>)
  {
    && n <= m <= |lens| <= MAX_SYMBOLS
    && Shape(at, tr)
    && Linked(at, tr)
    && Leaves(lens, n, at, tr)
    && LongCodes(lens, n, at, tr)
    && Lookup(lens, n, at, lk)
    && Grounded(lens, m, at)
  }

  // ----- the tree array is never outgrown

  function Paths(d: nat, lo: nat, hi: nat): (ps: set<bits>)
    ensures lo <= hi ==> |ps| <= hi - lo
    ensures hi <= lo ==> ps == {}
    decreases hi - lo
  {
    if lo >= hi then {} else {BeBits(lo, d)} + Paths(d, lo + 1, hi)
  }

  lemma {:induction false} InPaths(d: nat, lo: nat, hi: nat, v: nat)
    requires lo <= v < hi
    ensures BeBits(v, d) in Paths(d, lo, hi)
    decreases hi - lo
  {
    if lo < v { InPaths(d, lo + 1, hi, v); }
  }

  function InternalPaths(lens: Lengths, d: nat): set<bits>
  {
    Paths(d, First(lens, d) + Count(lens, |lens|, d), Pow2(d))
  }

  lemma WithinIsInternal(lens: Lengths, p: bits)
    requires Fits(lens) && 10 <= |p| <= 14 && Within(lens, |lens|, p)
    ensures p in InternalPaths(lens, |p|)
  {
    var s :| 0 <= s < |lens| && |p| < lens[s] && p <= Code(lens, s);
    ProperPrefixIsInternal(lens, s, |p|);
    assert Code(lens, s)[..|p|] == p;
    BeValBound(p);
    InPaths(|p|, First(lens, |p|) + Count(lens, |lens|, |p|), Pow2(|p|), BeVal(p));
    BeBitsOfVal(p);
  }

  lemma UnionBound(a: set<bits>, b: set<bits>)
    ensures |a + b| <= |a| + |b|
  {
    assert |a + b| == |a| + |b| - |a * b|;
  }

  lemma SubsetBound(a: set<bits>, b: set<bits>)
    requires a <= b
    ensures |a| <= |b|
  {
    assert b == a + (b - a);
    assert |a + (b - a)| == |a| + |b - a|;
  }

  lemma CompleteNodeBound(lens: Lengths, ps: set<bits>)
    requires Complete(lens) && |lens| <= MAX_SYMBOLS
    requires forall p | p in ps :: 10 <= |p| <= 14 && Within(lens, |lens|, p)
    ensures |ps| <= MAX_SYMBOLS
  {
    hide Complete, Within, Internal, InternalPaths;
    InternalNodes(lens);
    var a, b, c, d, e := InternalPaths(lens, 10), InternalPaths(lens, 11), InternalPaths(lens, 12),
                         InternalPaths(lens, 13), InternalPaths(lens, 14);
    InternalBound(lens, 10);
    InternalBound(lens, 11);
    InternalBound(lens, 12);
    InternalBound(lens, 13);
    InternalBound(lens, 14);
    UnionBound(a, b);
    UnionBound(a + b, c);
    UnionBound(a + b + c, d);
    UnionBound(a + b + c + d, e);
    forall p | p in ps ensures p in a + b + c + d + e { CompleteInternal(lens, p); }
    SubsetBound(ps, a + b + c + d + e);
  }

  lemma InternalBound(lens: Lengths, d: nat)
    requires Internal(lens, d) >= 0
    ensures |InternalPaths(lens, d)| <= Internal(lens, d)
  {
  }

  lemma CompleteInternal(lens: Lengths, p: bits)
    requires Complete(lens) && 10 <= |p| <= 14 && Within(lens, |lens|, p)
    ensures p in InternalPaths(lens, |p|)
  {
    WithinIsInternal(lens, p);
  }

  lemma CountAtLeast(lens: Lengths, s: nat)
    requires s < |lens|
    ensures Count(lens, |lens|, lens[s]) >= Count(lens, s, lens[s]) + 1
  {
    CountMono(lens, s + 1, |lens|, lens[s]);
  }

  lemma {:induction false} UsedAtLeast(lens: Lengths, s: nat, l: nat)
    requires s < |lens| && 0 < lens[s] <= l
    ensures Used(lens, l) >= 1
  {
    if lens[s] == l { CountAtLeast(lens, s); } else { UsedAtLeast(lens, s, l - 1); }
  }

  lemma {:induction false} UsedPair(lens: Lengths, s: nat, t: nat, l: nat)
    requires s < t < |lens| && 0 < lens[s] <= l && 0 < lens[t] <= l
    ensures Used(lens, l) >= 2
  {
    if lens[s] < l && lens[t] < l {
      UsedPair(lens, s, t, l - 1);
    } else if lens[s] == l && lens[t] == l {
      CountAtLeast(lens, t);
      CountMono(lens, s + 1, t, l);
    } else if lens[s] == l {
      CountAtLeast(lens, s);
      UsedAtLeast(lens, t, l - 1);
    } else {
      CountAtLeast(lens, t);
      UsedAtLeast(lens, s, l - 1);
    }
  }

  /** The prefixes of `c` of the lengths lo..hi-1. */
  function Prefixes(c: bits, lo: nat, hi: nat): (ps: set<bits>)
    requires lo <= hi <= |c| + 1
    ensures |ps| <= hi - lo
  {
    if lo == hi then {} else Prefixes(c, lo, hi - 1) + {c[..hi - 1]}
  }

  lemma {:induction false} InPrefixes(c: bits, lo: nat, hi: nat, k: nat)
    requires lo <= k < hi <= |c| + 1
    ensures c[..k] in Prefixes(c, lo, hi)
  {
    if k < hi - 1 { InPrefixes(c, lo, hi - 1, k); }
  }

  /** All nodes lie on the path of the one symbol in use. */
  lemma OnOnePath(lens: Lengths, s: nat, p: bits, x: bits)
    requires Used(lens, 15) <= 1 && s < |lens| && lens[s] > 0 && Within(lens, |lens|, p)
    ensures |p| < lens[s] && p == (Code(lens, s) + x)[..|p|]
  {
    var t :| 0 <= t < |lens| && |p| < lens[t] && p <= Code(lens, t);
    if s < t { UsedPair(lens, s, t, 15); } else if t < s { UsedPair(lens, t, s, 15); }
  }

  lemma FewNodeBound(lens: Lengths, ps: set<bits>)
    requires Used(lens, 15) <= 1
    requires forall p | p in ps :: 10 <= |p| <= 14 && Within(lens, |lens|, p)
    ensures |ps| <= 5
  {
    if p0 :| p0 in ps {
      var s :| 0 <= s < |lens| && |p0| < lens[s] && p0 <= Code(lens, s);
      var x := BitsOf(0, 15);
      var c := Code(lens, s) + x;
      forall p | p in ps ensures p in Prefixes(c, 10, 15) {
        OnOnePath(lens, s, p, x);
        InPrefixes(c, 10, 15, |p|);
      }
      SubsetBound(ps, Prefixes(c, 10, 15));
    }
  }

  /** The tables that `tinfl_decompress` accepts: Kraft sum one, or at most one symbol. */
  predicate Accepted(lens: Lengths) { Complete(lens) || Used(lens, 15) <= 1 }

  lemma AcceptedFits(lens: Lengths)
    requires Accepted(lens)
    ensures Fits(lens)
  {
    if !Complete(lens) {
      FewSymbolsFit(lens, 16);
      Pow2Facts();
    }
  }

  /** No node allocation can run past the end of the tree array. */
  lemma NodeBound(lens: Lengths, ps: set<bits>)
    requires Accepted(lens) && |lens| <= MAX_SYMBOLS
    requires forall p | p in ps :: 10 <= |p| <= 14 && Within(lens, |lens|, p)
    ensures |ps| <= MAX_SYMBOLS
  {
    if Complete(lens) { CompleteNodeBound(lens, ps); } else { FewNodeBound(lens, ps); }
  }
}
