/** The table construction loops of `tinfl_decompress`, one symbol at a time. */
module TinflBuild {
  import opened Numbers
  import opened TinflBits
  import opened TinflCanonical
  import opened TinflTables

  // ----- what each kind of store keeps

  lemma SlotsDiffer(at: Nodes, tr: seq<int>, p: bits, b: bool, q: bits, e: bool)
    requires Shape(at, tr) && p in at && q in at && (p != q || b != e)
    ensures Slot(at[p], b) != Slot(at[q], e)
  {
  }

  lemma SlotInRange(at: Nodes, tr: seq<int>, p: bits, b: bool)
    requires Shape(at, tr) && p in at
    ensures 0 <= Slot(at[p], b) < 2 * |at| <= TREE_SIZE
  {
  }

  lemma GrowKeys(at: Nodes, q: bits)
    requires q !in at
    ensures |at[q := NextNode(at)]| == |at| + 1
  {
    var at' := at[q := NextNode(at)];
    assert at'.Keys == at.Keys + {q};
    assert |at'| == |at'.Keys| && |at| == |at.Keys|;
  }

  /** A path that leads on to a symbol not stored yet is nobody's finished code. */
  lemma NotACode(lens: Lengths, n: nat, q: bits)
    requires Fits(lens) && n < |lens| && |q| < lens[n] && q <= Code(lens, n)
    ensures forall s | 0 <= s < |lens| && lens[s] > 0 :: !(Code(lens, s) <= q)
  {
    forall s | 0 <= s < |lens| && lens[s] > 0 ensures !(Code(lens, s) <= q) {
      if Code(lens, s) <= q { PrefixFree(lens, s, n); }
    }
  }

  /** One node more, with number `NextNode(at)`, and one slot of the tree array overwritten. */
  lemma ShapeGrows(at: Nodes, tr: seq<int>, q: bits)
    requires Shape(at, tr) && q !in at && 10 <= |q| <= 14 && |at| < MAX_SYMBOLS
    ensures Shape(at[q := NextNode(at)], tr)
  {
    GrowKeys(at, q);
  }

  lemma ShapeStored(at: Nodes, tr: seq<int>, p: bits, b: bool, v: int)
    requires Shape(at, tr) && p in at
    ensures 0 <= Slot(at[p], b) < TREE_SIZE && Shape(at, tr[Slot(at[p], b) := v])
  {
    SlotInRange(at, tr, p, b);
  }

  lemma LinkedGrows(at: Nodes, tr: seq<int>, p: bits, b: bool)
    requires Shape(at, tr) && Linked(at, tr) && p in at && p + [b] !in at && |p| >= 10
    requires 0 <= Slot(at[p], b) < TREE_SIZE
    requires Shape(at[p + [b] := NextNode(at)], tr[Slot(at[p], b) := NextNode(at)])
    ensures Linked(at[p + [b] := NextNode(at)], tr[Slot(at[p], b) := NextNode(at)])
  {
    var q, t, i := p + [b], NextNode(at), Slot(at[p], b);
    var at', tr' := at[q := t], tr[i := t];
    forall r | r in at' && |r| > 10 ensures LinkedAt(at', tr', r) {
      if r == q {
        assert Parent(q) == p;
      } else {
        assert LinkedAt(at, tr, r);
        if Slot(at[Parent(r)], r[|r| - 1]) == i { SlotKey(at, tr, r, p, b); }
      }
    }
  }

  lemma LeavesGrow(lens: Lengths, n: nat, at: Nodes, tr: seq<int>, p: bits, b: bool)
    requires Shape(at, tr) && Leaves(lens, n, at, tr) && p in at && p + [b] !in at && |at| < MAX_SYMBOLS
    requires 0 <= Slot(at[p], b) < TREE_SIZE
    requires Shape(at[p + [b] := NextNode(at)], tr[Slot(at[p], b) := NextNode(at)])
    ensures Leaves(lens, n, at[p + [b] := NextNode(at)], tr[Slot(at[p], b) := NextNode(at)])
  {
    var q, t, i := p + [b], NextNode(at), Slot(at[p], b);
    var at', tr' := at[q := t], tr[i := t];
    forall r, e | r in at' ensures LeafAt(lens, n, at', tr', r, e) {
      if r == q {
        SlotInRange(at, tr, p, b);
        assert Slot(t, e) >= 2 * |at|;
        GrowKeys(at, q);
        SlotInRange(at', tr', q, e);
        assert tr[Slot(t, e)] == 0;
      } else if r != p || e != b {
        SlotsDiffer(at, tr, r, e, p, b);
        assert LeafAt(lens, n, at, tr, r, e);
      }
    }
  }

  /** Allocating the child node on path `p + [b]`. */
  lemma AddNode(lens: Lengths, n: nat, at: Nodes, lk: seq<int>, tr: seq<int>, p: bits, b: bool)
    requires Fits(lens) && n < |lens| && Holds(lens, n, n + 1, at, lk, tr)
    requires p in at && p + [b] !in at && |p| + 1 < lens[n] && p + [b] <= Code(lens, n)
    requires |at| < MAX_SYMBOLS
    ensures 0 <= Slot(at[p], b) < TREE_SIZE
    ensures Holds(lens, n, n + 1, at[p + [b] := NextNode(at)], lk, tr[Slot(at[p], b) := NextNode(at)])
  {
    var q, t, i := p + [b], NextNode(at), Slot(at[p], b);
    ShapeStored(at, tr, p, b, t);
    var at', tr' := at[q := t], tr[i := t];
    ShapeGrows(at, tr', q);
    LinkedGrows(at, tr, p, b);
    LeavesGrow(lens, n, at, tr, p, b);
    NotACode(lens, n, q);
    forall s | 0 <= s < n && lens[s] > 10 ensures LongCode(lens, s, at', tr') {
      LongCodeKept(lens, s, at, tr, p, b);
    }
    RootsKept(lens, n, at, lk, q);
    WithinGrows(lens, n, at, q, t);
  }

  lemma WithinGrows(lens: Lengths, n: nat, at: Nodes, q: bits, t: int)
    requires n < |lens| && |q| < lens[n] && q <= Code(lens, n)
    requires Grounded(lens, n + 1, at)
    ensures Grounded(lens, n + 1, at[q := t])
  {
    var m := n + 1;
    forall p | p in at[q := t] ensures Within(lens, m, p) {
      assert p != q ==> Within(lens, m, p);
    }
  }

  lemma SlotKey(at: Nodes, tr: seq<int>, r: bits, p: bits, b: bool)
    requires Shape(at, tr) && r != [] && Parent(r) in at && p in at
    requires Slot(at[Parent(r)], r[|r| - 1]) == Slot(at[p], b)
    ensures r == p + [b]
  {
    if Parent(r) != p || r[|r| - 1] != b { SlotsDiffer(at, tr, Parent(r), r[|r| - 1], p, b); }
  }

  lemma LongCodeKept(lens: Lengths, s: nat, at: Nodes, tr: seq<int>, p: bits, b: bool)
    requires Shape(at, tr) && s < |lens| && lens[s] > 10 && LongCode(lens, s, at, tr)
    requires p in at && p + [b] !in at && Code(lens, s) != p + [b] && |at| < MAX_SYMBOLS
    requires Shape(at[p + [b] := NextNode(at)], tr[Slot(at[p], b) := NextNode(at)])
    ensures LongCode(lens, s, at[p + [b] := NextNode(at)], tr[Slot(at[p], b) := NextNode(at)])
  {
    var c := Code(lens, s);
    if Slot(at[Parent(c)], c[|c| - 1]) == Slot(at[p], b) { SlotKey(at, tr, c, p, b); }
  }

  /** The lookup array does not see nodes below depth ten. */
  lemma RootsKept(lens: Lengths, n: nat, at: Nodes, lk: seq<int>, q: bits)
    requires n <= |lens| && Lookup(lens, n, at, lk) && |q| > 10
    ensures Lookup(lens, n, at[q := NextNode(at)], lk)
  {
    var at' := at[q := NextNode(at)];
    forall i | 0 <= i < FAST_LOOKUP_SIZE ensures EntryOk(lens, n, at', i, lk[i]) {
      assert EntryOk(lens, n, at, i, lk[i]);
      assert BitsOf(i, 10) != q;
    }
  }

  /** Allocating the node for the ten-bit path `q`. */
  lemma AddRoot(lens: Lengths, n: nat, at: Nodes, lk: seq<int>, tr: seq<int>, q: bits)
    requires Fits(lens) && n < |lens| && Holds(lens, n, n + 1, at, lk, tr)
    requires |q| == 10 && q !in at && q <= Code(lens, n) && lens[n] > 10
    requires |at| < MAX_SYMBOLS
    ensures LeVal(q) < FAST_LOOKUP_SIZE
    ensures Holds(lens, n, n + 1, at[q := NextNode(at)], lk[LeVal(q) := NextNode(at)], tr)
  {
    LeValBound(q);
    Pow2Facts();
    var i, t := LeVal(q), NextNode(at);
    var at', lk' := at[q := t], lk[i := t];
    ShapeGrows(at, tr, q);
    NotACode(lens, n, q);
    RootLinks(lens, n, at, tr, q);
    RootLeaves(lens, n, at, tr, q);
    WithinGrows(lens, n, at, q, t);
    RootStored(lens, n, at, lk, q);
  }

  lemma RootLinks(lens: Lengths, n: nat, at: Nodes, tr: seq<int>, q: bits)
    requires Shape(at, tr) && q !in at && |q| == 10 && n <= |lens| && Shape(at[q := NextNode(at)], tr)
    requires Linked(at, tr) && LongCodes(lens, n, at, tr)
    ensures Linked(at[q := NextNode(at)], tr) && LongCodes(lens, n, at[q := NextNode(at)], tr)
  {
    var at' := at[q := NextNode(at)];
    forall r | r in at' && |r| > 10 ensures LinkedAt(at', tr, r) { assert LinkedAt(at, tr, r); }
    forall s | 0 <= s < n && lens[s] > 10 ensures LongCode(lens, s, at', tr) {
      assert LongCode(lens, s, at, tr);
    }
  }

  lemma RootLeaves(lens: Lengths, n: nat, at: Nodes, tr: seq<int>, q: bits)
    requires Shape(at, tr) && Leaves(lens, n, at, tr) && q !in at && |at| < MAX_SYMBOLS
    requires Shape(at[q := NextNode(at)], tr)
    ensures Leaves(lens, n, at[q := NextNode(at)], tr)
  {
    var at' := at[q := NextNode(at)];
    forall r, e | r in at' ensures LeafAt(lens, n, at', tr, r, e) {
      if r == q {
        GrowKeys(at, q);
        SlotInRange(at', tr, q, e);
        assert tr[Slot(at'[q], e)] == 0;
      } else {
        assert LeafAt(lens, n, at, tr, r, e);
      }
    }
  }

  lemma RootStored(lens: Lengths, n: nat, at: Nodes, lk: seq<int>, q: bits)
    requires n <= |lens| && Lookup(lens, n, at, lk) && |q| == 10 && q !in at
    requires NextNode(at) < 0 && LeVal(q) < FAST_LOOKUP_SIZE
    requires forall s | 0 <= s < |lens| && lens[s] > 0 :: !(Code(lens, s) <= q)
    ensures Lookup(lens, n, at[q := NextNode(at)], lk[LeVal(q) := NextNode(at)])
  {
    var i, t := LeVal(q), NextNode(at);
    var at', lk' := at[q := t], lk[i := t];
    BitsOfLeVal(q);
    forall k | 0 <= k < FAST_LOOKUP_SIZE ensures EntryOk(lens, n, at', k, lk'[k]) {
      assert EntryOk(lens, n, at, k, lk[k]);
    }
    forall p | p in at' && |p| == 10 ensures LeVal(p) < FAST_LOOKUP_SIZE && lk'[LeVal(p)] == at'[p] {
      if p != q && LeVal(p) == i { LeValInjective(p, q); }
    }
    forall s | 0 <= s < n && 0 < lens[s] <= 10 ensures ShortCode(lens, s, lk') {
      assert ShortCode(lens, s, lk);
    }
  }

  /** Storing symbol `n` in the slot where its code ends. */
  lemma AddLeaf(lens: Lengths, n: nat, at: Nodes, lk: seq<int>, tr: seq<int>)
    requires Fits(lens) && n < |lens| && lens[n] > 10 && Holds(lens, n, n + 1, at, lk, tr)
    requires Parent(Code(lens, n)) in at
    ensures var c := Code(lens, n);
      var i := Slot(at[Parent(c)], c[|c| - 1]);
      0 <= i < TREE_SIZE && Holds(lens, n + 1, n + 1, at, lk, tr[i := n])
  {
    var c := Code(lens, n);
    var p, b := Parent(c), c[|c| - 1];
    var i := Slot(at[p], b);
    ShapeStored(at, tr, p, b, n);
    var tr' := tr[i := n];
    assert c == p + [b];
    CodeNotANode(lens, n, at, c);
    LinkedAtLeaf(at, tr, p, b, n);
    LeavesAtLeaf(lens, n, n + 1, at, tr, p, b);
    LongCodesAtLeaf(lens, n, n + 1, at, tr);
    LookupMono(lens, n, at, lk);
  }

  lemma LeavesMono(lens: Lengths, n: nat, m: nat, at: Nodes, tr: seq<int>)
    requires n <= m && Shape(at, tr) && Leaves(lens, n, at, tr)
    ensures Leaves(lens, m, at, tr)
  {
    forall r, e | r in at ensures LeafAt(lens, m, at, tr, r, e) {
      assert LeafAt(lens, n, at, tr, r, e);
    }
  }

  lemma LeavesAtLeaf(lens: Lengths, n: nat, m: nat, at: Nodes, tr: seq<int>, p: bits, b: bool)
    requires m == n + 1 && n < |lens| && lens[n] > 0 && Code(lens, n) == p + [b]
    requires Shape(at, tr) && Leaves(lens, n, at, tr) && p in at && 0 <= Slot(at[p], b) < TREE_SIZE
    requires Shape(at, tr[Slot(at[p], b) := n])
    ensures Leaves(lens, m, at, tr[Slot(at[p], b) := n])
  {
    var tr' := tr[Slot(at[p], b) := n];
    forall r, e | r in at ensures LeafAt(lens, m, at, tr', r, e) {
      if r != p || e != b {
        SlotsDiffer(at, tr, r, e, p, b);
        assert LeafAt(lens, n, at, tr, r, e);
      }
    }
  }

  lemma LinkedAtLeaf(at: Nodes, tr: seq<int>, p: bits, b: bool, n: nat)
    requires Shape(at, tr) && Linked(at, tr) && p in at && p + [b] !in at && 0 <= Slot(at[p], b) < TREE_SIZE
    requires Shape(at, tr[Slot(at[p], b) := n])
    ensures Linked(at, tr[Slot(at[p], b) := n])
  {
    var i := Slot(at[p], b);
    forall r | r in at && |r| > 10 ensures LinkedAt(at, tr[i := n], r) {
      assert LinkedAt(at, tr, r);
      if Slot(at[Parent(r)], r[|r| - 1]) == i { SlotKey(at, tr, r, p, b); }
    }
  }

  lemma LongCodesAtLeaf(lens: Lengths, n: nat, m: nat, at: Nodes, tr: seq<int>)
    requires Fits(lens) && n < |lens| && lens[n] > 10 && m == n + 1
    requires Shape(at, tr) && LongCodes(lens, n, at, tr) && Parent(Code(lens, n)) in at
    ensures var c := Code(lens, n);
      var i := Slot(at[Parent(c)], c[|c| - 1]);
      0 <= i < TREE_SIZE && Shape(at, tr[i := n]) && LongCodes(lens, m, at, tr[i := n])
  {
    var c := Code(lens, n);
    var i := Slot(at[Parent(c)], c[|c| - 1]);
    ShapeStored(at, tr, Parent(c), c[|c| - 1], n);
    forall s | 0 <= s < m && lens[s] > 10 ensures LongCode(lens, s, at, tr[i := n]) {
      if s < n { LongCodeKeptAtLeaf(lens, s, n, at, tr); }
    }
  }

  lemma LongCodeKeptAtLeaf(lens: Lengths, s: nat, n: nat, at: Nodes, tr: seq<int>)
    requires Fits(lens) && s < n < |lens| && lens[s] > 10 && lens[n] > 10
    requires Shape(at, tr) && LongCode(lens, s, at, tr) && Parent(Code(lens, n)) in at
    ensures var c := Code(lens, n);
      var i := Slot(at[Parent(c)], c[|c| - 1]);
      0 <= i < TREE_SIZE && Shape(at, tr[i := n]) && LongCode(lens, s, at, tr[i := n])
  {
    var c, d := Code(lens, n), Code(lens, s);
    var p, b := Parent(c), c[|c| - 1];
    ShapeStored(at, tr, p, b, n);
    assert c == p + [b];
    if Slot(at[Parent(d)], d[|d| - 1]) == Slot(at[p], b) { SlotKey(at, tr, d, p, b); PrefixFree(lens, s, n); }
  }

  lemma CodeNotANode(lens: Lengths, n: nat, at: Nodes, c: bits)
    requires Fits(lens) && n < |lens| && lens[n] > 0 && c == Code(lens, n)
    requires Grounded(lens, n + 1, at)
    ensures c !in at
  {
    if c in at {
      var s :| 0 <= s < n + 1 && s < |lens| && |c| < lens[s] && c <= Code(lens, s);
      PrefixFree(lens, n, s);
    }
  }

  lemma LookupMono(lens: Lengths, n: nat, at: Nodes, lk: seq<int>)
    requires n < |lens| && Lookup(lens, n, at, lk) && (lens[n] == 0 || lens[n] > 10)
    ensures Lookup(lens, n + 1, at, lk)
  {
    forall i | 0 <= i < FAST_LOOKUP_SIZE ensures EntryOk(lens, n + 1, at, i, lk[i]) {
      assert EntryOk(lens, n, at, i, lk[i]);
    }
  }

  lemma HoldsSkip(lens: Lengths, n: nat, at: Nodes, lk: seq<int>, tr: seq<int>)
    requires n < |lens| && lens[n] == 0 && Holds(lens, n, n, at, lk, tr)
    ensures Holds(lens, n + 1, n + 1, at, lk, tr)
  {
    LookupMono(lens, n, at, lk);
    HoldsMore(lens, n, at, lk, tr);
    LeavesMono(lens, n, n + 1, at, tr);
  }

  lemma GroundedMono(lens: Lengths, n: nat, m: nat, at: Nodes)
    requires n <= m && Grounded(lens, n, at)
    ensures Grounded(lens, m, at)
  {
    forall p | p in at ensures Within(lens, m, p) { assert Within(lens, n, p); }
  }

  lemma HoldsMore(lens: Lengths, n: nat, at: Nodes, lk: seq<int>, tr: seq<int>)
    requires n < |lens| && Holds(lens, n, n, at, lk, tr)
    ensures Holds(lens, n, n + 1, at, lk, tr)
  {
    GroundedMono(lens, n, n + 1, at);
  }

  // ----- short codes: every entry whose index starts with the code

  lemma PrefixIsLow(c: bits, i: nat, n: nat)
    requires |c| <= n
    ensures c <= BitsOf(i, n) <==> Low(i, |c|) == LeVal(c)
  {
    hide LeVal, Low, BitsOf;
    var d := BitsOf(i, n)[..|c|];
    BitsOfSplit(i, n, |c|);
    assert c <= BitsOf(i, n) <==> c == d;
    if Low(i, |c|) == LeVal(c) { LeValInjective(d, c); }
  }

  /** Two indices with the same low `k` bits are a multiple of 2^k apart. */
  lemma LowStride(x: nat, y: nat, k: nat)
    ensures Low(x + Pow2(k), k) == Low(x, k)
    ensures x < y && Low(x, k) == Low(y, k) ==> x + Pow2(k) <= y
  {
    hide Shr, Low, Shl, Pow2;
    LowAddPow(x, k);
    ShiftMeaning(x, k);
    ShiftMeaning(y, k);
    if x < y && Low(x, k) == Low(y, k) {
      var e := Shr(y, k) - Shr(x, k);
      assert y - x == e * Pow2(k);
      TimesBetween(Pow2(k), e);
    }
  }

  lemma TimesBetween(d: int, k: int)
    requires d >= 0
    ensures k >= 1 ==> k * d >= d
    ensures k <= 0 ==> k * d <= 0
  {
  }

  lemma {:induction false} LowAddPow(x: nat, k: nat)
    ensures Low(x + Pow2(k), k) == Low(x, k)
  {
    if k > 0 {
      LowAddPow(x / 2, k - 1);
      assert (x + Pow2(k)) / 2 == x / 2 + Pow2(k - 1) && (x + Pow2(k)) % 2 == x % 2;
    }
  }

  /** The entries that belong to symbol `n` now hold it, all others are as before. */
  ghost predicate Filled(lens: Lengths, n: nat, lk: seq<int>, lk': seq<int>)
    requires n < |lens|
  {
    |lk| == |lk'| == FAST_LOOKUP_SIZE
    && forall i | 0 <= i < FAST_LOOKUP_SIZE ::
         lk'[i] == if Code(lens, n) <= BitsOf(i, 10) then Entry(lens, n) else lk[i]
  }

  lemma FilledAvoidsNodes(lens: Lengths, n: nat, m: nat, at: Nodes, p: bits)
    requires Fits(lens) && n < |lens| && 0 < lens[n] <= 10 && Grounded(lens, m, at) && p in at && |p| >= 10
    ensures !(Code(lens, n) <= p)
  {
    assert Within(lens, m, p);
    var s :| 0 <= s < m && s < |lens| && |p| < lens[s] && p <= Code(lens, s);
    if Code(lens, n) <= p { PrefixFree(lens, n, s); }
  }

  lemma FilledLookup(lens: Lengths, n: nat, m: nat, at: Nodes, lk: seq<int>, tr: seq<int>, lk': seq<int>)
    requires Fits(lens) && n < |lens| <= MAX_SYMBOLS && m == n + 1 && 0 < lens[n] <= 10
    requires Shape(at, tr) && Grounded(lens, n, at) && Lookup(lens, n, at, lk) && Filled(lens, n, lk, lk')
    ensures Lookup(lens, m, at, lk')
  {
    hide Code, BitsOf, EntryOk, ShortCode;
    forall i | 0 <= i < FAST_LOOKUP_SIZE ensures EntryOk(lens, m, at, i, lk'[i]) {
      FilledEntry(lens, n, m, at, lk, lk', i);
    }
    forall p | p in at && |p| == 10 ensures 0 <= LeVal(p) < FAST_LOOKUP_SIZE && lk'[LeVal(p)] == at[p] {
      FilledAvoidsNodes(lens, n, n, at, p);
      BitsOfLeVal(p);
    }
    forall s | 0 <= s < m && 0 < lens[s] <= 10 ensures ShortCode(lens, s, lk') {
      FilledShort(lens, n, m, at, lk, lk', s);
    }
  }

  lemma FilledEntry(lens: Lengths, n: nat, m: nat, at: Nodes, lk: seq<int>, lk': seq<int>, i: nat)
    requires Fits(lens) && n < |lens| <= MAX_SYMBOLS && m == n + 1 && 0 < lens[n] <= 10
    requires Lookup(lens, n, at, lk) && Filled(lens, n, lk, lk') && i < FAST_LOOKUP_SIZE
    ensures EntryOk(lens, m, at, i, lk'[i])
  {
    hide Code, BitsOf;
    assert EntryOk(lens, n, at, i, lk[i]);
    assert Entry(lens, n) % 512 == n;
  }

  lemma FilledShort(lens: Lengths, n: nat, m: nat, at: Nodes, lk: seq<int>, lk': seq<int>, s: nat)
    requires Fits(lens) && n < |lens| <= MAX_SYMBOLS && m == n + 1 && 0 < lens[n] <= 10
    requires Lookup(lens, n, at, lk) && Filled(lens, n, lk, lk') && s < m && 0 < lens[s] <= 10
    ensures ShortCode(lens, s, lk')
  {
    hide Code, BitsOf;
    if s < n { assert ShortCode(lens, s, lk); }
    forall i | 0 <= i < FAST_LOOKUP_SIZE && Code(lens, s) <= BitsOf(i, 10) ensures lk'[i] == Entry(lens, s) {
      if s < n && Code(lens, n) <= BitsOf(i, 10) { NextIsUnique(lens, s, n, BitsOf(i, 10)); }
    }
  }

  lemma FillIsFilled(lens: Lengths, n: nat, lk: seq<int>, lk': seq<int>)
    requires n < |lens| && 0 < lens[n] <= 10 && |lk| == |lk'| == FAST_LOOKUP_SIZE
    requires forall i | 0 <= i < FAST_LOOKUP_SIZE ::
      lk'[i] == if Low(i, lens[n]) == LeVal(Code(lens, n)) then Entry(lens, n) else lk[i]
    ensures Filled(lens, n, lk, lk')
  {
    hide Code, BitsOf, Low, LeVal;
    forall i | 0 <= i < FAST_LOOKUP_SIZE
      ensures lk'[i] == if Code(lens, n) <= BitsOf(i, 10) then Entry(lens, n) else lk[i]
    {
      PrefixIsLow(Code(lens, n), i, 10);
    }
  }

  lemma AddShort(lens: Lengths, n: nat, m: nat, at: Nodes, lk: seq<int>, tr: seq<int>, lk': seq<int>)
    requires Fits(lens) && n < |lens| && m == n + 1 && 0 < lens[n] <= 10
    requires Holds(lens, n, n, at, lk, tr) && Filled(lens, n, lk, lk')
    ensures Holds(lens, m, m, at, lk', tr)
  {
    hide Leaves, Lookup, Grounded, Linked, Filled, LongCode;
    FilledLookup(lens, n, m, at, lk, tr, lk');
    LeavesMono(lens, n, m, at, tr);
    GroundedMono(lens, n, m, at);
  }

  // ----- long codes: the bit that selects the branch

  lemma {:induction false} ShrStep(v: nat, n: nat)
    ensures Shr(v, n) / 2 == Shr(v, n + 1)
  {
    if n > 0 { ShrStep(v / 2, n - 1); }
  }

  lemma BranchBit(c: bits, d: nat)
    requires d < |c|
    ensures Shr(LeVal(c), d) % 2 == Bit(c[d])
  {
    BitsOfLeVal(c);
    BitsOfSplit(LeVal(c), |c|, d);
    assert c[d..][0] == c[d];
  }

  lemma RoomForNode(lens: Lengths, m: nat, at: Nodes, tr: seq<int>, q: bits)
    requires Accepted(lens) && m <= |lens| <= MAX_SYMBOLS && Shape(at, tr) && Grounded(lens, m, at)
    requires q !in at && 10 <= |q| <= 14 && Within(lens, m, q)
    ensures |at| < MAX_SYMBOLS
  {
    var ps := at.Keys + {q};
    forall p | p in ps ensures 10 <= |p| <= 14 && Within(lens, |lens|, p) {
      assert Within(lens, m, p);
    }
    NodeBound(lens, ps);
    assert |ps| == |at| + 1;
  }

  /** Reversing the bits of a code, as the table is indexed by the stream's bit order. */
  method ReverseCode(code: nat, size: nat) returns (rev: nat)
    ensures rev == LeVal(BeBits(code, size))
  {
    rev := 0;
    var cur, l := code, size;
    ghost var c := BeBits(code, size);
    while l > 0
      invariant 0 <= l <= size
      invariant BeBits(cur, l) == c[..l]
      invariant rev == LeVal(c[l..])
    {
      assert c[..l][..l - 1] == c[..l - 1];
      assert c[l - 1..] == [c[l - 1]] + c[l..];
      assert BeBits(cur, l)[l - 1] == c[l - 1];
      rev := 2 * rev + cur % 2;
      cur := cur / 2;
      l := l - 1;
    }
  }

  lemma FirstOfAll(lens: Lengths)
    ensures First(lens, 1) == 0 && Used(lens, 0) == 0
  {
  }

  lemma FirstStep(lens: Lengths, i: nat)
    requires i >= 1
    ensures First(lens, i + 1) == 2 * (First(lens, i) + Count(lens, |lens|, i))
    ensures Used(lens, i) == Used(lens, i - 1) + Count(lens, |lens|, i)
  {
  }

  /** With a complete code, fifteen bits are enough to have a symbol. */
  lemma CompleteDetermines(lens: Lengths, v: nat, sym: nat, codeLen: nat)
    requires Complete(lens) && Determines(lens, v, sym, codeLen)
    ensures sym < |lens| && codeLen == lens[sym] && IsNext(lens, sym, BitsOf(v, 15))
  {
    hide Code, BitsOf, Complete;
    CompleteDecodes(lens, BitsOf(v, 15));
    var s: nat :| IsNext(lens, s, BitsOf(v, 15));
    assert NextIn(lens, s, v, 15);
  }

  /** One `tinfl_huff_table`. */
  class HuffTable {
    const lookUp: array<int>
    const tree: array<int>
    ghost var nodes: Nodes

    ghost predicate Allocated()
    {
      lookUp.Length == FAST_LOOKUP_SIZE && tree.Length == TREE_SIZE
    }

    /** The tables decode the code with these lengths. */
    ghost predicate Built(lens: Lengths)
      reads this, lookUp, tree
    {
      Allocated() && Accepted(lens) && Holds(lens, |lens|, |lens|, nodes, lookUp[..], tree[..])
    }

    constructor ()
      ensures Allocated() && fresh(lookUp) && fresh(tree)
    {
      lookUp := new int[FAST_LOOKUP_SIZE];
      tree := new int[TREE_SIZE];
    }

    /** Builds the tables for `lens`, or refuses an over- or under-subscribed code. */
    method Build(lens: Lengths) returns (ok: bool)
      requires Allocated() && |lens| <= MAX_SYMBOLS
      modifies this, lookUp, tree
      ensures ok == Accepted(lens)
      ensures ok ==> Built(lens)
    {
      hide Holds, Code, First, Count, Used;
      var nextCode, usedSyms, total := Prepare(lens);
      if total != 65536 && usedSyms > 1 { return false; }
      forall i | 0 <= i < lookUp.Length { lookUp[i] := 0; }
      forall i | 0 <= i < tree.Length { tree[i] := 0; }
      nodes := map[];
      EmptyHolds(lens, lookUp[..], tree[..]);
      var treeNext, sym := -1, 0;
      while sym < |lens|
        invariant sym <= |lens| && Accepted(lens) && treeNext == NextNode(nodes)
        invariant Holds(lens, sym, sym, nodes, lookUp[..], tree[..])
        invariant forall l | 1 <= l <= 15 :: nextCode[l] == First(lens, l) + Count(lens, sym, l)
      {
        var size := lens[sym];
        if size == 0 {
          HoldsSkip(lens, sym, nodes, lookUp[..], tree[..]);
        } else {
          var code := nextCode[size];
          nextCode[size] := code + 1;
          var rev := ReverseCode(code, size);
          CodeUnfolds(lens, sym);
          if size <= 10 {
            InsertShort(lens, sym, size, rev);
          } else {
            treeNext := InsertLong(lens, sym, size, rev, treeNext);
          }
        }
        forall l | 1 <= l <= 15 ensures Count(lens, sym + 1, l) == Count(lens, sym, l) + if size == l then 1 else 0 {
          CountNext(lens, sym, l);
        }
        sym := sym + 1;
      }
      ok := true;
    }

    /** Counts the lengths and computes the first code of each. */
    method Prepare(lens: Lengths) returns (nextCode: array<nat>, usedSyms: nat, total: nat)
      ensures fresh(nextCode) && nextCode.Length == 17
      ensures forall l | 1 <= l <= 15 :: nextCode[l] == First(lens, l) + Count(lens, 0, l)
      ensures usedSyms == Used(lens, 15) && total == First(lens, 16)
    {
      var totalSyms := CountLengths(lens);
      hide First, Used;
      nextCode := new nat[17](_ => 0);
      var i := 1;
      usedSyms, total := 0, 0;
      FirstOfAll(lens);
      while i <= 15
        invariant 1 <= i <= 16 && nextCode != totalSyms
        invariant forall l | 0 <= l <= 15 :: totalSyms[l] == Count(lens, |lens|, l)
        invariant forall l | 1 <= l <= i :: nextCode[l] == First(lens, l)
        invariant usedSyms == Used(lens, i - 1) && total == First(lens, i)
      {
        FirstStep(lens, i);
        usedSyms := usedSyms + totalSyms[i];
        total := 2 * (total + totalSyms[i]);
        nextCode[i + 1] := total;
        i := i + 1;
      }
    }

    method CountLengths(lens: Lengths) returns (totalSyms: array<nat>)
      ensures fresh(totalSyms) && totalSyms.Length == 16
      ensures forall l | 0 <= l <= 15 :: totalSyms[l] == Count(lens, |lens|, l)
    {
      totalSyms := new nat[16](_ => 0);
      var i := 0;
      while i < |lens|
        invariant i <= |lens| && fresh(totalSyms)
        invariant forall l | 0 <= l <= 15 :: totalSyms[l] == Count(lens, i, l)
      {
        totalSyms[lens[i]] := totalSyms[lens[i]] + 1;
        i := i + 1;
      }
    }

    /** The last part of TINFL_HUFF_DECODE: one symbol and the length of its code. */
    method Decode(ghost lens: Lengths, bitBuf: nat) returns (sym: nat, codeLen: nat)
      requires Built(lens)
      ensures codeLen == StopLength(nodes, lookUp[..], bitBuf) <= 15
      ensures (sym < |lens| || sym == 0) && (codeLen == 0 ==> sym == 0)
      ensures Determines(lens, bitBuf, sym, codeLen)
      ensures Complete(lens) ==> sym < |lens| && codeLen == lens[sym] && IsNext(lens, sym, BitsOf(bitBuf, 15))
    {
      hide Code, BitsOf, Shr, Linked, Leaves, LongCodes, Lookup, Shape, Within, Grounded, Low, StopDepth, IsNext;
      EntryFacts(lens, nodes, lookUp[..], tree[..], bitBuf);
      var temp := lookUp[Low(bitBuf, 10)];
      if temp >= 0 {
        codeLen, sym := temp / 512, temp % 512;
      } else {
        codeLen := 10;
        TreeWalk(lens, nodes, lookUp[..], tree[..], bitBuf, 10);
        while temp < 0
          invariant 10 <= codeLen <= 15 && (temp < 0 ==> codeLen < 15)
          invariant temp < 0 ==> BitsOf(bitBuf, codeLen) in nodes && nodes[BitsOf(bitBuf, codeLen)] == temp
          invariant temp >= 0 ==> WalkEnds(lens, nodes, lookUp[..], bitBuf, codeLen, temp)
          invariant StopDepth(nodes, bitBuf, 10) == StopDepth(nodes, bitBuf, codeLen)
          decreases 15 - codeLen
        {
          TreeWalk(lens, nodes, lookUp[..], tree[..], bitBuf, codeLen);
          temp := tree[-temp - 1 + Shr(bitBuf, codeLen) % 2];
          codeLen := codeLen + 1;
        }
        StopUnfolds(nodes, bitBuf, codeLen);
        sym := temp;
      }
      if Complete(lens) { CompleteDetermines(lens, bitBuf, sym, codeLen); }
    }

    /** The test inside TINFL_HUFF_BITBUF_FILL: do the bits at hand already decide the symbol? */
    method Decides(ghost lens: Lengths, bitBuf: nat, numBits: nat) returns (found: bool)
      requires Built(lens) && numBits < 15
      ensures found ==> StopLength(nodes, lookUp[..], bitBuf) <= numBits
      ensures found ==> forall s: nat, x :: IsNext(lens, s, BitsOf(bitBuf, numBits) + x) ==> lens[s] <= numBits
      ensures !found ==> forall s: nat :: !IsNext(lens, s, BitsOf(bitBuf, numBits))
    {
      hide Code, BitsOf, Shr, Linked, Leaves, LongCodes, Lookup, Shape, Within, Grounded, Low, StopDepth, IsNext,
           Determines;
      EntryFacts(lens, nodes, lookUp[..], tree[..], bitBuf);
      var temp := lookUp[Low(bitBuf, 10)];
      if temp >= 0 {
        var codeLen := temp / 512;
        DecidesShort(lens, nodes, lookUp[..], tree[..], bitBuf, numBits);
        return codeLen != 0 && numBits >= codeLen;
      } else if numBits > 10 {
        var codeLen := 10;
        TreeWalk(lens, nodes, lookUp[..], tree[..], bitBuf, codeLen);
        temp := tree[-temp - 1 + Shr(bitBuf, codeLen) % 2];
        codeLen := codeLen + 1;
        while temp < 0 && numBits >= codeLen + 1
          invariant 10 <= codeLen <= numBits
          invariant temp < 0 ==> BitsOf(bitBuf, codeLen) in nodes && nodes[BitsOf(bitBuf, codeLen)] == temp
          invariant temp >= 0 ==> WalkEnds(lens, nodes, lookUp[..], bitBuf, codeLen, temp)
          invariant StopDepth(nodes, bitBuf, 10) == StopDepth(nodes, bitBuf, codeLen)
          decreases 15 - codeLen
        {
          TreeWalk(lens, nodes, lookUp[..], tree[..], bitBuf, codeLen);
          temp := tree[-temp - 1 + Shr(bitBuf, codeLen) % 2];
          codeLen := codeLen + 1;
        }
        DecidesLong(lens, nodes, lookUp[..], tree[..], bitBuf, numBits, codeLen);
        StopUnfolds(nodes, bitBuf, codeLen);
        return temp >= 0;
      } else {
        DecidesLong(lens, nodes, lookUp[..], tree[..], bitBuf, numBits, numBits);
        return false;
      }
    }

    method InsertShort(ghost lens: Lengths, sym: nat, size: nat, revCode: nat)
      requires Allocated() && Accepted(lens) && sym < |lens| && 0 < lens[sym] <= 10 && size == lens[sym]
      requires revCode == LeVal(Code(lens, sym))
      requires Holds(lens, sym, sym, nodes, lookUp[..], tree[..])
      modifies lookUp
      ensures Holds(lens, sym + 1, sym + 1, nodes, lookUp[..], tree[..])
    {
      hide Holds, Accepted, Code, Low, LeVal, Pow2;
      ghost var was, c := lookUp[..], Code(lens, sym);
      var k := size * 512 + sym;
      var rev := revCode;
      LowLeVal(c);
      forall i: nat ensures Low(i, size) <= i { LowAtMost(i, size); }
      while rev < FAST_LOOKUP_SIZE
        invariant Low(rev, size) == LeVal(c)
        invariant forall i | 0 <= i < FAST_LOOKUP_SIZE && i < rev ::
          lookUp[i] == if Low(i, size) == LeVal(c) then k else was[i]
        invariant forall i | 0 <= i < FAST_LOOKUP_SIZE && i >= rev :: lookUp[i] == was[i]
        decreases FAST_LOOKUP_SIZE - rev
      {
        lookUp[rev] := k;
        forall i | rev < i < rev + Pow2(size) ensures Low(i, size) != LeVal(c) { LowStride(rev, i, size); }
        LowStride(rev, rev, size);
        rev := rev + Pow2(size);
      }
      FillIsFilled(lens, sym, was, lookUp[..]);
      AcceptedFits(lens);
      AddShort(lens, sym, sym + 1, nodes, was, tree[..], lookUp[..]);
    }

    /** Walks the tree along the code, allocating missing nodes, and stores the symbol at its end. */
    method InsertLong(ghost lens: Lengths, sym: nat, size: nat, revCode: nat, next: int) returns (treeNext: int)
      requires Allocated() && Accepted(lens) && sym < |lens| && lens[sym] > 10 && size == lens[sym]
      requires revCode == LeVal(Code(lens, sym)) && next == NextNode(nodes)
      requires Holds(lens, sym, sym, nodes, lookUp[..], tree[..])
      modifies this, lookUp, tree
      ensures Holds(lens, sym + 1, sym + 1, nodes, lookUp[..], tree[..]) && treeNext == NextNode(nodes)
    {
      hide Holds, Accepted, Code, Low, LeVal, Shr;
      ghost var c := Code(lens, sym);
      AcceptedFits(lens);
      HoldsMore(lens, sym, nodes, lookUp[..], tree[..]);
      var treeCur;
      treeCur, treeNext := RootNode(lens, sym, revCode, next);
      var rev := Shr(revCode, 9);
      var j := size;
      ghost var d := 10;
      while j > 11
        invariant 11 <= j <= size && d == 10 + size - j
        invariant rev == Shr(revCode, d - 1)
        invariant Holds(lens, sym, sym + 1, nodes, lookUp[..], tree[..]) && treeNext == NextNode(nodes)
        invariant c[..d] in nodes && treeCur == nodes[c[..d]]
      {
        ShrStep(revCode, d - 1);
        BranchBit(c, d);
        rev := rev / 2;
        treeCur, treeNext := ChildNode(lens, sym, c, d, treeCur - rev % 2, treeNext);
        j, d := j - 1, d + 1;
      }
      ShrStep(revCode, d - 1);
      BranchBit(c, d);
      assert Parent(c) == c[..d];
      AddLeaf(lens, sym, nodes, lookUp[..], tree[..]);
      rev := rev / 2;
      tree[-(treeCur - rev % 2) - 1] := sym;
    }

    method RootNode(ghost lens: Lengths, sym: nat, revCode: nat, next: int) returns (treeCur: int, treeNext: int)
      requires Allocated() && Accepted(lens) && sym < |lens| && lens[sym] > 10
      requires revCode == LeVal(Code(lens, sym)) && next == NextNode(nodes)
      requires Holds(lens, sym, sym + 1, nodes, lookUp[..], tree[..])
      modifies this, lookUp
      ensures Holds(lens, sym, sym + 1, nodes, lookUp[..], tree[..]) && treeNext == NextNode(nodes)
      ensures var q := Code(lens, sym)[..10]; q in nodes && treeCur == nodes[q]
    {
      hide Accepted, Code, Low, LeVal, Linked, Leaves, LongCodes, Lookup, Shape, Within, Grounded;
      ghost var q := Code(lens, sym)[..10];
      AcceptedFits(lens);
      RootIndex(lens, sym, nodes, lookUp[..], tree[..]);
      WithinSelf(lens, sym, 10);
      var i := Low(revCode, 10);
      treeCur, treeNext := lookUp[i], next;
      if treeCur == 0 {
        RoomForNode(lens, sym + 1, nodes, tree[..], q);
        AddRoot(lens, sym, nodes, lookUp[..], tree[..], q);
        GrowKeys(nodes, q);
        lookUp[i] := treeNext;
        nodes := nodes[q := treeNext];
        treeCur := treeNext;
        treeNext := treeNext - 2;
      }
    }

    method ChildNode(ghost lens: Lengths, sym: nat, ghost c: bits, ghost d: nat, slot: int, next: int)
      returns (treeCur: int, treeNext: int)
      requires Allocated() && Accepted(lens) && sym < |lens| && c == Code(lens, sym) && 10 <= d && d + 1 < lens[sym]
      requires Holds(lens, sym, sym + 1, nodes, lookUp[..], tree[..]) && next == NextNode(nodes)
      requires c[..d] in nodes && slot == nodes[c[..d]] - Bit(c[d])
      modifies this, tree
      ensures Holds(lens, sym, sym + 1, nodes, lookUp[..], tree[..]) && treeNext == NextNode(nodes)
      ensures c[..d + 1] in nodes && treeCur == nodes[c[..d + 1]]
    {
      hide Accepted, Code, Linked, Leaves, LongCodes, Lookup, Shape, Within, Grounded;
      ghost var p, q := c[..d], c[..d + 1];
      assert q == p + [c[d]];
      WithinSelf(lens, sym, d + 1);
      AcceptedFits(lens);
      SlotInRange(nodes, tree[..], p, c[d]);
      ChildSlot(lens, sym, nodes, lookUp[..], tree[..], p, c[d]);
      treeCur, treeNext := tree[-slot - 1], next;
      if treeCur == 0 {
        RoomForNode(lens, sym + 1, nodes, tree[..], q);
        AddNode(lens, sym, nodes, lookUp[..], tree[..], p, c[d]);
        GrowKeys(nodes, q);
        tree[-slot - 1] := treeNext;
        nodes := nodes[q := treeNext];
        treeCur := treeNext;
        treeNext := treeNext - 2;
      }
    }
  }

  lemma WithinSelf(lens: Lengths, n: nat, d: nat)
    requires n < |lens| && d < lens[n]
    ensures Within(lens, n + 1, Code(lens, n)[..d])
  {
  }

  lemma {:induction false} LowAtMost(v: nat, n: nat)
    ensures Low(v, n) <= v
  {
    if n > 0 { LowAtMost(v / 2, n - 1); }
  }

  lemma LowLeVal(c: bits)
    ensures Low(LeVal(c), |c|) == LeVal(c)
  {
    BitsOfLeVal(c);
    BitsOfSplit(LeVal(c), |c|, |c|);
    assert c[..|c|] == c;
  }

  /** The root entry on a long code's path is empty or its node. */
  lemma RootIndex(lens: Lengths, n: nat, at: Nodes, lk: seq<int>, tr: seq<int>)
    requires Shape(at, tr) && Fits(lens) && n < |lens| && lens[n] > 10 && Lookup(lens, n, at, lk)
    ensures var q := Code(lens, n)[..10];
      var i := Low(LeVal(Code(lens, n)), 10);
      i == LeVal(q) < FAST_LOOKUP_SIZE && (if q in at then lk[i] == at[q] < 0 else lk[i] == 0)
  {
    var c := Code(lens, n);
    var q := c[..10];
    BitsOfLeVal(c);
    BitsOfSplit(LeVal(c), |c|, 10);
    LeValBound(q);
    Pow2Facts();
    BitsOfLeVal(q);
    assert EntryOk(lens, n, at, LeVal(q), lk[LeVal(q)]);
    NotACode(lens, n, q);
  }

  lemma ChildSlot(lens: Lengths, n: nat, at: Nodes, lk: seq<int>, tr: seq<int>, p: bits, b: bool)
    requires Fits(lens) && n < |lens| && Holds(lens, n, n + 1, at, lk, tr)
    requires p in at && |p| + 1 < lens[n] && p + [b] <= Code(lens, n)
    ensures 0 <= Slot(at[p], b) < TREE_SIZE
    ensures var q := p + [b]; if q in at then tr[Slot(at[p], b)] == at[q] < 0 else tr[Slot(at[p], b)] == 0
  {
    var q := p + [b];
    SlotInRange(at, tr, p, b);
    NotACode(lens, n, q);
    assert Parent(q) == p;
    if q in at { assert LinkedAt(at, tr, q); } else { assert LeafAt(lens, n, at, tr, p, b); }
  }

  lemma EmptyHolds(lens: Lengths, lk: seq<int>, tr: seq<int>)
    requires |lens| <= MAX_SYMBOLS && |lk| == FAST_LOOKUP_SIZE && |tr| == TREE_SIZE
    requires (forall i | 0 <= i < |lk| :: lk[i] == 0) && (forall i | 0 <= i < |tr| :: tr[i] == 0)
    ensures Holds(lens, 0, 0, map[], lk, tr)
  {
  }

  lemma CodeUnfolds(lens: Lengths, s: nat)
    requires s < |lens|
    ensures Code(lens, s) == BeBits(First(lens, lens[s]) + Count(lens, s, lens[s]), lens[s])
  {
    hide First, Count, BeBits;
  }

  lemma CountNext(lens: Lengths, n: nat, l: nat)
    requires n < |lens|
    ensures Count(lens, n + 1, l) == Count(lens, n, l) + if lens[n] == l then 1 else 0
  {
  }

  // ----- decoding

  /** The depth, from `d` on, at which the walk along the bits of `v` leaves the tree. */
  ghost function StopDepth(at: Nodes, v: nat, d: nat): nat
    decreases 15 - d
  {
    if d >= 15 || BitsOf(v, d) !in at then d else StopDepth(at, v, d + 1)
  }

  /** The code length that decoding `v` reports. */
  ghost function StopLength(at: Nodes, lk: seq<int>, v: nat): nat
    requires |lk| == FAST_LOOKUP_SIZE
  {
    LowTen(v);
    if lk[Low(v, 10)] >= 0 then lk[Low(v, 10)] / 512 else StopDepth(at, v, 10)
  }

  lemma LowTen(v: nat)
    ensures Low(v, 10) < FAST_LOOKUP_SIZE
  {
    Pow2Facts();
  }

  /** No symbol but `sym`, with a code of `len` bits, is next in `v`. */
  ghost predicate Determines(lens: Lengths, v: nat, sym: int, len: nat)
  {
    forall s: nat, n: nat | NextIn(lens, s, v, n) :: sym == s && s < |lens| && len == lens[s]
  }

  /** Symbol `s` is next in the low `n` bits of `v`. */
  ghost predicate NextIn(lens: Lengths, s: nat, v: nat, n: nat)
  {
    IsNext(lens, s, BitsOf(v, n))
  }

  /** The walk ended at depth `d` with symbol `sym`; no other symbol can be next in `v`. */
  ghost predicate WalkEnds(lens: Lengths, at: Nodes, lk: seq<int>, v: nat, d: nat, sym: int)
  {
    && 0 <= sym && (sym < |lens| || sym == 0)
    && BitsOf(v, d) !in at
    && Determines(lens, v, sym, d)
  }

  lemma BitsOfStep(v: nat, n: nat)
    ensures BitsOf(v, n + 1) == BitsOf(v, n) + [Shr(v, n) % 2 == 1]
  {
    BitsOfSplit(v, n + 1, n);
    BitsOfLow(v, n);
    assert BitsOf(Shr(v, n), 1) == [Shr(v, n) % 2 == 1];
    assert BitsOf(v, n + 1) == BitsOf(v, n + 1)[..n] + BitsOf(v, n + 1)[n..];
  }

  lemma {:induction false} BitsOfLow(v: nat, n: nat)
    ensures BitsOf(Low(v, n), n) == BitsOf(v, n)
  {
    if n > 0 {
      BitsOfLow(v / 2, n - 1);
      assert Low(v, n) / 2 == Low(v / 2, n - 1) && Low(v, n) % 2 == v % 2;
    }
  }

  lemma BitsOfPrefix(v: nat, n: nat, k: nat)
    requires k <= n
    ensures BitsOf(v, n)[..k] == BitsOf(v, k)
  {
    BitsOfSplit(v, n, k);
    BitsOfLow(v, k);
  }

  /** A code that is next is read off the value itself. */
  lemma NextReads(lens: Lengths, s: nat, v: nat, n: nat)
    requires IsNext(lens, s, BitsOf(v, n))
    ensures lens[s] <= n && Code(lens, s) == BitsOf(v, lens[s])
  {
    BitsOfPrefix(v, n, lens[s]);
  }

  ghost predicate TablesOk(lens: Lengths, at: Nodes, lk: seq<int>, tr: seq<int>)
  {
    Accepted(lens) && Holds(lens, |lens|, |lens|, at, lk, tr)
  }

  /** Every prefix of a long code, from ten bits on, is a node. */
  lemma {:induction false} PrefixesAreNodes(lens: Lengths, at: Nodes, lk: seq<int>, tr: seq<int>, s: nat, d: nat)
    requires TablesOk(lens, at, lk, tr) && s < |lens| && 10 <= d < lens[s]
    ensures Code(lens, s)[..d] in at
    decreases lens[s] - d
  {
    hide Code, Leaves, Lookup, Within, Accepted;
    var c := Code(lens, s);
    assert LongCode(lens, s, at, tr);
    if d == lens[s] - 1 {
      assert Parent(c) == c[..d];
    } else {
      PrefixesAreNodes(lens, at, lk, tr, s, d + 1);
      assert LinkedAt(at, tr, c[..d + 1]);
      assert Parent(c[..d + 1]) == c[..d];
    }
  }

  /** A symbol that is next in `v` and longer than `d` keeps the walk inside the tree. */
  lemma LongNextInTree(lens: Lengths, at: Nodes, lk: seq<int>, tr: seq<int>, s: nat, v: nat, n: nat, d: nat)
    requires TablesOk(lens, at, lk, tr) && IsNext(lens, s, BitsOf(v, n)) && 10 <= d < lens[s]
    ensures BitsOf(v, d) in at
  {
    NextReads(lens, s, v, n);
    PrefixesAreNodes(lens, at, lk, tr, s, d);
    BitsOfPrefix(v, lens[s], d);
  }

  lemma EntryFacts(lens: Lengths, at: Nodes, lk: seq<int>, tr: seq<int>, v: nat)
    requires TablesOk(lens, at, lk, tr)
    ensures Low(v, 10) < FAST_LOOKUP_SIZE
    ensures lk[Low(v, 10)] < 0 ==> BitsOf(v, 10) in at && at[BitsOf(v, 10)] == lk[Low(v, 10)]
    ensures lk[Low(v, 10)] >= 0 ==> var e := lk[Low(v, 10)];
      e / 512 <= 10 && (e % 512 < |lens| || e == 0) && (e / 512 == 0 ==> e == 0)
        && Determines(lens, v, e % 512, e / 512)
  {
    hide Code, BitsOf, Low, Leaves, Linked, Shape, LongCodes, Grounded, EntryOk, Accepted, ShortCode;
    LowTen(v);
    BitsOfLow(v, 10);
    var e := lk[Low(v, 10)];
    EntrySplits(lens, at, lk, tr, Low(v, 10));
    if e >= 0 {
      forall s: nat, n: nat | NextIn(lens, s, v, n) ensures e % 512 == s && s < |lens| && e / 512 == lens[s] {
        EntryOfNext(lens, at, lk, tr, v, s, n);
        EntryParts(lens, s);
      }
    }
  }

  lemma EntryParts(lens: Lengths, s: nat)
    requires s < |lens| && s < 512
    ensures Entry(lens, s) % 512 == s && Entry(lens, s) / 512 == lens[s]
  {
  }

  lemma EntrySplits(lens: Lengths, at: Nodes, lk: seq<int>, tr: seq<int>, i: nat)
    requires TablesOk(lens, at, lk, tr) && i < FAST_LOOKUP_SIZE
    ensures var e := lk[i];
      if e < 0 then BitsOf(i, 10) in at && at[BitsOf(i, 10)] == e
      else e > 0 ==> var s := e % 512;
        s < |lens| && 0 < lens[s] <= 10 && e / 512 == lens[s] && Code(lens, s) <= BitsOf(i, 10)
  {
    hide Code, BitsOf, Leaves, Linked, Shape, LongCodes, Grounded, ShortCode;
    assert EntryOk(lens, |lens|, at, i, lk[i]);
  }

  lemma EntryOfNext(lens: Lengths, at: Nodes, lk: seq<int>, tr: seq<int>, v: nat, s: nat, n: nat)
    requires TablesOk(lens, at, lk, tr) && IsNext(lens, s, BitsOf(v, n))
    requires Low(v, 10) < FAST_LOOKUP_SIZE && lk[Low(v, 10)] >= 0
    ensures lk[Low(v, 10)] == Entry(lens, s) && s < 512 && lens[s] <= 10
  {
    hide Code, BitsOf, Low, Leaves, Linked, LongCodes, Grounded;
    var i := Low(v, 10);
    BitsOfLow(v, 10);
    NextReads(lens, s, v, n);
    if lens[s] > 10 {
      LongNextInTree(lens, at, lk, tr, s, v, n, 10);
      BitsOfInverse(i, 10);
      LowTwice(v, 10);
    } else {
      BitsOfPrefix(v, 10, lens[s]);
      assert ShortCode(lens, s, lk);
    }
  }

  lemma BitsOfInverse(v: nat, n: nat)
    ensures LeVal(BitsOf(v, n)) == Low(v, n)
  {
    BitsOfSplit(v, n, n);
    assert BitsOf(v, n)[..n] == BitsOf(v, n);
  }

  lemma {:induction false} LowTwice(v: nat, n: nat)
    ensures Low(Low(v, n), n) == Low(v, n)
  {
    if n > 0 {
      LowTwice(v / 2, n - 1);
      assert Low(v, n) / 2 == Low(v / 2, n - 1) && Low(v, n) % 2 == v % 2;
    }
  }

  /** One step of the walk: to the child node, or out of the tree at the right symbol. */
  lemma TreeWalk(lens: Lengths, at: Nodes, lk: seq<int>, tr: seq<int>, v: nat, d: nat)
    requires TablesOk(lens, at, lk, tr) && d >= 10 && BitsOf(v, d) in at
    ensures d <= 14
    ensures 0 <= -at[BitsOf(v, d)] - 1 + Shr(v, d) % 2 < TREE_SIZE
    ensures var i := -at[BitsOf(v, d)] - 1 + Shr(v, d) % 2;
      if tr[i] < 0 then BitsOf(v, d + 1) in at && at[BitsOf(v, d + 1)] == tr[i] && d + 1 <= 14
      else WalkEnds(lens, at, lk, v, d + 1, tr[i])
    ensures StopDepth(at, v, d) == StopDepth(at, v, d + 1)
  {
    hide Code, BitsOf, Shr, Lookup, LongCodes, Within, Accepted, StopDepth;
    var p, b, q := BitsOf(v, d), Shr(v, d) % 2 == 1, BitsOf(v, d + 1);
    BitsOfStep(v, d);
    assert q == p + [b];
    SlotInRange(at, tr, p, b);
    StopUnfolds(at, v, d);
    if q in at {
      assert LinkedAt(at, tr, q);
      assert Parent(q) == p;
    } else {
      assert LeafAt(lens, |lens|, at, tr, p, b);
      forall s: nat, n: nat | NextIn(lens, s, v, n) ensures tr[Slot(at[p], b)] == s && s < |lens| && d + 1 == lens[s] {
        WalkEndsAt(lens, at, lk, tr, v, d, s, n);
      }
      assert Determines(lens, v, tr[Slot(at[p], b)], d + 1);
    }
  }

  lemma StopUnfolds(at: Nodes, v: nat, d: nat)
    requires d <= 15
    ensures BitsOf(v, d) in at && d < 15 ==> StopDepth(at, v, d) == StopDepth(at, v, d + 1)
    ensures BitsOf(v, d) !in at || d == 15 ==> StopDepth(at, v, d) == d
  {
  }

  lemma WalkEndsAt(lens: Lengths, at: Nodes, lk: seq<int>, tr: seq<int>, v: nat, d: nat, s: nat, n: nat)
    requires TablesOk(lens, at, lk, tr) && 10 <= d <= 14 && BitsOf(v, d) in at && BitsOf(v, d + 1) !in at
    requires IsNext(lens, s, BitsOf(v, n))
    ensures d + 1 == lens[s]
    ensures var i := Slot(at[BitsOf(v, d)], Shr(v, d) % 2 == 1); 0 <= i < TREE_SIZE && tr[i] == s
  {
    hide Code, BitsOf, Shr, Lookup, Linked, Leaves, Accepted, Within;
    NextReads(lens, s, v, n);
    BitsOfStep(v, d);
    SlotInRange(at, tr, BitsOf(v, d), Shr(v, d) % 2 == 1);
    NotBelowCode(lens, at, lk, tr, v, d, s);
    if lens[s] > d + 1 { LongNextInTree(lens, at, lk, tr, s, v, n, d + 1); }
    assert LongCode(lens, s, at, tr);
    assert Parent(Code(lens, s)) == BitsOf(v, d);
  }

  /** A node never lies at or below the end of a code. */
  lemma NotBelowCode(lens: Lengths, at: Nodes, lk: seq<int>, tr: seq<int>, v: nat, d: nat, s: nat)
    requires TablesOk(lens, at, lk, tr) && BitsOf(v, d) in at && Uses(lens, s)
    ensures !(lens[s] <= d && Code(lens, s) == BitsOf(v, lens[s]))
  {
    hide Code, BitsOf, Lookup, Linked, Leaves, LongCodes, Accepted;
    assert Within(lens, |lens|, BitsOf(v, d));
    var t :| 0 <= t < |lens| && d < lens[t] && BitsOf(v, d) <= Code(lens, t);
    AcceptedFits(lens);
    if lens[s] <= d && Code(lens, s) == BitsOf(v, lens[s]) {
      BitsOfPrefix(v, d, lens[s]);
      PrefixFree(lens, s, t);
    }
  }

  lemma DecidesShort(lens: Lengths, at: Nodes, lk: seq<int>, tr: seq<int>, v: nat, n: nat)
    requires TablesOk(lens, at, lk, tr) && Low(v, 10) < FAST_LOOKUP_SIZE && lk[Low(v, 10)] >= 0
    ensures var codeLen := lk[Low(v, 10)] / 512;
      if codeLen != 0 && n >= codeLen then forall s: nat, x :: IsNext(lens, s, BitsOf(v, n) + x) ==> lens[s] <= n
      else forall s: nat :: !IsNext(lens, s, BitsOf(v, n))
  {
    hide Code, BitsOf, Low, Leaves, Linked, LongCodes, Shape, Grounded, EntryOk, ShortCode, Accepted;
    EntryFacts(lens, at, lk, tr, v);
    var e := lk[Low(v, 10)];
    if e / 512 != 0 && n >= e / 512 {
      forall s: nat, x | IsNext(lens, s, BitsOf(v, n) + x) ensures lens[s] <= n {
        ShortIsNext(lens, at, lk, tr, v, n, s, x);
      }
    } else {
      forall s: nat ensures !IsNext(lens, s, BitsOf(v, n)) {
        if IsNext(lens, s, BitsOf(v, n)) {
          NextReads(lens, s, v, n);
          EntryOfNext(lens, at, lk, tr, v, s, n);
          EntryParts(lens, s);
        }
      }
    }
  }

  lemma ShortIsNext(lens: Lengths, at: Nodes, lk: seq<int>, tr: seq<int>, v: nat, n: nat, s: nat, x: bits)
    requires TablesOk(lens, at, lk, tr) && Low(v, 10) < FAST_LOOKUP_SIZE && lk[Low(v, 10)] > 0
    requires n >= lk[Low(v, 10)] / 512 && IsNext(lens, s, BitsOf(v, n) + x)
    ensures lens[s] <= n
  {
    hide Code, BitsOf, Low, Leaves, Linked, LongCodes, Shape, Grounded, EntryOk, ShortCode, Accepted;
    EntrySplits(lens, at, lk, tr, Low(v, 10));
    var t := lk[Low(v, 10)] % 512;
    BitsOfLow(v, 10);
    BitsOfPrefix(v, 10, lens[t]);
    BitsOfPrefix(v, n, lens[t]);
    AcceptedFits(lens);
    assert BitsOf(v, n)[..lens[t]] == (BitsOf(v, n) + x)[..lens[t]];
    NextIsUnique(lens, s, t, BitsOf(v, n) + x);
  }

  /** Inside the tree at depth `d <= n`: only a symbol longer than `n` can still be next. */
  lemma DecidesLong(lens: Lengths, at: Nodes, lk: seq<int>, tr: seq<int>, v: nat, n: nat, d: nat)
    requires TablesOk(lens, at, lk, tr) && n < 15 && d <= n
    requires Low(v, 10) < FAST_LOOKUP_SIZE && lk[Low(v, 10)] < 0
    ensures d > 10 && BitsOf(v, d) !in at ==> forall s: nat, x :: IsNext(lens, s, BitsOf(v, n) + x) ==> lens[s] <= n
    ensures d == n && (d <= 10 || BitsOf(v, d) in at) ==> forall s: nat :: !IsNext(lens, s, BitsOf(v, n))
  {
    hide Code, BitsOf, Low, Leaves, Linked, LongCodes, Shape, Grounded, Lookup, Accepted;
    if d > 10 && BitsOf(v, d) !in at {
      forall s: nat, x | IsNext(lens, s, BitsOf(v, n) + x) ensures lens[s] <= n {
        if lens[s] > n { LongerPassesThrough(lens, at, lk, tr, v, n, d, s, x); }
      }
    }
    if d == n && (d <= 10 || BitsOf(v, d) in at) {
      forall s: nat ensures !IsNext(lens, s, BitsOf(v, n)) {
        NodeHidesNext(lens, at, lk, tr, v, n, s);
      }
    }
  }

  lemma LongerPassesThrough(lens: Lengths, at: Nodes, lk: seq<int>, tr: seq<int>, v: nat, n: nat, d: nat, s: nat,
                            x: bits)
    requires TablesOk(lens, at, lk, tr) && 10 < d <= n < 15
    requires IsNext(lens, s, BitsOf(v, n) + x) && lens[s] > n
    ensures BitsOf(v, d) in at
  {
    hide BitsOf, Leaves, Linked, LongCodes, Shape, Grounded, Lookup, Accepted;
    PrefixesAreNodes(lens, at, lk, tr, s, d);
    BitsOfPrefix(v, n, d);
    assert Code(lens, s)[..d] == (BitsOf(v, n) + x)[..d] == BitsOf(v, n)[..d];
  }

  lemma NodeHidesNext(lens: Lengths, at: Nodes, lk: seq<int>, tr: seq<int>, v: nat, n: nat, s: nat)
    requires TablesOk(lens, at, lk, tr) && Low(v, 10) < FAST_LOOKUP_SIZE && lk[Low(v, 10)] < 0
    requires n <= 10 || BitsOf(v, n) in at
    ensures !IsNext(lens, s, BitsOf(v, n))
  {
    hide Code, BitsOf, Low, Leaves, Linked, LongCodes, Shape, Grounded, Lookup, Accepted;
    EntryFacts(lens, at, lk, tr, v);
    if IsNext(lens, s, BitsOf(v, n)) {
      NextReads(lens, s, v, n);
      NotBelowCode(lens, at, lk, tr, v, if n <= 10 then 10 else n, s);
    }
  }
}
