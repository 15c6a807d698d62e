/** `table.sort`: quicksort in place with median of three and sentinels. Positions count from zero here. */
module TableSort {
  import opened Numbers

  // ----- orders

  /** The comparison gets the number of the call, so that it may answer differently every time. */
  type Comparison<!T> = (nat, T, T) -> bool

  /** A strict weak order that does not depend on when it is asked. */
  ghost predicate StrictWeak<T(!new)>(lt: Comparison<T>)
  {
    && (forall n, m, x, y :: lt(n, x, y) == lt(m, x, y))
    && (forall x, y :: lt(0, x, y) ==> !lt(0, y, x))
    && (forall x, y, z :: !lt(0, x, y) && !lt(0, y, z) ==> !lt(0, x, z))
  }

  predicate Le<T>(lt: Comparison<T>, x: T, y: T) { !lt(0, y, x) }

  ghost predicate Sorted<T>(lt: Comparison<T>, s: seq<T>, l: int, u: int)
    requires 0 <= l && u < |s|
  {
    forall x, y | l <= x < y <= u :: Le(lt, s[x], s[y])
  }

  /** Positions `l` to `u` hold the same elements in another order; everything else is as before. */
  ghost predicate Shuffled<T>(s: seq<T>, t: seq<T>, l: int, u: int)
  {
    && |s| == |t| && multiset(s) == multiset(t)
    && forall k | 0 <= k < |s| && !(l <= k <= u) :: s[k] == t[k]
  }

  /** What is found in the segment afterwards was somewhere in it before. */
  lemma Segment<T>(s: seq<T>, t: seq<T>, l: nat, u: nat, y: nat) returns (x: nat)
    requires Shuffled(s, t, l, u) && l <= y <= u < |s|
    ensures l <= x <= u && s[x] == t[y]
  {
    hide Shuffled;
    SameOutside(s, t, l, u);
    SameSegment(s, t, l, u, t[y]);
    assert t[y] == t[l..u + 1][y - l];
    var i :| 0 <= i < u + 1 - l && s[l..u + 1][i] == t[y];
    x := l + i;
  }

  lemma SameSegment<T>(s: seq<T>, t: seq<T>, l: nat, u: nat, e: T)
    requires Shuffled(s, t, l, u) && l <= u < |s|
    ensures |t| == |s| && (e in s[l..u + 1] <==> e in t[l..u + 1])
  {
    hide Shuffled;
    SameOutside(s, t, l, u);
    Parts(s, l, u + 1);
    Parts(t, l, u + 1);
    SameMiddle(multiset(s[..l]), multiset(s[l..u + 1]), multiset(t[l..u + 1]), multiset(s[u + 1..]), e);
  }

  lemma SameOutside<T>(s: seq<T>, t: seq<T>, l: nat, u: nat)
    requires Shuffled(s, t, l, u) && l <= u < |s|
    ensures |t| == |s| && multiset(s) == multiset(t) && s[..l] == t[..l] && s[u + 1..] == t[u + 1..]
  {
  }

  lemma SameMiddle<T>(p: multiset<T>, a: multiset<T>, b: multiset<T>, q: multiset<T>, e: T)
    requires p + a + q == p + b + q
    ensures e in a <==> e in b
  {
    assert (p + a + q)[e] == p[e] + a[e] + q[e];
    assert (p + b + q)[e] == p[e] + b[e] + q[e];
  }

  lemma Parts<T>(s: seq<T>, l: nat, u: nat)
    requires l <= u <= |s|
    ensures multiset(s) == multiset(s[..l]) + multiset(s[l..u]) + multiset(s[u..])
  {
    assert s == s[..l] + (s[l..u] + s[u..]);
  }

  lemma ShuffledTrans<T>(s: seq<T>, t: seq<T>, r: seq<T>, l: int, u: int, l': int, u': int)
    requires Shuffled(s, t, l, u) && Shuffled(t, r, l', u') && l <= l' && u' <= u
    ensures Shuffled(s, r, l, u)
  {
  }

  function Swapped<T>(s: seq<T>, i: nat, j: nat): seq<T>
    requires i < |s| && j < |s|
  {
    s[i := s[j]][j := s[i]]
  }

  lemma SwapShuffles<T>(s: seq<T>, i: nat, j: nat, l: int, u: int)
    requires l <= i <= u && l <= j <= u && i < |s| && j < |s|
    ensures Shuffled(s, Swapped(s, i, j), l, u)
  {
  }

  lemma NotShuffled<T>(s: seq<T>, l: int, u: int)
    ensures Shuffled(s, s, l, u)
  {
  }

  /** Comparing three elements, each pair either way. */
  lemma ThreeInOrder<T(!new)>(lt: Comparison<T>, x: T, y: T, z: T)
    requires StrictWeak(lt)
    ensures (lt(0, x, y) ==> Le(lt, x, y)) && (lt(0, y, x) ==> Le(lt, y, x)) && (lt(0, x, z) ==> Le(lt, x, z))
    ensures (lt(0, z, x) ==> Le(lt, z, x)) && (lt(0, y, z) ==> Le(lt, y, z)) && (lt(0, z, y) ==> Le(lt, z, y))
    ensures (Le(lt, x, y) && Le(lt, y, z) ==> Le(lt, x, z)) && (Le(lt, x, z) && Le(lt, z, y) ==> Le(lt, x, y))
    ensures (Le(lt, y, x) && Le(lt, x, z) ==> Le(lt, y, z)) && (Le(lt, y, z) && Le(lt, z, x) ==> Le(lt, y, x))
    ensures (Le(lt, z, x) && Le(lt, x, y) ==> Le(lt, z, y)) && (Le(lt, z, y) && Le(lt, y, x) ==> Le(lt, z, x))
  {
  }

  // ----- what the outer loop keeps

  /** Every pair of positions in `l0..u0` that does not lie within `l..u` is in order. */
  ghost predicate Split<T>(lt: Comparison<T>, s: seq<T>, l0: int, u0: int, l: int, u: int)
    requires 0 <= l0 && u0 < |s|
  {
    forall x, y | l0 <= x < y <= u0 && !(l <= x && y <= u) :: Le(lt, s[x], s[y])
  }

  /** Reordering the part that is still open does not disturb the pairs that are in order. */
  lemma ShuffleKeepsSplit<T>(lt: Comparison<T>, s: seq<T>, t: seq<T>, l0: nat, u0: int, l: nat, u: int)
    requires l0 <= l && u <= u0 < |s| && Shuffled(s, t, l, u) && Split(lt, s, l0, u0, l, u)
    ensures Split(lt, t, l0, u0, l, u)
  {
    forall x, y | l0 <= x < y <= u0 && !(l <= x && y <= u) ensures Le(lt, t[x], t[y]) {
      var x', y' := x, y;
      if l <= x <= u { x' := Segment(s, t, l, u, x); }
      if l <= y <= u { y' := Segment(s, t, l, u, y); }
      assert Le(lt, s[x'], s[y']);
    }
  }

  /** A pivot at `i` divides the open part into two. */
  ghost predicate Divides<T>(lt: Comparison<T>, s: seq<T>, l: int, u: int, i: int)
    requires 0 <= l <= i <= u < |s|
  {
    && (forall x | l <= x < i :: Le(lt, s[x], s[i]))
    && (forall y | i < y <= u :: Le(lt, s[i], s[y]))
  }

  /** After one half is sorted, what is open is the other half. */
  lemma HalfSorted<T(!new)>(lt: Comparison<T>, s: seq<T>, l0: nat, u0: int, l: nat, u: int, i: int, lower: bool)
    requires StrictWeak(lt) && l0 <= l <= i <= u <= u0 < |s| && Split(lt, s, l0, u0, l, u) && Divides(lt, s, l, u, i)
    requires if lower then Sorted(lt, s, l, i - 1) else Sorted(lt, s, i + 1, u)
    ensures if lower then Split(lt, s, l0, u0, i + 1, u) else Split(lt, s, l0, u0, l, i - 1)
  {
  }

  lemma ShuffleKeepsDivides<T>(lt: Comparison<T>, s: seq<T>, t: seq<T>, l: nat, u: int, i: int, lower: bool)
    requires l <= i <= u < |s| && Divides(lt, s, l, u, i)
      && if lower then Shuffled(s, t, l, i - 1) else Shuffled(s, t, i + 1, u)
    ensures Divides(lt, t, l, u, i)
  {
    forall x | l <= x < i ensures Le(lt, t[x], t[i]) {
      if lower {
        var x' := Segment(s, t, l, i - 1, x);
        assert Le(lt, s[x'], s[i]);
      }
    }
    forall y | i < y <= u ensures Le(lt, t[i], t[y]) {
      if !lower {
        var y' := Segment(s, t, i + 1, u, y);
        assert Le(lt, s[i], s[y']);
      }
    }
  }

  class Sorter<T(==,!new)> {
    const a: array<T>
    const lt: Comparison<T>
    var calls: nat

    constructor (a: array<T>, lt: Comparison<T>)
      ensures this.a == a && this.lt == lt
    {
      this.a, this.lt, calls := a, lt, 0;
    }

    /** `sort_comp`. */
    method Compare(x: T, y: T) returns (r: bool)
      modifies this
      ensures StrictWeak(lt) ==> r == lt(0, x, y)
    {
      r := lt(calls, x, y);
      calls := calls + 1;
    }

    /** `set2` after both elements were fetched: swaps them. */
    method Swap(i: nat, j: nat, ghost l: int, ghost u: int)
      requires l <= i <= u && l <= j <= u && i < a.Length && j < a.Length
      modifies a
      ensures a[..] == old(Swapped(a[..], i, j)) && Shuffled(old(a[..]), a[..], l, u)
      ensures a[i] == old(a[j]) && a[j] == old(a[i])
        && forall k | 0 <= k < a.Length && k != i && k != j :: a[k] == old(a[k])
    {
      SwapShuffles(a[..], i, j, l, u);
      a[i], a[j] := a[j], a[i];
    }

    /** Sorts the first, the middle and the last element. */
    method MedianOfThree(l: nat, u: nat) returns (i: nat)
      requires l < u < a.Length
      modifies this, a
      ensures Shuffled(old(a[..]), a[..], l, u) && i == (l + u) / 2
      ensures StrictWeak(lt) ==> Le(lt, a[l], a[u]) && (u - l > 1 ==> Le(lt, a[l], a[i]) && Le(lt, a[i], a[u]))
    {
      hide StrictWeak, Shuffled, Swapped;
      ghost var s0 := a[..];
      i := (l + u) / 2;
      ghost var y := a[i];
      if StrictWeak(lt) { ThreeInOrder(lt, a[l], y, a[u]); }
      var c := Compare(a[u], a[l]);
      if c { Swap(l, u, l, u); } else { NotShuffled(s0, l, u); }
      assert StrictWeak(lt) ==> Le(lt, a[l], a[u]);
      if u - l == 1 { return; }
      assert a[i] == y;
      ghost var s1 := a[..];
      c := Compare(a[i], a[l]);
      if c {
        Swap(i, l, l, u);
      } else {
        c := Compare(a[u], a[i]);
        if c { Swap(i, u, l, u); } else { NotShuffled(s1, l, u); }
      }
      ShuffledTrans(s0, s1, a[..], l, u, l, u);
    }

    /** `++i` until `a[i] >= p`; an element beyond the last one that is smaller shows an invalid order. */
    method ScanUp(p: T, i0: nat, l: nat, u: nat) returns (ok: bool, i: nat)
      requires l <= i0 < u < a.Length
      modifies this
      ensures i0 < i <= u
      ensures ok && StrictWeak(lt) ==> !lt(0, a[i], p) && forall k | i0 < k < i :: lt(0, a[k], p)
      ensures StrictWeak(lt) && (exists k | i0 < k <= u :: !lt(0, a[k], p)) ==>
        ok && forall k | i0 < k <= u && !lt(0, a[k], p) :: i <= k
    {
      i := i0 + 1;
      var c := Compare(a[i], p);
      while c
        invariant i0 < i <= u
        invariant StrictWeak(lt) ==> (c <==> lt(0, a[i], p)) && forall k | i0 < k < i :: lt(0, a[k], p)
        decreases u - i, c
      {
        if i >= u { return false, i; }
        i := i + 1;
        c := Compare(a[i], p);
      }
      return true, i;
    }

    /** `--j` until `a[j] <= p`. */
    method ScanDown(p: T, j0: nat, l: nat, u: nat) returns (ok: bool, j: nat)
      requires l < j0 <= u < a.Length
      modifies this
      ensures l <= j < j0
      ensures ok && StrictWeak(lt) ==> !lt(0, p, a[j]) && forall k | j < k < j0 :: lt(0, p, a[k])
      ensures StrictWeak(lt) && (exists k | l <= k < j0 :: !lt(0, p, a[k])) ==>
        ok && forall k | l <= k < j0 && !lt(0, p, a[k]) :: k <= j
    {
      j := j0 - 1;
      var c := Compare(p, a[j]);
      while c
        invariant l <= j < j0
        invariant StrictWeak(lt) ==> (c <==> lt(0, p, a[j])) && forall k | j < k < j0 :: lt(0, p, a[k])
        decreases j, c
      {
        if j <= l { return false, j; }
        j := j - 1;
        c := Compare(p, a[j]);
      }
      return true, j;
    }

    /** Both scans, up from `i0` and down from `j0`. */
    method Meet(p: T, i0: nat, j0: nat, l: nat, u: nat) returns (ok: bool, i: nat, j: nat)
      requires l <= i0 <= j0 <= u - 1 && l < j0 && i0 < u - 1 && u < a.Length
      requires StrictWeak(lt) ==> Halves(lt, a[..], p, l, i0, j0, u)
      modifies this
      ensures i0 < i <= u && (ok ==> l <= j < j0)
      ensures StrictWeak(lt) ==> ok && i <= u - 1 && Met(lt, a[..], p, l, i, j, u)
    {
      hide StrictWeak, Halves, Met;
      ghost var s := a[..];
      if StrictWeak(lt) { Sentinels(lt, s, p, l, i0, j0, u); }
      j := j0;
      ok, i := ScanUp(p, i0, l, u);
      if !ok { return; }
      ok, j := ScanDown(p, j0, l, u);
      if !ok { return; }
      assert a[..] == s;
      if StrictWeak(lt) { Scanned(lt, s, p, l, i0, j0, i, j, u); }
    }

    /** Divides the elements by the median of three, or finds that the order is invalid. */
    method Partition(m: nat, l: nat, u: nat) returns (ok: bool, i: nat)
      requires l + 3 <= u < a.Length && l < m < u - 1
      requires StrictWeak(lt) ==> Le(lt, a[l], a[m]) && Le(lt, a[m], a[u])
      modifies this, a
      ensures Shuffled(old(a[..]), a[..], l, u) && l < i <= u
      ensures StrictWeak(lt) ==> ok && i < u && Divides(lt, a[..], l, u, i)
    {
      hide StrictWeak, Shuffled, Divides, Halves, Met, Le, Swapped;
      ghost var s0 := a[..];
      var p := a[m];
      Swap(m, u - 1, l, u);
      i := l;
      var j := u - 1;
      if StrictWeak(lt) { HalvesStart(lt, a[..], p, l, u); }
      while true
        invariant l <= i <= j <= u - 1 && l < j && i < u - 1 && Shuffled(s0, a[..], l, u) && a[u - 1] == p
        invariant StrictWeak(lt) ==> Halves(lt, a[..], p, l, i, j, u)
        decreases j
      {
        ghost var s1 := a[..];
        ok, i, j := Meet(p, i, j, l, u);
        if !ok { return; }
        if j < i { break; }
        Swap(i, j, l, u);
        ShuffledTrans(s0, s1, a[..], l, u, l, u);
        if StrictWeak(lt) { SwapsHalves(lt, s1, p, l, i, j, u); }
      }
      ghost var s2 := a[..];
      Swap(u - 1, i, l, u);
      ShuffledTrans(s0, s2, a[..], l, u, l, u);
      if StrictWeak(lt) { PivotPlaced(lt, s2, p, l, i, j, u); }
      return true, i;
    }

    /** `auxsort`: recursion for the smaller half, iteration for the larger one. No more than `frames` calls nest. */
    method AuxSort(l0: nat, u0: int, ghost frames: nat) returns (ok: bool)
      requires l0 <= a.Length && u0 < a.Length
      requires frames >= 1 && u0 - l0 + 1 < Pow2(frames + 1)
      modifies this, a
      ensures Shuffled(old(a[..]), a[..], l0, u0)
      ensures StrictWeak(lt) ==> ok && Sorted(lt, a[..], l0, u0)
      decreases frames
    {
      hide StrictWeak, Shuffled, Divides, Split, Sorted, Le, Pow2;
      ghost var s0 := a[..];
      var l, u := l0, u0;
      StartOpen(lt, s0, l0, u0);
      while l < u
        invariant l0 <= l && u <= u0 && Shuffled(s0, a[..], l0, u0)
        invariant StrictWeak(lt) ==> Split(lt, a[..], l0, u0, l, u)
        decreases u - l
      {
        ghost var s1 := a[..];
        var i := MedianOfThree(l, u);
        ghost var s2 := a[..];
        ShuffledTrans(s0, s1, s2, l0, u0, l, u);
        if StrictWeak(lt) { ShuffleKeepsSplit(lt, s1, s2, l0, u0, l, u); }
        if u - l <= 2 {
          if StrictWeak(lt) { ThreeSorted(lt, s2, l0, u0, l, u); }
          return true;
        }
        ok, i := Partition(i, l, u);
        ghost var s3 := a[..];
        ShuffledTrans(s0, s2, s3, l0, u0, l, u);
        if !ok { return; }
        if StrictWeak(lt) { ShuffleKeepsSplit(lt, s2, s3, l0, u0, l, u); }
        var lower := i - l < u - i;
        var lo, hi := if lower then l else i + 1, if lower then i - 1 else u;
        HalfFrames(frames, u - l + 1, hi - lo + 1);
        ok := AuxSort(lo, hi, frames - 1);
        ShuffledTrans(s0, s3, a[..], l0, u0, lo, hi);
        if !ok { return; }
        if StrictWeak(lt) { HalfDone(lt, s3, a[..], l0, u0, l, u, i, lower); }
        if lower { l := i + 1; } else { u := i - 1; }
      }
      if StrictWeak(lt) { AllClosed(lt, a[..], l0, u0, l, u); }
      return true;
    }

    /** `table.sort`; from four elements on, at most the logarithm of their number of calls nest. */
    method Sort() returns (ok: bool)
      modifies this, a
      ensures multiset(a[..]) == multiset(old(a[..]))
      ensures StrictWeak(lt) ==> ok && forall x, y | 0 <= x < y < a.Length :: !lt(0, a[y], a[x])
    {
      ok := AuxSort(0, a.Length - 1, Frames(a.Length));
    }
  }

  /** The nested calls that `n` elements may take: the binary logarithm of `n`, but at least one. */
  ghost function Frames(n: nat): (d: nat)
    ensures d >= 1 && n < Pow2(d + 1) && if n < 4 then d == 1 else Pow2(d) <= n
  {
    if n < 4 then
      assert Pow2(2) == 4;
      1
    else
      1 + Frames(n / 2)
  }

  /** The smaller half of what is left without the pivot takes one call less. */
  lemma HalfFrames(frames: nat, n: int, m: int)
    requires frames >= 1 && 4 <= n < Pow2(frames + 1) && 2 * m < n
    ensures frames >= 2 && m < Pow2(frames)
  {
    assert Pow2(2) == 4;
  }

  lemma StartOpen<T>(lt: Comparison<T>, s: seq<T>, l: nat, u: int)
    requires u < |s|
    ensures Split(lt, s, l, u, l, u) && Shuffled(s, s, l, u)
  {
  }

  lemma AllClosed<T>(lt: Comparison<T>, s: seq<T>, l0: nat, u0: int, l: nat, u: int)
    requires u0 < |s| && u <= l && Split(lt, s, l0, u0, l, u)
    ensures Sorted(lt, s, l0, u0)
  {
  }

  /** Two or three elements are in order after the median of three. */
  lemma ThreeSorted<T(!new)>(lt: Comparison<T>, s: seq<T>, l0: nat, u0: int, l: nat, u: nat)
    requires StrictWeak(lt) && l0 <= l < u <= u0 < |s| && u - l <= 2 && Split(lt, s, l0, u0, l, u)
    requires Le(lt, s[l], s[u]) && (u - l > 1 ==> Le(lt, s[l], s[(l + u) / 2]) && Le(lt, s[(l + u) / 2], s[u]))
    ensures Sorted(lt, s, l0, u0)
  {
  }

  /** The recursive call has sorted one half. */
  lemma HalfDone<T(!new)>(lt: Comparison<T>, s: seq<T>, t: seq<T>, l0: nat, u0: int, l: nat, u: nat, i: nat,
                   lower: bool)
    requires StrictWeak(lt) && l0 <= l < i < u <= u0 < |s| && Split(lt, s, l0, u0, l, u) && Divides(lt, s, l, u, i)
    requires if lower then Shuffled(s, t, l, i - 1) && Sorted(lt, t, l, i - 1)
      else Shuffled(s, t, i + 1, u) && Sorted(lt, t, i + 1, u)
    ensures if lower then Split(lt, t, l0, u0, i + 1, u) else Split(lt, t, l0, u0, l, i - 1)
  {
    assert Shuffled(s, t, l, u);
    ShuffleKeepsSplit(lt, s, t, l0, u0, l, u);
    ShuffleKeepsDivides(lt, s, t, l, u, i, lower);
    HalfSorted(lt, t, l0, u0, l, u, i, lower);
  }

  /** What the inner loop keeps: `p` lies between the parts that were scanned, and waits at the end. */
  ghost predicate Halves<T>(lt: Comparison<T>, s: seq<T>, p: T, l: int, i: int, j: int, u: int)
    requires 0 <= l <= i && l < j && i < u && j <= u - 1 && u < |s|
  {
    && s[u - 1] == p && (forall x | l <= x <= i :: Le(lt, s[x], p)) && (forall y | j <= y <= u :: Le(lt, p, s[y]))
  }

  lemma HalvesStart<T(!new)>(lt: Comparison<T>, s: seq<T>, p: T, l: nat, u: nat)
    requires StrictWeak(lt) && l + 3 <= u < |s| && s[u - 1] == p && Le(lt, s[l], p) && Le(lt, p, s[u])
    ensures Halves(lt, s, p, l, l, u - 1, u)
  {
  }

  /** Neither scan runs out of its part. */
  lemma Sentinels<T(!new)>(lt: Comparison<T>, s: seq<T>, p: T, l: nat, i: nat, j: nat, u: nat)
    requires StrictWeak(lt) && l <= i <= j <= u - 1 && l < j && i < u - 1 && u < |s| && Halves(lt, s, p, l, i, j, u)
    ensures !lt(0, s[u - 1], p) && !lt(0, p, s[l])
  {
  }

  /** Where the scans stopped: everything passed over is on its side, and the two elements met are not. */
  ghost predicate Met<T>(lt: Comparison<T>, s: seq<T>, p: T, l: int, i: int, j: int, u: int)
    requires 0 <= l <= j && l < i && i < u && j < u && u < |s|
  {
    && s[u - 1] == p && Le(lt, p, s[i]) && Le(lt, s[j], p)
    && (forall x | l <= x < i :: Le(lt, s[x], p)) && (forall y | j < y <= u :: Le(lt, p, s[y]))
  }

  lemma Scanned<T(!new)>(lt: Comparison<T>, s: seq<T>, p: T, l: nat, i0: nat, j0: nat, i: nat, j: nat, u: nat)
    requires StrictWeak(lt) && l <= i0 <= j0 <= u - 1 && l < j0 && i0 < u - 1 && u < |s|
      && Halves(lt, s, p, l, i0, j0, u)
    requires i0 < i <= u - 1 && l <= j < j0 && !lt(0, s[i], p) && !lt(0, p, s[j])
    requires (forall k | i0 < k < i :: lt(0, s[k], p)) && forall k | j < k < j0 :: lt(0, p, s[k])
    ensures Met(lt, s, p, l, i, j, u)
  {
  }

  lemma SwapsHalves<T>(lt: Comparison<T>, s: seq<T>, p: T, l: nat, i: nat, j: nat, u: nat)
    requires l < i <= j < u - 1 && u < |s| && Met(lt, s, p, l, i, j, u)
    ensures Halves(lt, Swapped(s, i, j), p, l, i, j, u)
  {
    hide Le;
  }

  lemma PivotPlaced<T>(lt: Comparison<T>, s: seq<T>, p: T, l: nat, i: nat, j: nat, u: nat)
    requires l <= j < i < u && u < |s| && Met(lt, s, p, l, i, j, u)
    ensures Divides(lt, Swapped(s, u - 1, i), l, u, i)
  {
    hide Le;
  }
}
