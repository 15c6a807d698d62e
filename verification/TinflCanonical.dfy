/** The canonical Huffman code of section 3.2.2 of RFC 1951, as a function of the code lengths.

    This is the reference the table-driven decoder is measured against: a symbol is next in a
    bit sequence exactly when its code, most significant bit first, is a prefix of it. */
module TinflCanonical {
  import opened Numbers
  import opened TinflBits

  const MAX_CODE_SIZE := 15

  /** One code length per symbol; zero marks a symbol that is not used. */
  type Lengths = s: seq<nat> | forall i :: 0 <= i < |s| ==> s[i] <= MAX_CODE_SIZE

  /** How many of the first `n` symbols have length `l`. */
  function Count(lens: Lengths, n: nat, l: nat): nat
    requires n <= |lens|
  {
    if n == 0 then 0 else Count(lens, n - 1, l) + (if lens[n - 1] == l then 1 else 0)
  }

  /** The smallest code of length `l`; `First(lens, 16)` is 65536 times the Kraft sum. */
  function First(lens: Lengths, l: nat): nat
  {
    if l <= 1 then 0 else 2 * (First(lens, l - 1) + Count(lens, |lens|, l - 1))
  }

  predicate Uses(lens: Lengths, s: nat)
  {
    s < |lens| && lens[s] > 0
  }

  function CodeVal(lens: Lengths, s: nat): nat
    requires s < |lens|
  {
    First(lens, lens[s]) + Count(lens, s, lens[s])
  }

  function Code(lens: Lengths, s: nat): (c: bits)
    requires s < |lens|
    ensures |c| == lens[s]
  {
    BeBits(CodeVal(lens, s), lens[s])
  }

  /** Symbol `s` is the one encoded at the front of `b`. */
  predicate IsNext(lens: Lengths, s: nat, b: bits)
  {
    Uses(lens, s) && Code(lens, s) <= b
  }

  predicate Complete(lens: Lengths) { First(lens, 16) == 65536 }

  predicate Fits(lens: Lengths) { First(lens, 16) <= 65536 }

  /** How many symbols have a length in 1..l. */
  function Used(lens: Lengths, l: nat): nat
  {
    if l == 0 then 0 else Used(lens, l - 1) + Count(lens, |lens|, l)
  }

  // ----- the code values of each length form an interval that fits below 2^l

  lemma {:induction false} FitsAt(lens: Lengths, l: nat)
    requires Fits(lens) && 1 <= l <= 15
    ensures First(lens, l) + Count(lens, |lens|, l) <= Pow2(l)
    decreases 15 - l
  {
    if l == 15 {
      Pow2Facts();
    } else {
      FitsAt(lens, l + 1);
    }
  }

  lemma {:induction false} CountMono(lens: Lengths, m: nat, n: nat, l: nat)
    requires m <= n <= |lens|
    ensures Count(lens, m, l) <= Count(lens, n, l)
  {
    if m < n { CountMono(lens, m, n - 1, l); }
  }

  lemma CodeValBound(lens: Lengths, s: nat)
    requires Fits(lens) && Uses(lens, s)
    ensures First(lens, lens[s]) <= CodeVal(lens, s) < First(lens, lens[s]) + Count(lens, |lens|, lens[s])
    ensures CodeVal(lens, s) < Pow2(lens[s])
    ensures BeVal(Code(lens, s)) == CodeVal(lens, s)
  {
    CountMono(lens, s + 1, |lens|, lens[s]);
    FitsAt(lens, lens[s]);
    BeValOfBits(CodeVal(lens, s), lens[s]);
  }

  /** A value of length `m` at or above the first code stays above all shorter codes when cut. */
  lemma {:induction false} CutStaysAbove(lens: Lengths, l: nat, m: nat, v: nat)
    requires 1 <= l < m && v >= First(lens, m)
    ensures Shr(v, m - l) >= First(lens, l) + Count(lens, |lens|, l)
  {
    assert First(lens, m) == 2 * (First(lens, m - 1) + Count(lens, |lens|, m - 1));
    assert v / 2 >= First(lens, m - 1);
    if m == l + 1 {
      assert Shr(v, 1) == v / 2;
    } else {
      CutStaysAbove(lens, l, m - 1, v / 2);
    }
  }

  /** A proper prefix of a code lies above every code of its own length. */
  lemma ProperPrefixIsInternal(lens: Lengths, s: nat, d: nat)
    requires Fits(lens) && Uses(lens, s) && 1 <= d < lens[s]
    ensures BeVal(Code(lens, s)[..d]) >= First(lens, d) + Count(lens, |lens|, d)
  {
    hide First, Count, CodeVal, BeVal, Fits;
    CodeValBound(lens, s);
    BeValPrefix(Code(lens, s), d);
    CutStaysAbove(lens, d, lens[s], CodeVal(lens, s));
  }

  lemma {:induction false} RankSeparates(lens: Lengths, s: nat, t: nat)
    requires s < t < |lens| && lens[s] == lens[t]
    ensures Count(lens, s, lens[s]) < Count(lens, t, lens[t])
  {
    CountMono(lens, s + 1, t, lens[s]);
  }

  /** No code is a prefix of another one. */
  lemma PrefixFree(lens: Lengths, s: nat, t: nat)
    requires Fits(lens) && Uses(lens, s) && Uses(lens, t)
    requires Code(lens, s) <= Code(lens, t)
    ensures s == t
  {
    CodeValBound(lens, s);
    CodeValBound(lens, t);
    assert Code(lens, t)[..lens[s]] == Code(lens, s);
    if lens[s] < lens[t] {
      ProperPrefixIsInternal(lens, t, lens[s]);
    } else if s != t {
      assert Code(lens, s) == Code(lens, t);
      RankSeparates(lens, if s < t then s else t, if s < t then t else s);
    }
  }

  /** At most one symbol is next. */
  lemma NextIsUnique(lens: Lengths, s: nat, t: nat, b: bits)
    requires Fits(lens) && IsNext(lens, s, b) && IsNext(lens, t, b)
    ensures s == t
  {
    if lens[s] <= lens[t] {
      assert Code(lens, s) == b[..lens[s]] == Code(lens, t)[..lens[s]];
      PrefixFree(lens, s, t);
    } else {
      assert Code(lens, t) == b[..lens[t]] == Code(lens, s)[..lens[t]];
      PrefixFree(lens, t, s);
    }
  }

  // ----- a complete code leaves no bit sequence undecodable

  lemma {:induction false} SymbolOfRank(lens: Lengths, n: nat, l: nat, k: nat) returns (s: nat)
    requires n <= |lens| && k < Count(lens, n, l)
    ensures s < n && lens[s] == l && Count(lens, s, l) == k
  {
    if lens[n - 1] == l && Count(lens, n - 1, l) == k {
      s := n - 1;
    } else {
      s := SymbolOfRank(lens, n - 1, l, k);
    }
  }

  lemma SymbolAt(lens: Lengths, b: bits, l: nat) returns (s: nat)
    requires 1 <= l <= |b|
    requires First(lens, l) <= BeVal(b[..l]) < First(lens, l) + Count(lens, |lens|, l)
    ensures IsNext(lens, s, b)
  {
    s := SymbolOfRank(lens, |lens|, l, BeVal(b[..l]) - First(lens, l));
    BeBitsOfVal(b[..l]);
    assert Code(lens, s) == b[..l];
  }

  lemma BeValStep(b: bits, l: nat)
    requires l < |b|
    ensures BeVal(b[..l + 1]) == 2 * BeVal(b[..l]) + Bit(b[l])
  {
    assert b[..l + 1][..l] == b[..l];
  }

  lemma LastInterval(lens: Lengths, b: bits)
    requires Complete(lens) && |b| >= 15
    ensures BeVal(b[..15]) < First(lens, 15) + Count(lens, |lens|, 15)
  {
    BeValBound(b[..15]);
    Pow2Facts();
  }

  lemma {:induction false} SearchCode(lens: Lengths, b: bits, l: nat) returns (s: nat)
    requires Complete(lens) && |b| >= 15 && 1 <= l <= 15
    requires BeVal(b[..l]) >= First(lens, l)
    ensures IsNext(lens, s, b)
    decreases 15 - l
  {
    var v := BeVal(b[..l]);
    if v < First(lens, l) + Count(lens, |lens|, l) {
      s := SymbolAt(lens, b, l);
    } else if l < 15 {
      BeValStep(b, l);
      s := SearchCode(lens, b, l + 1);
    } else {
      LastInterval(lens, b);
      assert false;
    }
  }

  /** With Kraft sum one, any fifteen bits start with the code of exactly one symbol. */
  lemma CompleteDecodes(lens: Lengths, b: bits)
    requires Complete(lens) && |b| >= 15
    ensures exists s :: IsNext(lens, s, b) && forall t :: IsNext(lens, t, b) ==> t == s
  {
    var s := SearchCode(lens, b, 1);
    forall t | IsNext(lens, t, b) ensures t == s { NextIsUnique(lens, s, t, b); }
  }

  // ----- a table with at most one used symbol cannot be over-subscribed

  lemma {:induction false} FewSymbolsFit(lens: Lengths, l: nat)
    requires 1 <= l && Used(lens, l - 1) <= 1
    ensures First(lens, l) <= Pow2(l)
    ensures Used(lens, l - 1) == 0 ==> First(lens, l) == 0
  {
    if l > 1 { FewSymbolsFit(lens, l - 1); }
  }

  // ----- how many tree nodes the codes longer than ten bits need

  /** The number of paths of length `d` that are proper prefixes of longer codes. */
  function Internal(lens: Lengths, d: nat): int
  {
    Pow2(d) - First(lens, d) - Count(lens, |lens|, d)
  }

  lemma {:induction false} CountSum(lens: Lengths, n: nat)
    requires n <= |lens|
    ensures Count(lens, n, 11) + Count(lens, n, 12) + Count(lens, n, 13) + Count(lens, n, 14) + Count(lens, n, 15) <= n
  {
    if n > 0 { CountSum(lens, n - 1); }
  }

  /** Below depth ten a complete code has no more internal nodes than symbols. */
  lemma InternalNodes(lens: Lengths)
    requires Complete(lens)
    ensures Internal(lens, 10) + Internal(lens, 11) + Internal(lens, 12) + Internal(lens, 13) + Internal(lens, 14)
         <= |lens|
    ensures forall d :: 10 <= d <= 14 ==> Internal(lens, d) >= 0
  {
    assert Internal(lens, 15) == 0 by { Pow2Facts(); }
    InternalStep(lens, 14); InternalStep(lens, 13); InternalStep(lens, 12);
    InternalStep(lens, 11); InternalStep(lens, 10);
    CountSum(lens, |lens|);
    forall d | 10 <= d <= 14 ensures Internal(lens, d) >= 0 { FitsAt(lens, d); }
  }

  lemma InternalStep(lens: Lengths, d: nat)
    requires d >= 1
    ensures Internal(lens, d + 1) == 2 * Internal(lens, d) - Count(lens, |lens|, d + 1)
  {
  }
}
