/** Bit sequences and the numbers that stand for them.

    DEFLATE packs values into bytes starting at the least significant bit (section 3.1.1 of
    RFC 1951), while Huffman codes are packed most significant bit first. Both readings of one
    bit sequence are defined here: `LeVal` takes the first bit as the least significant one,
    `BeVal` takes it as the most significant one. */
module TinflBits {
  import opened Numbers

  type bits = seq<bool>

  function Bit(b: bool): nat { if b then 1 else 0 }

  function LeVal(p: bits): nat
  {
    if p == [] then 0 else Bit(p[0]) + 2 * LeVal(p[1..])
  }

  function BeVal(p: bits): nat
  {
    if p == [] then 0 else 2 * BeVal(p[..|p| - 1]) + Bit(p[|p| - 1])
  }

  /** The `n` low bits of `v`, least significant first. */
  function BitsOf(v: nat, n: nat): (p: bits)
    ensures |p| == n
  {
    if n == 0 then [] else [v % 2 == 1] + BitsOf(v / 2, n - 1)
  }

  /** The `n` low bits of `v`, most significant first. */
  function BeBits(v: nat, n: nat): (p: bits)
    ensures |p| == n
  {
    if n == 0 then [] else BeBits(v / 2, n - 1) + [v % 2 == 1]
  }

  /** `v >> n`, `v << n` and `v & ((1 << n) - 1)` on an unsigned word that is wide enough. */
  function Shr(v: nat, n: nat): (r: nat)
    ensures r <= v
  {
    if n == 0 then v else Shr(v / 2, n - 1)
  }

  function Shl(v: nat, n: nat): nat
  {
    if n == 0 then v else 2 * Shl(v, n - 1)
  }

  function Low(v: nat, n: nat): (r: nat)
    ensures r < Pow2(n)
  {
    if n == 0 then 0 else v % 2 + 2 * Low(v / 2, n - 1)
  }

  function ByteBits(bs: seq<byte>): (p: bits)
    ensures |p| == 8 * |bs|
  {
    if bs == [] then [] else BitsOf(bs[0], 8) + ByteBits(bs[1..])
  }

  // ----- powers of two

  lemma Pow2Facts()
    ensures Pow2(8) == 256 && Pow2(10) == 1024 && Pow2(15) == 32768 && Pow2(16) == 65536
  {
    assert Pow2(5) == 32;
    Pow2Add(5, 5); Pow2Add(5, 3); Pow2Add(10, 5);
    assert Pow2(16) == 2 * Pow2(15);
  }

  /** The shifts and the mask are multiplication, division and remainder by a power of two. */
  lemma {:induction false} ShiftMeaning(v: nat, n: nat)
    ensures Shl(v, n) == v * Pow2(n)
    ensures v == Shr(v, n) * Pow2(n) + Low(v, n)
  {
    if n > 0 {
      ShiftMeaning(v, n - 1);
      ShiftMeaning(v / 2, n - 1);
      MulTwice(v, Pow2(n - 1));
      MulTwice(Shr(v, n), Pow2(n - 1));
    }
  }

  lemma MulTwice(x: int, y: int)
    ensures x * (2 * y) == 2 * (x * y)
  {
  }

  // ----- least significant bit first

  lemma {:induction false} LeValBound(p: bits)
    ensures LeVal(p) < Pow2(|p|)
  {
    if p != [] { LeValBound(p[1..]); }
  }

  lemma {:induction false} LeValConcat(a: bits, b: bits)
    ensures LeVal(a + b) == LeVal(a) + Pow2(|a|) * LeVal(b)
  {
    if a == [] {
      assert a + b == b;
    } else {
      LeValConcat(a[1..], b);
      assert (a + b)[1..] == a[1..] + b;
      assert 2 * (Pow2(|a| - 1) * LeVal(b)) == Pow2(|a|) * LeVal(b);
    }
  }

  lemma {:induction false} BitsOfLeVal(p: bits)
    ensures BitsOf(LeVal(p), |p|) == p
  {
    if p != [] {
      BitsOfLeVal(p[1..]);
      assert LeVal(p) / 2 == LeVal(p[1..]);
      assert p == [p[0]] + p[1..];
    }
  }

  lemma LeValInjective(a: bits, b: bits)
    requires |a| == |b| && LeVal(a) == LeVal(b)
    ensures a == b
  {
    BitsOfLeVal(a);
    BitsOfLeVal(b);
  }

  /** The low `k` bits of a number are its first `k` bits, and shifting drops them. */
  lemma {:induction false} BitsOfSplit(v: nat, n: nat, k: nat)
    requires k <= n
    ensures BitsOf(v, n)[..k] == BitsOf(Low(v, k), k)
    ensures BitsOf(v, n)[k..] == BitsOf(Shr(v, k), n - k)
    ensures LeVal(BitsOf(v, n)[..k]) == Low(v, k)
  {
    if k > 0 {
      BitsOfSplit(v / 2, n - 1, k - 1);
      TakeDropCons(v % 2 == 1, BitsOf(v / 2, n - 1), k);
      assert Low(v, k) / 2 == Low(v / 2, k - 1) && Low(v, k) % 2 == v % 2;
      assert BitsOf(v, n)[..k][1..] == BitsOf(v / 2, n - 1)[..k - 1];
    }
  }

  lemma TakeDropCons(x: bool, p: bits, k: nat)
    requires 0 < k <= |p| + 1
    ensures ([x] + p)[..k] == [x] + p[..k - 1]
    ensures ([x] + p)[k..] == p[k - 1..]
  {
  }

  /** OR-ing a value in above the `n` bits of a buffer appends its bits. */
  lemma {:induction false} BitsOfAppend(v: nat, n: nat, c: nat, m: nat)
    requires v < Pow2(n)
    ensures BitsOf(v + Shl(c, n), n + m) == BitsOf(v, n) + BitsOf(c, m)
  {
    if n > 0 {
      BitsOfAppend(v / 2, n - 1, c, m);
      var w := v + Shl(c, n);
      assert w / 2 == v / 2 + Shl(c, n - 1) && w % 2 == v % 2;
    }
  }

  /** Bounds of the buffer operations: nothing is shifted out, nothing stays behind. */
  lemma {:induction false} AppendBound(v: nat, n: nat, c: nat, m: nat)
    requires v < Pow2(n) && c < Pow2(m)
    ensures v + Shl(c, n) < Pow2(n + m)
  {
    if n > 0 { AppendBound(v / 2, n - 1, c, m); }
  }

  lemma {:induction false} ShrBound(v: nat, n: nat, k: nat)
    requires v < Pow2(n) && k <= n
    ensures Shr(v, k) < Pow2(n - k)
  {
    if k > 0 { ShrBound(v / 2, n - 1, k - 1); }
  }

  lemma {:induction false} ByteBitsConcat(a: seq<byte>, b: seq<byte>)
    ensures ByteBits(a + b) == ByteBits(a) + ByteBits(b)
  {
    if a == [] {
      assert a + b == b;
    } else {
      assert (a + b)[1..] == a[1..] + b;
      ByteBitsConcat(a[1..], b);
    }
  }

  // ----- most significant bit first

  lemma {:induction false} BeValBound(p: bits)
    ensures BeVal(p) < Pow2(|p|)
  {
    if p != [] { BeValBound(p[..|p| - 1]); }
  }

  lemma {:induction false} BeValOfBits(v: nat, n: nat)
    requires v < Pow2(n)
    ensures BeVal(BeBits(v, n)) == v
  {
    if n > 0 {
      BeValOfBits(v / 2, n - 1);
      assert BeBits(v, n)[..n - 1] == BeBits(v / 2, n - 1);
    }
  }

  lemma {:induction false} BeBitsOfVal(p: bits)
    ensures BeBits(BeVal(p), |p|) == p
  {
    if p != [] {
      var q, b := p[..|p| - 1], p[|p| - 1];
      BeBitsOfVal(q);
      assert BeVal(p) / 2 == BeVal(q) && (BeVal(p) % 2 == 1 <==> b);
      assert p == q + [b];
    }
  }

  /** Cutting a bit string short divides its value by a power of two. */
  lemma {:induction false} BeValPrefix(p: bits, k: nat)
    requires k <= |p|
    ensures BeVal(p[..k]) == Shr(BeVal(p), |p| - k)
  {
    if k == |p| {
      assert p[..k] == p;
    } else {
      var q := p[..|p| - 1];
      BeValPrefix(q, k);
      assert q[..k] == p[..k];
      assert BeVal(p) / 2 == BeVal(q);
    }
  }
}
