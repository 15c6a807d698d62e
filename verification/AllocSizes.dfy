/** Sizes, size classes and chunk headers of the allocator on a 64-bit machine. */
module AllocSizes {
  import opened Numbers

  const WORD := 0x1_0000_0000_0000_0000  // size_t wraps around here
  const MAX_SIZE_T := 0xFFFF_FFFF_FFFF_FFFF
  const SIZE_T_SIZE := 8
  const MIN_CHUNK_SIZE := 32
  const MIN_REQUEST := 23
  const MAX_SMALL_REQUEST := 240
  const MAX_REQUEST := 0xFFFF_FFFF_FFFF_FF80
  const NSMALLBINS := 32
  const NTREEBINS := 32
  const DEFAULT_GRANULARITY := 0x2_0000
  const DEFAULT_TRIM_THRESHOLD := 0x20_0000
  const MAX_RELEASE_CHECK_RATE := 255
  const TOP_FOOT_SIZE := 64
  const SEGMENT_RECORD_SIZE := 32

  /** Wrapping subtraction. */
  function Sub(a: nat, b: nat): (r: nat)
    ensures r < WORD
  {
    (a - b) % WORD
  }

  /** `pad_request` and `request2size`, for a request that does not overflow. */
  function PadRequest(req: nat): nat { (req + 15) / 8 * 8 }

  function RequestToSize(req: nat): nat { if req < MIN_REQUEST then MIN_CHUNK_SIZE else PadRequest(req) }

  function GranularityAlign(s: nat): nat
  {
    (s + DEFAULT_GRANULARITY - 1) % WORD / DEFAULT_GRANULARITY * DEFAULT_GRANULARITY
  }

  /** The chunk for a request is aligned and has room for the request and a header word. */
  lemma RequestFits(req: nat)
    ensures var nb := RequestToSize(req);
      nb % 8 == 0 && nb >= MIN_CHUNK_SIZE && nb >= req + 8 && (req >= MIN_REQUEST ==> nb < req + 16)
        && (req <= MAX_SMALL_REQUEST <==> nb <= 248)
  {
  }

  // ----- chunk headers

  /** Size with the flags PINUSE (1) and CINUSE (2). */
  function Head(size: nat, cinuse: bool, pinuse: bool): nat
  {
    size + (if cinuse then 2 else 0) + if pinuse then 1 else 0
  }

  function ChunkSize(h: int): int { h / 4 * 4 }

  predicate Cinuse(h: int) { h / 2 % 2 == 1 }

  predicate Pinuse(h: int) { h % 2 == 1 }

  function SetPinuse(h: int): int { if Pinuse(h) then h else h + 1 }

  function ClearPinuse(h: int): int { if Pinuse(h) then h - 1 else h }

  lemma HeadFields(size: nat, c: bool, p: bool)
    requires size % 8 == 0
    ensures ChunkSize(Head(size, c, p)) == size && Cinuse(Head(size, c, p)) == c && Pinuse(Head(size, c, p)) == p
    ensures SetPinuse(Head(size, c, p)) == Head(size, c, true) && ClearPinuse(Head(size, c, p)) == Head(size, c, false)
  {
    var k := size / 8;
    FlagBits(k, if c then 1 else 0, if p then 1 else 0);
  }

  lemma FlagBits(k: int, c: int, p: int)
    requires 0 <= c < 2 && 0 <= p < 2
    ensures (8 * k + 2 * c + p) / 4 == 2 * k && (8 * k + 2 * c + p) / 2 % 2 == c && (8 * k + 2 * c + p) % 2 == p
  {
    var h := 8 * k + 2 * c + p;
    DivUnique(h, 4, 2 * k, 2 * c + p);
    DivUnique(h, 2, 4 * k + c, p);
    DivUnique(4 * k + c, 2, 2 * k, c);
  }

  // ----- size classes

  predicate IsSmall(s: nat) { s / 8 < NSMALLBINS }

  function SmallIndex(s: nat): nat { s / 8 }

  /** `lj_fls`: the position of the highest bit. */
  function HighBit(x: nat): (k: nat)
    requires x > 0
    ensures Pow2(k) <= x < Pow2(k + 1)
  {
    if x == 1 then 0 else HighBit(x / 2) + 1
  }

  /** `compute_tree_index`, with its truncation to 32 bits. */
  function TreeIndex(s: nat): (i: nat)
    ensures i < NTREEBINS
  {
    var x := s / 0x100 % 0x1_0000_0000;
    if x == 0 then 0
    else if x > 0xFFFF then NTREEBINS - 1
    else
      SixteenBits();
      HighBitSmall(x, 16);
      2 * HighBit(x) + s / Pow2(HighBit(x) + 7) % 2
  }

  lemma SixteenBits()
    ensures Pow2(16) == 0x1_0000 && Pow2(8) == 0x100 && Pow2(22) == 0x40_0000 && Pow2(23) == 0x80_0000
  {
    assert Pow2(4) == 16 && Pow2(8) == 256 && Pow2(12) == 4096 && Pow2(16) == 0x1_0000 && Pow2(20) == 0x10_0000;
  }

  lemma {:induction false} HighBitSmall(x: nat, n: nat)
    requires 0 < x < Pow2(n)
    ensures HighBit(x) < n
    decreases n
  {
    if x > 1 { HighBitSmall(x / 2, n - 1); }
  }

  /** `minsize_for_tree_index`. */
  function MinSize(i: nat): nat { Pow2(i / 2 + 8) + if i % 2 == 1 then Pow2(i / 2 + 7) else 0 }

  predicate Brackets(s: nat)
  {
    MinSize(TreeIndex(s)) <= s && (TreeIndex(s) < NTREEBINS - 1 ==> s < MinSize(TreeIndex(s) + 1))
  }

  lemma NextMinSize(i: nat)
    ensures MinSize(i + 1) == MinSize(i) + Pow2(i / 2 + 7)
  {
    if i % 2 == 1 {
      assert Pow2(i / 2 + 1 + 8) == 2 * Pow2(i / 2 + 8);
    }
  }

  lemma {:induction false} HalfPow(x: nat, k: nat)
    requires Pow2(k) <= x < Pow2(k + 1) && k > 0
    ensures x / Pow2(k - 1) == 2 + x / Pow2(k - 1) % 2
    ensures x / Pow2(k - 1) % 2 == 0 <==> x < Pow2(k) + Pow2(k - 1)
  {
    var h := Pow2(k - 1);
    var q, r := x / h, x % h;
    assert x == h * q + r;
    if q < 2 { LeMul(h, q, 1); } else if q > 3 { LeMul(h, 4, q); }
    if q == 2 { assert x == 2 * h + r; } else { assert q == 3 && x == 3 * h + r; }
  }

  lemma LeMul(h: nat, a: int, b: int)
    requires a <= b
    ensures h * a <= h * b
  {
  }

  lemma {:induction false} MinSizeMono(i: nat, j: nat)
    requires i <= j
    ensures MinSize(i) <= MinSize(j)
    decreases j
  {
    if i < j {
      MinSizeMono(i, j - 1);
      NextMinSize(j - 1);
    }
  }

  const TERA := 0x100_0000_0000

  lemma LastMinSize()
    ensures MinSize(31) == 0xC0_0000
  {
    SixteenBits();
  }

  lemma MinSizeForm(k: nat, bit: nat)
    requires bit < 2
    ensures MinSize(2 * k + bit) == Pow2(k + 8) + (if bit == 1 then Pow2(k + 7) else 0)
    ensures MinSize(2 * k + bit + 1) == MinSize(2 * k + bit) + Pow2(k + 7)
  {
    hide Pow2;
    NextMinSize(2 * k + bit);
  }

  lemma HighBitOfSize(s: nat, k: nat)
    requires Pow2(k) <= s / 0x100 < Pow2(k + 1)
    ensures Pow2(k + 8) <= s < Pow2(k + 9)
  {
    Pow2Add(k, 8);
    Pow2Add(k + 1, 8);
    SixteenBits();
  }

  lemma IndexForm(s: nat)
    requires 0x100 <= s < 0x100_0000
    ensures var k := HighBit(s / 0x100); TreeIndex(s) == 2 * k + s / Pow2(k + 7) % 2
  {
    hide HighBit, Pow2;
    assert s / 0x100 % 0x1_0000_0000 == s / 0x100;
  }

  /** Below 2**40 the index of a large size brackets it. */
  lemma IndexBrackets(s: nat)
    requires 0x100 <= s < TERA
    ensures Brackets(s)
  {
    hide TreeIndex, HighBit, MinSize;
    LastMinSize();
    if s >= 0x100_0000 {
      LastIndex(s);
    } else {
      var k := HighBit(s / 0x100);
      HighBitOfSize(s, k);
      HalfPow(s, k + 8);
      IndexForm(s);
      MinSizeForm(k, s / Pow2(k + 7) % 2);
      assert Pow2(k + 9) == 2 * Pow2(k + 8) && Pow2(k + 8) == 2 * Pow2(k + 7);
    }
  }

  lemma LastIndex(s: nat)
    requires 0x100_0000 <= s < TERA
    ensures TreeIndex(s) == 31
  {
    hide HighBit, Pow2;
    var x := s / 0x100;
    assert 0x1_0000 <= x < 0x1_0000_0000;
    DivUnique(x, 0x1_0000_0000, 0, x);
  }

  /** Sizes are dealt out to the bins in ascending order. */
  lemma IndexMono(s: nat, t: nat)
    requires 0x100 <= s <= t < TERA
    ensures TreeIndex(s) <= TreeIndex(t)
  {
    IndexBrackets(s);
    IndexBrackets(t);
    if TreeIndex(t) < TreeIndex(s) { MinSizeMono(TreeIndex(t) + 1, TreeIndex(s)); }
  }

  lemma TeraIs()
    ensures Pow2(40) == TERA
  {
    SixteenBits();
    Pow2Add(16, 16);
    Pow2Add(32, 8);
  }

  /** The truncation to 32 bits makes the index depend on the low 40 bits only. */
  lemma LowBitsCount(s: nat)
    ensures TreeIndex(s) == TreeIndex(s % TERA)
  {
    hide HighBit, Pow2;
    var a, m := s / TERA, s % TERA;
    var x := m / 0x100;
    LowWord(s, a, m);
    if 0 < x <= 0xFFFF {
      SixteenBits();
      HighBitSmall(x, 16);
      SameBit(s, a, m, HighBit(x) + 7);
    }
  }

  lemma LowWord(s: nat, a: nat, m: nat)
    requires s == TERA * a + m && m < TERA
    ensures s / 0x100 % 0x1_0000_0000 == m / 0x100 == m / 0x100 % 0x1_0000_0000
  {
    var x := m / 0x100;
    assert m == 0x100 * x + m % 0x100 && x < 0x1_0000_0000;
    DivUnique(s, 0x100, 0x1_0000_0000 * a + x, m % 0x100);
    DivUnique(s / 0x100, 0x1_0000_0000, a, x);
    DivUnique(x, 0x1_0000_0000, 0, x);
  }

  lemma SameBit(s: nat, a: nat, m: nat, n: nat)
    requires s == TERA * a + m && n < 40
    ensures s / Pow2(n) % 2 == m / Pow2(n) % 2
  {
    hide Pow2;
    TeraIs();
    Pow2Add(n, 40 - n);
    assert Pow2(40 - n) == 2 * Pow2(39 - n) by { PowStep(39 - n); }
    ShiftAdd(Pow2(n), Pow2(40 - n), a, m);
    EvenPlus(Pow2(39 - n), a, m / Pow2(n));
  }

  lemma PowStep(n: nat)
    ensures Pow2(n + 1) == 2 * Pow2(n)
  {
  }

  lemma ShiftAdd(d: nat, e: nat, a: nat, m: nat)
    requires d > 0
    ensures (d * e * a + m) / d == e * a + m / d
  {
    var q, r := m / d, m % d;
    assert m == d * q + r;
    Distribute(d, e * a, q);
    Regroup(d, e, a);
    DivUnique(d * e * a + m, d, e * a + q, r);
  }

  lemma Regroup(d: int, e: int, a: int)
    ensures d * e * a == d * (e * a)
  {
  }

  lemma Distribute(d: int, x: int, y: int)
    ensures d * (x + y) == d * x + d * y
  {
  }

  lemma EvenPlus(h: int, a: int, q: int)
    ensures (2 * h * a + q) % 2 == q % 2
  {
    assert 2 * h * a == 2 * (h * a);
  }

  /** Exactly which sizes their index brackets: from 2**40 on, the truncation usually breaks it. */
  lemma IndexBracketsExactly(s: nat)
    requires s >= 0x100
    ensures Brackets(s) <==> s < TERA || s / 0x100 % 0x1_0000_0000 >= 0xC000
  {
    hide TreeIndex, MinSize;
    if s < TERA {
      IndexBrackets(s);
    } else {
      var m := s % TERA;
      LowBitsCount(s);
      LowWord(s, s / TERA, m);
      LastMinSize();
      if m < 0x100 {
        SmallIndexZero(m);
        MinSizeMono(1, 31);
      } else {
        IndexBrackets(m);
        if TreeIndex(m) < 31 { MinSizeMono(TreeIndex(m) + 1, 31); }
      }
    }
  }

  /** A chunk of 2**40 bytes would go to the bin of the smallest sizes. */
  lemma FirstUnbracketed()
    ensures TreeIndex(TERA) == 0 && !Brackets(TERA)
  {
    hide Brackets, HighBit, Pow2;
    IndexBracketsExactly(TERA);
  }

  lemma SmallIndexZero(m: nat)
    requires m < 0x100
    ensures TreeIndex(m) == 0
  {
    hide HighBit, Pow2;
    DivUnique(m, 0x100, 0, m);
  }
}
