/** The Adler-32 checksum of section 2.2 of RFC 1950, and the blockwise loop that
    `tinfl_decompress` runs over the output of each call. */
module TinflAdler {
  import opened Numbers
  import opened TinflBits

  const MOD := 65521
  const WORD := 0x1_0000_0000
  const BLOCK := 5552

  datatype Sums = Sums(s1: nat, s2: nat)

  /** The definition: both sums are reduced after every byte. */
  function Adler(a: Sums, data: seq<byte>): Sums
  {
    if data == [] then a
    else
      var s := Adler(a, data[..|data| - 1]);
      var s1 := (s.s1 + data[|data| - 1]) % MOD;
      Sums(s1, (s.s2 + s1) % MOD)
  }

  /** The same two sums without any reduction. */
  function Raw(a: Sums, data: seq<byte>): Sums
  {
    if data == [] then a
    else
      var s := Raw(a, data[..|data| - 1]);
      var s1 := s.s1 + data[|data| - 1];
      Sums(s1, s.s2 + s1)
  }

  function Reduce(s: Sums): Sums { Sums(s.s1 % MOD, s.s2 % MOD) }

  predicate Reduced(s: Sums) { s.s1 < MOD && s.s2 < MOD }

  lemma AddMod(x: nat, y: nat)
    ensures (x % MOD + y) % MOD == (x + y) % MOD
  {
  }

  lemma AddModBoth(x: nat, y: nat)
    ensures (x % MOD + y % MOD) % MOD == (x + y) % MOD
  {
  }

  /** Reducing late gives the same result as reducing at every byte. */
  lemma {:induction false} RawReduces(a: Sums, data: seq<byte>)
    requires Reduced(a)
    ensures Reduce(Raw(a, data)) == Adler(a, data)
  {
    if data == [] {
    } else {
      var d, c := data[..|data| - 1], data[|data| - 1];
      RawReduces(a, d);
      var r := Raw(a, d);
      AddMod(r.s1, c);
      AddModBoth(r.s2, r.s1 + c);
    }
  }

  lemma {:induction false} AdlerConcat(a: Sums, x: seq<byte>, y: seq<byte>)
    ensures Adler(a, x + y) == Adler(Adler(a, x), y)
  {
    if y == [] {
      assert x + y == x;
    } else {
      assert (x + y)[..|x + y| - 1] == x + y[..|y| - 1];
      AdlerConcat(a, x, y[..|y| - 1]);
    }
  }

  lemma {:induction false} AdlerReduced(a: Sums, data: seq<byte>)
    requires Reduced(a)
    ensures Reduced(Adler(a, data))
  {
    if data != [] { AdlerReduced(a, data[..|data| - 1]); }
  }

  /** The largest values the unreduced sums can have after `n` bytes. */
  lemma {:induction false} RawBound(a: Sums, data: seq<byte>)
    requires Reduced(a)
    ensures Raw(a, data).s1 <= 65520 + 255 * |data|
    ensures 2 * Raw(a, data).s2 <= 2 * 65520 + 2 * 65520 * |data| + 255 * (|data| * (|data| + 1))
  {
    if data != [] {
      var n := |data|;
      RawBound(a, data[..n - 1]);
      assert n * (n + 1) == (n - 1) * n + 2 * n;
    }
  }

  /** A block is short enough for 32-bit arithmetic without reduction. */
  lemma NoOverflow(a: Sums, data: seq<byte>)
    requires Reduced(a) && |data| <= BLOCK
    ensures Raw(a, data).s1 < WORD && Raw(a, data).s2 < WORD
  {
    RawBound(a, data);
    var n := |data|;
    assert n * (n + 1) <= 5552 * 5553 by { Square(n); }
  }

  lemma Square(n: nat)
    requires n <= 5552
    ensures n * (n + 1) <= 5552 * 5553
  {
    ProductNonNeg(5552 - n, 5553 + n);
    assert (5552 - n) * (5553 + n) == 5552 * 5553 - n * (n + 1);
  }

  lemma ProductNonNeg(x: nat, y: nat)
    ensures x * y >= 0
  {
  }

  lemma RawStep(a: Sums, data: seq<byte>, k: nat)
    requires k < |data|
    ensures var s := Raw(a, data[..k]);
      Raw(a, data[..k + 1]) == Sums(s.s1 + data[k], s.s2 + s.s1 + data[k])
  {
    assert data[..k + 1][..k] == data[..k];
  }

  /** The words that the running checksum is kept in between calls. */
  function Pack(s: Sums): nat { s.s2 * 0x1_0000 + s.s1 }

  function Unpack(w: nat): Sums { Sums(w % 0x1_0000, w / 0x1_0000) }

  lemma PackUnpack(s: Sums)
    requires Reduced(s)
    ensures Unpack(Pack(s)) == s && Pack(s) < WORD
  {
  }

  /** One block: eight bytes a turn, then the rest, with the sums left unreduced. */
  method SumBlock(data: seq<byte>, a: Sums) returns (s1: nat, s2: nat)
    requires Reduced(a) && |data| <= BLOCK
    ensures Sums(s1, s2) == Raw(a, data) && s1 < WORD && s2 < WORD
  {
    hide Raw;
    RawEmpty(a, data);
    s1, s2 := a.s1, a.s2;
    var i := 0;
    while i + 7 < |data|
      invariant 0 <= i <= |data| && Sums(s1, s2) == Raw(a, data[..i])
    {
      s1, s2, i := AddByte(data, a, s1, s2, i);
      s1, s2, i := AddByte(data, a, s1, s2, i);
      s1, s2, i := AddByte(data, a, s1, s2, i);
      s1, s2, i := AddByte(data, a, s1, s2, i);
      s1, s2, i := AddByte(data, a, s1, s2, i);
      s1, s2, i := AddByte(data, a, s1, s2, i);
      s1, s2, i := AddByte(data, a, s1, s2, i);
      s1, s2, i := AddByte(data, a, s1, s2, i);
    }
    while i < |data|
      invariant 0 <= i <= |data| && Sums(s1, s2) == Raw(a, data[..i])
    {
      s1, s2, i := AddByte(data, a, s1, s2, i);
    }
    assert data[..i] == data;
    NoOverflow(a, data);
  }

  lemma RawEmpty(a: Sums, data: seq<byte>)
    ensures Raw(a, data[..0]) == a
  {
  }

  /** `s1 += *ptr++, s2 += s1`; the sums stay below 2^32, so nothing wraps around. */
  method AddByte(data: seq<byte>, ghost a: Sums, r1: nat, r2: nat, i: nat) returns (s1: nat, s2: nat, j: nat)
    requires Reduced(a) && |data| <= BLOCK && i < |data| && Sums(r1, r2) == Raw(a, data[..i])
    ensures Sums(s1, s2) == Raw(a, data[..i + 1]) && j == i + 1
    ensures s1 == (r1 + data[i]) % WORD && s2 == (r2 + s1) % WORD
  {
    hide Raw;
    RawStep(a, data, i);
    NoOverflow(a, data[..i + 1]);
    s1 := r1 + data[i];
    s2 := r2 + s1;
    j := i + 1;
  }

  /** The checksum loop at the end of a call: a short first block, then blocks of 5552 bytes. */
  method UpdateChecksum(check: nat, data: seq<byte>) returns (r: nat)
    requires Reduced(Unpack(check))
    ensures r == Pack(Adler(Unpack(check), data)) < WORD
  {
    hide Adler, Raw, Unpack, Pack;
    ghost var a := Unpack(check);
    var s := Unpack(check);
    var pos, bufLen := 0, |data|;
    var blockLen := bufLen % BLOCK;
    AdlerEmpty(a, data);
    while bufLen > 0
      invariant pos + bufLen == |data| && 0 <= pos && 0 <= bufLen
      invariant 0 <= blockLen <= BLOCK && (bufLen > 0 ==> blockLen <= bufLen && (bufLen - blockLen) % BLOCK == 0)
      invariant Reduced(s) && s == Adler(a, data[..pos])
      decreases bufLen, BLOCK - blockLen
    {
      var block := data[pos..pos + blockLen];
      var s1, s2 := SumBlock(block, s);
      RawReduces(s, block);
      AdlerConcat(a, data[..pos], block);
      assert data[..pos] + block == data[..pos + blockLen];
      s := Sums(s1 % MOD, s2 % MOD);
      pos, bufLen := pos + blockLen, bufLen - blockLen;
      BlocksLeft(bufLen);
      blockLen := BLOCK;
    }
    assert data[..pos] == data;
    r := Pack(s);
    PackBound(s);
  }

  lemma BlocksLeft(n: nat)
    requires n % BLOCK == 0
    ensures n == 0 || n >= BLOCK
    ensures n >= BLOCK ==> (n - BLOCK) % BLOCK == 0
  {
  }

  lemma PackBound(s: Sums)
    requires Reduced(s)
    ensures Pack(s) < WORD
  {
  }

  lemma AdlerEmpty(a: Sums, data: seq<byte>)
    ensures Adler(a, data[..0]) == a
  {
  }
}
