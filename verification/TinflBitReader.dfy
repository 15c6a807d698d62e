/** The bit buffer of the decoder and the macros that read through it. */
module TinflBitReader {
  import opened Numbers
  import opened TinflBits
  import opened TinflCanonical
  import opened TinflTables
  import opened TinflBuild
  import opened TinflSpec

  /** A byte moved from the input into the buffer, above the bits already there. */
  lemma LoadByte(v: nat, n: nat, s: seq<byte>)
    requires v < Pow2(n) && s != []
    ensures BitsOf(v + Shl(s[0], n), n + 8) + ByteBits(s[1..]) == BitsOf(v, n) + ByteBits(s)
    ensures v + Shl(s[0], n) < Pow2(n + 8)
  {
    hide BitsOf, Shl;
    BitsOfAppend(v, n, s[0], 8);
    Pow2Facts();
    AppendBound(v, n, s[0], 8);
    assert ByteBits(s) == BitsOf(s[0], 8) + ByteBits(s[1..]);
    assert BitsOf(v, n) + BitsOf(s[0], 8) + ByteBits(s[1..]) == BitsOf(v, n) + (BitsOf(s[0], 8) + ByteBits(s[1..]));
  }

  /** Shifting `k` bits out of the buffer drops them from the stream. */
  lemma DropBits(v: nat, n: nat, x: bits, k: nat)
    requires v < Pow2(n) && k <= n
    ensures BitsOf(Shr(v, k), n - k) + x == (BitsOf(v, n) + x)[k..]
    ensures Shr(v, k) < Pow2(n - k)
    ensures LeVal((BitsOf(v, n) + x)[..k]) == Low(v, k)
  {
    hide Shr, Low, LeVal;
    BitsOfSplit(v, n, k);
    ShrBound(v, n, k);
    assert (BitsOf(v, n) + x)[..k] == BitsOf(v, n)[..k];
    assert (BitsOf(v, n) + x)[k..] == BitsOf(v, n)[k..] + x;
  }

  predicate Whole(n: nat) { Partial(n) == 0 }

  lemma WholeDown(n: nat)
    ensures Whole(n) && n != 0 ==> n >= 8 && Whole(n - 8)
    ensures Partial(n) <= 16 && Whole(n - Partial(n))
    ensures Whole(0)
  {
  }

  lemma ShortIsShort(lens: Lengths, b: bits)
    requires Fits(lens) && |b| >= 15
    ensures !DecodeSym(lens, b).Short?
  {
    if DecodeSym(lens, b).Short? {
      var s: nat :| Uses(lens, s) && b <= Code(lens, s);
      assert b == Code(lens, s);
      assert IsNext(lens, s, b);
    }
  }

  lemma StreamMod(n: nat, m: nat, k: nat)
    requires k == n + 8 * m
    ensures Partial(k) == Partial(n)
  {
  }

  class BitReader {
    const wide: bool        // TINFL_USE_64BIT_BITBUF
    var numBits: nat
    var bitBuf: nat
    var refill: bool        // suspended inside TINFL_HUFF_BITBUF_FILL
    var inBuf: seq<byte>    // the input of the current call
    var inCur: nat

    /** No bit is ever shifted out at the top of the buffer. */
    ghost predicate Valid()
      reads this`numBits, this`bitBuf, this`inBuf, this`inCur
    {
      bitBuf < Pow2(numBits) && numBits <= (if wide then 64 else 32) && inCur <= |inBuf|
    }

    /** Everything the decoder has yet to consume of the input it was given so far. */
    ghost function Stream(): (s: bits)
      reads this`numBits, this`bitBuf, this`inBuf, this`inCur
      requires Valid()
      ensures |s| == numBits + 8 * (|inBuf| - inCur)
    {
      BitsOf(bitBuf, numBits) + ByteBits(inBuf[inCur..])
    }

    constructor (wide: bool)
      ensures Valid() && Stream() == [] && this.wide == wide && inBuf == [] && !refill && numBits == 0
    {
      this.wide := wide;
      numBits, bitBuf, refill, inBuf, inCur := 0, 0, false, [], 0;
    }

    /** A call starts with new input; the bits in the buffer stay in front of it. */
    method SetInput(inp: seq<byte>)
      requires Valid()
      modifies this`inBuf, this`inCur
      ensures Valid() && inBuf == inp && inCur == 0 && Stream() == BitsOf(bitBuf, numBits) + ByteBits(inp)
    {
      inBuf, inCur := inp, 0;
      assert inp[0..] == inp;
    }

    method Append()
      requires Valid() && inCur < |inBuf| && numBits <= (if wide then 56 else 24)
      modifies this`numBits, this`bitBuf, this`inCur
      ensures Valid() && Stream() == old(Stream()) && numBits == old(numBits) + 8 && inCur == old(inCur) + 1
    {
      hide Pow2, Shl, BitsOf;
      LoadByte(bitBuf, numBits, inBuf[inCur..]);
      assert inBuf[inCur..][1..] == inBuf[inCur + 1..];
      bitBuf := bitBuf + Shl(inBuf[inCur], numBits);
      inCur := inCur + 1;
      numBits := numBits + 8;
    }

    method Drop(n: nat)
      requires Valid() && n <= numBits
      modifies this`numBits, this`bitBuf
      ensures Valid() && Stream() == old(Stream())[n..] && numBits == old(numBits) - n
    {
      hide Pow2, Shr, BitsOf;
      DropBits(bitBuf, numBits, ByteBits(inBuf[inCur..]), n);
      bitBuf := Shr(bitBuf, n);
      numBits := numBits - n;
    }

    /** TINFL_GET_BITS. */
    method GetBits(n: nat) returns (ok: bool, v: nat)
      requires Valid() && n <= 16
      modifies this`numBits, this`bitBuf, this`inCur
      ensures Valid() && inCur >= old(inCur)
      ensures ok ==> n <= |old(Stream())| && v == LeVal(old(Stream())[..n]) && Stream() == old(Stream())[n..]
      ensures ok && n <= old(numBits) ==> numBits == old(numBits) - n && inCur == old(inCur)
      ensures !ok ==> Stream() == old(Stream()) && |Stream()| < n && inCur == |inBuf|
    {
      hide LeVal, Pow2, Shr, BitsOf, Low;
      v := 0;
      while numBits < n
        invariant Valid() && Stream() == old(Stream()) && inCur >= old(inCur)
        invariant n <= old(numBits) ==> numBits == old(numBits) && inCur == old(inCur)
        decreases n - numBits
      {
        if inCur >= |inBuf| {
          assert inBuf[inCur..] == [];
          return false, 0;
        }
        Append();
      }
      DropBits(bitBuf, numBits, ByteBits(inBuf[inCur..]), n);
      v := Low(bitBuf, n);
      Drop(n);
      ok := true;
    }

    /** TINFL_SKIP_BITS of what is left of a byte that has been started. */
    method SkipPartial() returns (n: nat)
      requires Valid()
      modifies this`numBits, this`bitBuf, this`inCur
      ensures Valid() && Whole(numBits) && numBits <= old(numBits) && inCur == old(inCur)
      ensures n == Partial(|old(Stream())|) && Stream() == old(Stream())[n..]
    {
      hide LeVal, Pow2, BitsOf, Partial;
      WholeDown(numBits);
      StreamMod(numBits, |inBuf| - inCur, |Stream()|);
      n := Partial(numBits);
      var _, _ := GetBits(n);
    }

    /** Extra bits, if the symbol has any. */
    method GetExtra(n: nat) returns (ok: bool, v: nat)
      requires Valid() && n <= 16
      modifies this`numBits, this`bitBuf, this`inCur
      ensures Valid() && inCur >= old(inCur)
      ensures ok ==> n <= |old(Stream())| && v == LeVal(old(Stream())[..n]) && Stream() == old(Stream())[n..]
      ensures !ok ==> Stream() == old(Stream()) && |Stream()| < n && inCur == |inBuf|
    {
      hide LeVal, Pow2, BitsOf;
      if n != 0 {
        ok, v := GetBits(n);
      } else {
        NoBits(Stream());
        ok, v := true, 0;
      }
    }

    /** The loads of the fast loop, before its first and its second symbol. */
    method RefillFirst()
      requires Valid() && |inBuf| - inCur >= 4
      modifies this`numBits, this`bitBuf, this`inCur
      ensures Valid() && Stream() == old(Stream()) && inCur >= old(inCur)
      ensures numBits >= (if wide then 30 else 15) && |inBuf| - inCur >= (if wide then 0 else 2)
    {
      hide Pow2, BitsOf;
      if wide {
        if numBits < 30 { Append(); Append(); Append(); Append(); }
      } else {
        if numBits < 15 { Append(); Append(); }
      }
    }

    method RefillSecond()
      requires Valid() && (if wide then numBits >= 15 else |inBuf| - inCur >= 2)
      modifies this`numBits, this`bitBuf, this`inCur
      ensures Valid() && Stream() == old(Stream()) && inCur >= old(inCur) && numBits >= 15
    {
      hide Pow2, BitsOf;
      if !wide && numBits < 15 { Append(); Append(); }
    }

    /** TINFL_GET_BYTE, used while the bit buffer is empty. */
    method GetByte() returns (ok: bool, v: nat)
      requires Valid() && numBits == 0
      modifies this`inCur
      ensures Valid() && numBits == 0 && inCur >= old(inCur)
      ensures ok ==> 8 <= |old(Stream())| && v == LeVal(old(Stream())[..8]) && Stream() == old(Stream())[8..]
      ensures ok <==> old(inCur) < |inBuf|
      ensures ok ==> inCur == old(inCur) + 1
      ensures !ok ==> Stream() == old(Stream()) && |Stream()| < 8 && inCur == |inBuf|
    {
      if inCur >= |inBuf| {
        assert inBuf[inCur..] == [];
        return false, 0;
      }
      ByteInFront(inBuf[inCur..]);
      assert inBuf[inCur..][1..] == inBuf[inCur + 1..];
      EmptyBuffer(bitBuf, inBuf[inCur..]);
      EmptyBuffer(bitBuf, inBuf[inCur + 1..]);
      v := inBuf[inCur];
      inCur := inCur + 1;
      ok := true;
    }

    /** A byte of a stored header or of the trailer: from the buffer while it holds any. */
    method GetAlignedByte() returns (ok: bool, v: nat)
      requires Valid() && Whole(numBits)
      modifies this`numBits, this`bitBuf, this`inCur
      ensures Valid() && Whole(numBits) && inCur >= old(inCur)
      ensures ok ==> 8 <= |old(Stream())| && v == LeVal(old(Stream())[..8]) && Stream() == old(Stream())[8..]
      ensures !ok ==> Stream() == old(Stream()) && |Stream()| < 8 && inCur == |inBuf|
    {
      hide LeVal, Pow2, BitsOf, Partial;
      WholeDown(numBits);
      if numBits != 0 {
        ok, v := GetBits(8);
      } else {
        ok, v := GetByte();
      }
    }

    /** TINFL_HUFF_BITBUF_FILL: byte by byte, only until the next symbol is decided. */
    method Fill(t: HuffTable, ghost lens: Lengths) returns (ok: bool)
      requires Valid() && t.Built(lens) && numBits < 15
      modifies this`numBits, this`bitBuf, this`inCur
      ensures Valid() && inCur >= old(inCur) && Stream() == old(Stream())
      ensures !ok ==> inCur == |inBuf| && !DecodeSym(lens, Stream()).Sym?
      ensures ok ==> numBits >= 15 || Settled(t, lens, bitBuf, numBits)
    {
      hide Pow2, BitsOf, HuffTable.Built, Shr, Low;
      ok := true;
      while true
        invariant Valid() && inCur >= old(inCur) && Stream() == old(Stream()) && numBits < 15 && t.Built(lens)
        decreases 15 - numBits
      {
        var found := t.Decides(lens, bitBuf, numBits);
        if found { return true; }
        if inCur >= |inBuf| {
          assert Stream() == BitsOf(bitBuf, numBits) by { assert inBuf[inCur..] == []; }
          return false;
        }
        Append();
        if numBits >= 15 { return true; }
      }
    }

    /** TINFL_HUFF_DECODE. */
    method HuffDecode(t: HuffTable, ghost lens: Lengths) returns (ok: bool, sym: nat)
      requires Valid() && t.Built(lens)
      modifies this`numBits, this`bitBuf, this`inCur, this`refill
      ensures Valid() && inCur >= old(inCur)
      ensures ok ==> !refill && (sym < |lens| || sym == 0) && !DecodeSym(lens, old(Stream())).Short?
      ensures ok && DecodeSym(lens, old(Stream())).Sym? ==>
        var s := DecodeSym(lens, old(Stream())).s; sym == s && Stream() == old(Stream())[lens[s]..]
      ensures ok ==> |Stream()| < |old(Stream())| || (|Stream()| == |old(Stream())| && sym == 0)
      ensures !ok ==> Stream() == old(Stream()) && inCur == |inBuf| && !DecodeSym(lens, Stream()).Sym?
    {
      hide Pow2, BitsOf, HuffTable.Built, Accepted, Code, Shr;
      ok, sym := true, 0;
      if numBits < 15 {
        if |inBuf| - inCur < 2 || refill {
          ok := Fill(t, lens);
          refill := !ok;
          if !ok { return; }
        } else {
          Append();
          Append();
        }
      }
      refill := false;
      sym := Take(t, lens);
    }

    /** Decoding proper: the buffer holds enough bits. */
    method Take(t: HuffTable, ghost lens: Lengths) returns (sym: nat)
      requires Valid() && t.Built(lens) && (numBits >= 15 || Settled(t, lens, bitBuf, numBits))
      modifies this`numBits, this`bitBuf
      ensures Valid() && (sym < |lens| || sym == 0) && !DecodeSym(lens, old(Stream())).Short?
      ensures DecodeSym(lens, old(Stream())).Sym? ==>
        var s := DecodeSym(lens, old(Stream())).s; sym == s && Stream() == old(Stream())[lens[s]..]
      ensures numBits <= old(numBits) && (numBits == old(numBits) ==> sym == 0)
      ensures old(numBits) >= 15 ==> numBits >= old(numBits) - 15
      ensures |old(Stream())| - |Stream()| == old(numBits) - numBits
    {
      hide Pow2, BitsOf, Code, Shr, Low, Holds, Accepted, StopLength;
      var codeLen;
      sym, codeLen := t.Decode(lens, bitBuf);
      TakeNext(lens, bitBuf, numBits, ByteBits(inBuf[inCur..]), sym, codeLen, t);
      Drop(codeLen);
    }
  }



  lemma NoBits(b: bits)
    ensures LeVal(b[..0]) == 0 && b[0..] == b
  {
  }

  lemma ByteInFront(s: seq<byte>)
    requires s != []
    ensures ByteBits(s)[8..] == ByteBits(s[1..]) && LeVal(ByteBits(s)[..8]) == s[0]
  {
    hide BitsOf, LeVal;
    assert ByteBits(s)[..8] == BitsOf(s[0], 8);
    BitsOfSplit(s[0], 8, 8);
    assert BitsOf(s[0], 8)[..8] == BitsOf(s[0], 8);
    Pow2Facts();
    LowSmall(s[0], 8);
  }

  lemma {:induction false} LowSmall(v: nat, n: nat)
    requires v < Pow2(n)
    ensures Low(v, n) == v
  {
    if n > 0 { LowSmall(v / 2, n - 1); }
  }

  lemma EmptyBuffer(v: nat, s: seq<byte>)
    ensures BitsOf(v, 0) + ByteBits(s) == ByteBits(s)
  {
  }

  /** The bits at hand settle the next symbol, whatever follows. */
  ghost predicate Settled(t: HuffTable, lens: Lengths, v: nat, n: nat)
    reads t, t.lookUp
    requires t.Allocated()
  {
    && StopLength(t.nodes, t.lookUp[..], v) <= n
    && forall s: nat, x :: IsNext(lens, s, BitsOf(v, n) + x) ==> lens[s] <= n
  }

  lemma TakeNext(lens: Lengths, v: nat, n: nat, x: bits, sym: nat, codeLen: nat, t: HuffTable)
    requires t.Built(lens) && Determines(lens, v, sym, codeLen)
    requires codeLen <= 15 && codeLen == StopLength(t.nodes, t.lookUp[..], v)
    requires n >= 15 || Settled(t, lens, v, n)
    ensures codeLen <= n
    ensures !DecodeSym(lens, BitsOf(v, n) + x).Short?
    ensures DecodeSym(lens, BitsOf(v, n) + x).Sym? ==>
      sym == DecodeSym(lens, BitsOf(v, n) + x).s && sym < |lens| && codeLen == lens[sym]
  {
    hide Pow2, BitsOf, Code, Holds, Accepted, StopLength;
    AcceptedFits(lens);
    var b := BitsOf(v, n) + x;
    match DecodeSym(lens, b)
    case Sym(s) =>
      assert lens[s] <= n;
      NextInBuffer(lens, s, v, n, x);
    case Short =>
      var s: nat :| Uses(lens, s) && b <= Code(lens, s);
      if n >= 15 { ShortIsShort(lens, b); } else { SettledNotShort(lens, s, v, n, x); }
    case Bad =>
  }

  lemma SettledNotShort(lens: Lengths, s: nat, v: nat, n: nat, x: bits)
    requires Uses(lens, s) && BitsOf(v, n) + x <= Code(lens, s)
    requires forall s: nat, x :: IsNext(lens, s, BitsOf(v, n) + x) ==> lens[s] <= n
    ensures IsNext(lens, s, BitsOf(v, n) + x)
  {
    hide BitsOf, Code;
    var b, c := BitsOf(v, n) + x, Code(lens, s);
    assert c == BitsOf(v, n) + (x + c[|b|..]);
    assert IsNext(lens, s, BitsOf(v, n) + (x + c[|b|..]));
    assert b == c;
  }

  lemma NextInBuffer(lens: Lengths, s: nat, v: nat, n: nat, x: bits)
    requires IsNext(lens, s, BitsOf(v, n) + x) && lens[s] <= n
    ensures NextIn(lens, s, v, n)
  {
    hide Code;
    assert (BitsOf(v, n) + x)[..lens[s]] == BitsOf(v, n)[..lens[s]];
  }
}
