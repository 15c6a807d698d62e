/** What the specification machine makes of an encoded stream: the LZ77 expansion of its tokens. */
module TinflTokens {
  import opened Numbers
  import opened TinflBits
  import opened TinflCanonical
  import opened TinflTables
  import opened TinflSpec
  import opened TinflInflate

  /** A literal byte, or a copy of `LengthBase(len) + lenExtra` bytes from a distance given likewise. */
  datatype Token = Lit(c: byte) | Match(len: nat, lenExtra: nat, dist: nat, distExtra: nat)

  predicate Sound(t: Token)
  {
    t.Match? ==> 257 <= t.len <= 285 && t.lenExtra < Pow2(LengthExtraBits(t.len))
                 && t.dist < 30 && t.distExtra < Pow2(DistExtraBits(t.dist))
  }

  function MatchLength(t: Token): nat
    requires t.Match? && Sound(t)
  {
    LengthBase(t.len) + t.lenExtra
  }

  function MatchDist(t: Token): nat
    requires t.Match? && Sound(t)
  {
    DistBase(t.dist) + t.distExtra
  }

  /** Both codes have a codeword for everything the token needs. */
  predicate Encodable(codes: Codes, t: Token)
  {
    && Sound(t)
    && (if t.Lit? then Uses(codes.lit, t.c) else Uses(codes.lit, t.len) && Uses(codes.dist, t.dist))
  }

  /** The order of section 3.2.3 of RFC 1951: length, its extra bits, distance, its extra bits. */
  function Encode(codes: Codes, t: Token): bits
    requires Encodable(codes, t)
  {
    if t.Lit? then Code(codes.lit, t.c)
    else Code(codes.lit, t.len) + (BitsOf(t.lenExtra, LengthExtraBits(t.len))
           + (Code(codes.dist, t.dist) + BitsOf(t.distExtra, DistExtraBits(t.dist))))
  }

  predicate AllSound(ts: seq<Token>)
  {
    forall t | t in ts :: Sound(t)
  }

  predicate AllEncodable(codes: Codes, ts: seq<Token>)
    ensures AllEncodable(codes, ts) ==> AllSound(ts)
  {
    forall t | t in ts :: Encodable(codes, t)
  }

  function EncodeAll(codes: Codes, ts: seq<Token>): bits
    requires AllEncodable(codes, ts)
  {
    if ts == [] then [] else Encode(codes, ts[0]) + EncodeAll(codes, ts[1..])
  }

  /** `len` times, the byte `dist` places back; the copied stretch may overlap what it produces. */
  function CopyBack(out: seq<byte>, len: nat, dist: nat): seq<byte>
    requires 1 <= dist <= |out|
    decreases len
  {
    if len == 0 then out else CopyBack(out + [out[|out| - dist]], len - 1, dist)
  }

  predicate Reachable(out: seq<byte>, t: Token)
    requires Sound(t)
  {
    t.Match? ==> MatchDist(t) <= |out|
  }

  function Expand(out: seq<byte>, t: Token): seq<byte>
    requires Sound(t) && Reachable(out, t)
  {
    if t.Lit? then out + [t.c] else CopyBack(out, MatchLength(t), MatchDist(t))
  }

  ghost predicate AllReachable(out: seq<byte>, ts: seq<Token>)
    requires AllSound(ts)
    decreases |ts|
  {
    |ts| == 0 || (Reachable(out, ts[0]) && AllReachable(Expand(out, ts[0]), ts[1..]))
  }

  ghost function ExpandAll(out: seq<byte>, ts: seq<Token>): seq<byte>
    requires AllSound(ts) && AllReachable(out, ts)
    decreases |ts|
  {
    if |ts| == 0 then out else ExpandAll(Expand(out, ts[0]), ts[1..])
  }

  // ----- one step of a run, and what follows it

  lemma Before(cfg: Config, st: State, b: bits, next: State, used: nat, goal: State, rest: bits, m: nat)
    returns (n: nat)
    requires used <= |b| && Step(cfg, st, b) == Go(next, used) && Reaches(cfg, next, b[used..], goal, rest, m)
    ensures Reaches(cfg, st, b, goal, rest, n)
  {
    hide Step;
    n := m + 1;
  }

  lemma DecodesCode(lens: Lengths, s: nat, x: bits)
    requires Fits(lens) && Uses(lens, s)
    ensures DecodeSym(lens, Code(lens, s) + x) == Sym(s)
    ensures (Code(lens, s) + x)[lens[s]..] == x
  {
    hide Code, Fits;
    var b := Code(lens, s) + x;
    assert IsNext(lens, s, b);
    var d := DecodeSym(lens, b);
    NextIsUnique(lens, s, d.s, b);
  }

  lemma ReadsBits(v: nat, n: nat, x: bits)
    requires v < Pow2(n)
    ensures (BitsOf(v, n) + x)[..n] == BitsOf(v, n) && (BitsOf(v, n) + x)[n..] == x
    ensures LeVal(BitsOf(v, n)) == v
  {
    BitsOfSplit(v, n, n);
    ShiftMeaning(v, n);
    ShrBound(v, n, n);
    assert BitsOf(v, n)[..n] == BitsOf(v, n);
  }

  lemma CopyRun(cfg: Config, st: State, b: bits, goal: State, rest: bits, m: nat) returns (n: nat)
    requires st.phase.Copy? && WellFormed(st.phase) && 1 <= st.phase.dist <= |st.out|
    requires Reaches(cfg, State(st.final, Symbols(st.phase.codes), CopyBack(st.out, st.phase.len, st.phase.dist)), b,
      goal, rest, m)
    ensures Reaches(cfg, st, b, goal, rest, n)
    decreases st.phase.len
  {
    hide Step, Accepted, Reaches;
    assert b[0..] == b;
    StepWrite(cfg, st, b);
    if st.phase.len == 0 {
      n := Before(cfg, st, b, State(st.final, Symbols(st.phase.codes), st.out), 0, goal, rest, m);
    } else {
      var next := State(st.final, Copy(st.phase.codes, st.phase.len - 1, st.phase.dist),
        st.out + [st.out[|st.out| - st.phase.dist]]);
      var k := CopyRun(cfg, next, b, goal, rest, m);
      n := Before(cfg, st, b, next, 0, goal, rest, k);
    }
  }

  /** The output buffer reaches as far back as any match can. */
  predicate WideEnough(cfg: Config) { cfg.wrap ==> cfg.room >= LZ_DICT_SIZE }

  /** One token, at any point of a block with any pair of codes. */
  lemma TokenRun(cfg: Config, final: bool, codes: Codes, out: seq<byte>, t: Token, x: bits, goal: State, rest: bits,
                 m: nat)
    returns (n: nat)
    requires WideEnough(cfg)
    requires CodesOk(codes) && WellFormed(Symbols(codes)) && Encodable(codes, t) && Reachable(out, t)
    requires Reaches(cfg, State(final, Symbols(codes), Expand(out, t)), x, goal, rest, m)
    ensures Reaches(cfg, State(final, Symbols(codes), out), Encode(codes, t) + x, goal, rest, n)
  {
    hide Step, Accepted, Reaches, DecodeSym, Code, Pow2, LengthExtraBits, DistExtraBits, LengthBase, DistBase,
         CopyBack, Fits, BitsOf, LeVal;
    AcceptedFits(codes.lit);
    AcceptedFits(codes.dist);
    var st := State(final, Symbols(codes), out);
    if t.Lit? {
      DecodesCode(codes.lit, t.c, x);
      StepLiteral(cfg, st, Encode(codes, t) + x);
      var lit := State(final, Literal(codes, t.c), out);
      StepWrite(cfg, lit, x);
      assert x[0..] == x;
      n := Before(cfg, lit, x, State(final, Symbols(codes), out + [t.c]), 0, goal, rest, m);
      n := Before(cfg, st, Encode(codes, t) + x, lit, codes.lit[t.c], goal, rest, n);
    } else {
      n := MatchRun(cfg, final, codes, out, t, x, goal, rest, m);
    }
  }

  lemma MatchRun(cfg: Config, final: bool, codes: Codes, out: seq<byte>, t: Token, x: bits, goal: State, rest: bits,
                 m: nat)
    returns (n: nat)
    requires WideEnough(cfg)
    requires CodesOk(codes) && WellFormed(Symbols(codes)) && t.Match? && Encodable(codes, t) && Reachable(out, t)
    requires Fits(codes.lit) && Fits(codes.dist)
    requires Reaches(cfg, State(final, Symbols(codes), CopyBack(out, MatchLength(t), MatchDist(t))), x, goal, rest, m)
    ensures Reaches(cfg, State(final, Symbols(codes), out), Encode(codes, t) + x, goal, rest, n)
  {
    hide Step, Accepted, Reaches, DecodeSym, Code, Pow2, LengthExtraBits, DistExtraBits, LengthBase, DistBase,
         CopyBack, Fits, BitsOf, LeVal;
    var b3 := BitsOf(t.distExtra, DistExtraBits(t.dist)) + x;
    var b2 := Code(codes.dist, t.dist) + b3;
    var b1 := BitsOf(t.lenExtra, LengthExtraBits(t.len)) + b2;
    var b0 := Code(codes.lit, t.len) + b1;
    assert Encode(codes, t) + x == b0;
    var s0 := State(final, Symbols(codes), out);
    var s1 := s0.(phase := LengthExtra(codes, t.len));
    var s2 := s0.(phase := Distance(codes, MatchLength(t)));
    var s3 := s0.(phase := DistanceExtra(codes, MatchLength(t), t.dist));
    var s4 := s0.(phase := Copy(codes, MatchLength(t), MatchDist(t)));
    n := CopyRun(cfg, s4, x, goal, rest, m);
    ReadsBits(t.distExtra, DistExtraBits(t.dist), x);
    StepDistExtra(cfg, s3, b3);
    n := Before(cfg, s3, b3, s4, DistExtraBits(t.dist), goal, rest, n);
    DecodesCode(codes.dist, t.dist, b3);
    StepDist(cfg, s2, b2);
    n := Before(cfg, s2, b2, s3, codes.dist[t.dist], goal, rest, n);
    ReadsBits(t.lenExtra, LengthExtraBits(t.len), b2);
    StepLength(cfg, s1, b1);
    n := Before(cfg, s1, b1, s2, LengthExtraBits(t.len), goal, rest, n);
    DecodesCode(codes.lit, t.len, b1);
    StepLiteral(cfg, s0, b0);
    n := Before(cfg, s0, b0, s1, codes.lit[t.len], goal, rest, n);
  }

  lemma TokensRun(cfg: Config, final: bool, codes: Codes, out: seq<byte>, ts: seq<Token>, x: bits, goal: State,
                  rest: bits, m: nat)
    returns (n: nat)
    requires WideEnough(cfg)
    requires CodesOk(codes) && AllEncodable(codes, ts) && AllReachable(out, ts)
    requires Reaches(cfg, State(final, Symbols(codes), ExpandAll(out, ts)), x, goal, rest, m)
    ensures Reaches(cfg, State(final, Symbols(codes), out), EncodeAll(codes, ts) + x, goal, rest, n)
    decreases |ts|
  {
    hide Accepted, Reaches, Encode, Expand, Sound;
    if |ts| == 0 {
      assert EncodeAll(codes, ts) + x == x;
      n := m;
    } else {
      n := TokensRun(cfg, final, codes, Expand(out, ts[0]), ts[1..], x, goal, rest, m);
      var y := EncodeAll(codes, ts[1..]) + x;
      n := TokenRun(cfg, final, codes, out, ts[0], y, goal, rest, n);
      assert EncodeAll(codes, ts) + x == Encode(codes, ts[0]) + y;
    }
  }

  /** The tokens of a block and its end-of-block symbol. */
  function EncodeBody(codes: Codes, ts: seq<Token>): bits
    requires AllEncodable(codes, ts) && Uses(codes.lit, 256)
  {
    EncodeAll(codes, ts) + Code(codes.lit, 256)
  }

  lemma BodyRun(cfg: Config, final: bool, codes: Codes, out: seq<byte>, ts: seq<Token>, x: bits, goal: State,
                rest: bits, m: nat)
    returns (n: nat)
    requires WideEnough(cfg)
    requires CodesOk(codes) && AllEncodable(codes, ts) && AllReachable(out, ts) && Uses(codes.lit, 256)
    requires Reaches(cfg, State(final, EndBlock(cfg, final), ExpandAll(out, ts)), x, goal, rest, m)
    ensures Reaches(cfg, State(final, Symbols(codes), out), EncodeBody(codes, ts) + x, goal, rest, n)
  {
    hide Step, Accepted, Reaches, Encode, Expand, Reachable, Encodable, DecodeSym, Code, EncodeAll, ExpandAll,
         AllReachable;
    AcceptedFits(codes.lit);
    var st := State(final, Symbols(codes), ExpandAll(out, ts));
    var y := Code(codes.lit, 256) + x;
    DecodesCode(codes.lit, 256, x);
    StepLiteral(cfg, st, y);
    n := Before(cfg, st, y, st.(phase := EndBlock(cfg, final)), codes.lit[256], goal, rest, m);
    n := TokensRun(cfg, final, codes, out, ts, y, goal, rest, n);
    assert EncodeBody(codes, ts) + x == EncodeAll(codes, ts) + y;
  }

  // ----- stored blocks

  lemma ByteRead(c: byte, x: bits)
    ensures var b := BitsOf(c, 8) + x; |b| >= 8 && Byte(b) == c && b[8..] == x
  {
    Pow2Facts();
    ReadsBits(c, 8, x);
  }

  lemma StoredRun(cfg: Config, final: bool, out: seq<byte>, data: seq<byte>, x: bits, goal: State, rest: bits, m: nat)
    returns (n: nat)
    requires Reaches(cfg, State(final, EndBlock(cfg, final), out + data), x, goal, rest, m)
    ensures Reaches(cfg, State(final, StoredData(|data|), out), ByteBits(data) + x, goal, rest, n)
    decreases |data|
  {
    hide Step, Reaches, Byte, BitsOf;
    var b, st := ByteBits(data) + x, State(final, StoredData(|data|), out);
    if |data| == 0 {
      assert b == x && b[0..] == b && out + data == out;
      StepStoredEnd(cfg, st, b);
      n := Before(cfg, st, b, State(final, EndBlock(cfg, final), out), 0, goal, rest, m);
    } else {
      assert out + data == (out + [data[0]]) + data[1..];
      n := StoredRun(cfg, final, out + [data[0]], data[1..], x, goal, rest, m);
      var y := ByteBits(data[1..]) + x;
      var mid := State(final, StoredByte(data[0], |data|), out);
      assert y[0..] == y;
      StepPutStored(cfg, mid, y);
      n := Before(cfg, mid, y, State(final, StoredData(|data| - 1), out + [data[0]]), 0, goal, rest, n);
      assert b == BitsOf(data[0], 8) + y;
      ByteRead(data[0], y);
      StepStoredData(cfg, st, b);
      n := Before(cfg, st, b, mid, 8, goal, rest, n);
    }
  }

  /** LEN and its complement, least significant byte first. */
  function StoredLength(len: nat): (h: seq<byte>)
    requires len < 65536
    ensures |h| == 4
  {
    [len % 256, len / 256, 255 - len % 256, 255 - len / 256]
  }

  lemma HeaderRun(cfg: Config, final: bool, out: seq<byte>, h: seq<byte>, k: nat, x: bits, goal: State, rest: bits,
                  m: nat) returns (n: nat)
    requires |h| == 4 && k <= 4 && Reaches(cfg, State(final, AfterHeaderByte(h), out), x, goal, rest, m)
    ensures Reaches(cfg, State(final, AfterHeaderByte(h[..k]), out), ByteBits(h[k..]) + x, goal, rest, n)
    decreases 4 - k
  {
    hide Step, Reaches, Byte, BitsOf;
    var b := ByteBits(h[k..]) + x;
    if k == 4 {
      assert b == x && h[..k] == h;
      n := m;
    } else {
      n := HeaderRun(cfg, final, out, h, k + 1, x, goal, rest, m);
      var y := ByteBits(h[k + 1..]) + x;
      assert h[k..][1..] == h[k + 1..] && h[..k] + [h[k]] == h[..k + 1];
      assert b == BitsOf(h[k], 8) + y;
      ByteRead(h[k], y);
      var st := State(final, AfterHeaderByte(h[..k]), out);
      StepStoredHeader(cfg, st, b);
      n := Before(cfg, st, b, State(final, AfterHeaderByte(h[..k + 1]), out), 8, goal, rest, n);
    }
  }

  lemma StoredBlockRun(cfg: Config, final: bool, out: seq<byte>, gap: bits, data: seq<byte>, x: bits, goal: State,
                       rest: bits, m: nat)
    returns (n: nat)
    requires |data| < 65536 && |gap| < 8 && Partial(|x|) == 0
    requires Reaches(cfg, State(final, EndBlock(cfg, final), out + data), x, goal, rest, m)
    ensures Reaches(cfg, State(final, StoredAlign, out), gap + ByteBits(StoredLength(|data|) + data) + x, goal, rest, n)
  {
    hide Step, Reaches, Byte, ByteBits;
    var h := StoredLength(|data|);
    var y := ByteBits(data) + x;
    n := StoredRun(cfg, final, out, data, x, goal, rest, m);
    n := HeaderRun(cfg, final, out, h, 0, y, goal, rest, n);
    assert h[..0] == [] && h[0..] == h;
    ByteBitsConcat(h, data);
    var b := gap + (ByteBits(h) + y);
    assert b == gap + ByteBits(h + data) + x;
    var st := State(final, StoredAlign, out);
    StepAlign(cfg, st, b);
    WholeBytes(|gap|, |h + data|, |x|);
    assert b[|gap|..] == ByteBits(h) + y;
    n := Before(cfg, st, b, State(final, StoredHeader([]), out), |gap|, goal, rest, n);
  }

  lemma WholeBytes(gap: nat, bytes: nat, n: nat)
    requires gap < 8 && Partial(n) == 0
    ensures Partial(gap + (8 * bytes + n)) == gap
  {
  }

  // ----- the tables of section 3.2.5 of RFC 1951 leave no gap

  lemma {:induction false} LengthAtLeast(len: nat, sym: nat)
    requires 257 <= sym <= 285 && LengthBase(sym) <= len <= 258
    ensures exists t: Token :: t.Match? && Sound(t) && MatchLength(t) == len
    decreases 285 - sym
  {
    if sym < 285 && LengthBase(sym + 1) <= len {
      LengthAtLeast(len, sym + 1);
    } else {
      LengthSteps(sym - 257);
      var t := Match(sym, len - LengthBase(sym), 0, 0);
      assert Sound(t) && MatchLength(t) == len;
    }
  }

  lemma {:induction false} DistAtLeast(dist: nat, sym: nat)
    requires sym < 30 && DistBase(sym) <= dist <= 32768
    ensures exists t: Token :: t.Match? && Sound(t) && MatchDist(t) == dist
    decreases 30 - sym
  {
    if sym < 29 && DistBase(sym + 1) <= dist {
      DistAtLeast(dist, sym + 1);
    } else {
      DistSteps(sym);
      var t := Match(257, 0, sym, dist - DistBase(sym));
      assert Sound(t) && MatchDist(t) == dist;
    }
  }

  lemma LengthSteps(i: nat)
    requires i < 29
    ensures LENGTH_BASE[i] + Pow2(LENGTH_EXTRA[i]) >= if i == 28 then 259 else LENGTH_BASE[i + 1]
  {
    assert Pow2(5) == 32 && Pow2(4) == 16 && Pow2(3) == 8 && Pow2(2) == 4 && Pow2(1) == 2 && Pow2(0) == 1;
  }

  lemma DistSteps(i: nat)
    requires i < 30
    ensures DIST_BASE[i] + Pow2(DIST_EXTRA[i]) >= if i == 29 then 32769 else DIST_BASE[i + 1]
  {
    assert Pow2(5) == 32 && Pow2(4) == 16 && Pow2(3) == 8 && Pow2(2) == 4 && Pow2(1) == 2 && Pow2(0) == 1;
    assert Pow2(6) == 64 && Pow2(7) == 128 && Pow2(8) == 256 && Pow2(9) == 512 && Pow2(10) == 1024;
    assert Pow2(11) == 2048 && Pow2(12) == 4096 && Pow2(13) == 8192;
  }

  /** Every length 3..258 at every distance 1..32768 has an encoding. */
  lemma EveryMatchHasToken(len: nat, dist: nat)
    requires 3 <= len <= 258 && 1 <= dist <= 32768
    ensures exists t: Token :: t.Match? && Sound(t) && MatchLength(t) == len && MatchDist(t) == dist
  {
    LengthAtLeast(len, 257);
    DistAtLeast(dist, 0);
    var a: Token :| a.Match? && Sound(a) && MatchLength(a) == len;
    var b: Token :| b.Match? && Sound(b) && MatchDist(b) == dist;
    var t := Match(a.len, a.lenExtra, b.dist, b.distExtra);
    assert Sound(t) && MatchLength(t) == len && MatchDist(t) == dist;
  }
}
