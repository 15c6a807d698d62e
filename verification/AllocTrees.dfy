/** Tree bins: each is a bitwise trie over the sizes of one size class, with one node per size and chunks
    of equal size in a ring around their node. */
module AllocTrees {
  import opened Numbers
  import opened AllocSizes
  import opened AllocRings

  /** The way from the root of a tree to a node: the bits of a size, most significant first. */
  type Path = seq<bool>

  type Trie = map<Path, int>

  /** `place` inverts the tries; `ring` lists the chunks of a node, itself first; `node` leads back from them. */
  datatype Trees = Trees(tries: seq<Trie>, place: map<int, (nat, Path)>, ring: map<int, seq<int>>, node: map<int, int>)

  // ----- the sizes below a node

  /** How many bits of a size distinguish the chunks of bin `i`. */
  function Bits(i: nat): nat { if i == NTREEBINS - 1 then 64 else i / 2 + 7 }

  function Base(i: nat): nat { if i == NTREEBINS - 1 then 0 else MinSize(i) }

  function Lo(i: nat, p: Path): nat
    requires |p| <= Bits(i)
  {
    if p == [] then Base(i) else Lo(i, p[..|p| - 1]) + if p[|p| - 1] then Pow2(Bits(i) - |p|) else 0
  }

  /** The sizes that can be found below path `p` of bin `i`. */
  predicate Covers(i: nat, p: Path, s: nat)
  {
    |p| <= Bits(i) && Lo(i, p) <= s < Lo(i, p) + Pow2(Bits(i) - |p|)
  }

  /** The next bit of the size. */
  predicate Goes(i: nat, p: Path, s: nat)
    requires |p| < Bits(i)
  {
    s >= Lo(i, p) + Pow2(Bits(i) - |p| - 1)
  }

  lemma CoversChild(i: nat, p: Path, s: nat, d: bool)
    requires |p| < Bits(i)
    ensures Covers(i, p + [d], s) <==> Covers(i, p, s) && d == Goes(i, p, s)
    ensures Lo(i, p + [d]) == Lo(i, p) + if d then Pow2(Bits(i) - |p| - 1) else 0
  {
    assert (p + [d])[..|p|] == p;
    assert Pow2(Bits(i) - |p|) == 2 * Pow2(Bits(i) - |p| - 1);
  }

  lemma {:induction false} CoversUp(i: nat, p: Path, k: nat, s: nat)
    requires Covers(i, p, s) && k <= |p|
    ensures Covers(i, p[..k], s) && (k < |p| ==> p[k] == Goes(i, p[..k], s))
    decreases |p|
  {
    if k == |p| {
      assert p[..k] == p;
    } else {
      var q := p[..|p| - 1];
      assert q + [p[|p| - 1]] == p;
      CoversChild(i, q, s, p[|p| - 1]);
      CoversUp(i, q, k, s);
      assert q[..k] == p[..k];
    }
  }

  /** The paths that cover a size are the prefixes of one path. */
  lemma {:induction false} CoverChain(i: nat, p: Path, q: Path, s: nat)
    requires Covers(i, p, s) && Covers(i, q, s) && |p| <= |q|
    ensures p == q[..|p|]
    decreases |p|
  {
    if p != [] {
      var k := |p| - 1;
      CoversUp(i, p, k, s);
      CoversUp(i, q, k, s);
      CoversUp(i, q, |p|, s);
      CoverChain(i, p[..k], q, s);
      assert p == p[..k] + [p[k]] && q[..|p|] == q[..k] + [q[k]];
    }
  }

  lemma RootCovers(s: nat)
    requires 0x100 <= s < TERA
    ensures Covers(TreeIndex(s), [], s)
  {
    var i := TreeIndex(s);
    IndexBrackets(s);
    if i == 31 {
      TeraIs();
      Pow2Mono(40, 64);
    } else {
      NextMinSize(i);
    }
  }

  /** A node that takes all bits of a size has that size. */
  lemma FullPath(i: nat, p: Path, s: nat, t: nat)
    requires |p| == Bits(i) && Covers(i, p, s) && Covers(i, p, t)
    ensures s == t
  {
  }

  // ----- the bits of a size as the source extracts them

  const TOP_BIT := 0x8000_0000_0000_0000

  function LeftShift(i: nat): nat
    requires i < NTREEBINS
  {
    if i == NTREEBINS - 1 then 0 else 63 - (i / 2 + 6)
  }

  /** The size shifted left so that the bit after path `p` comes first. */
  function Key(i: nat, p: Path, s: nat): nat
    requires i < NTREEBINS
  {
    s * Pow2(LeftShift(i) + |p|) % WORD
  }

  lemma {:induction false} LoMultiple(i: nat, p: Path) returns (m: nat)
    requires i < NTREEBINS && |p| <= Bits(i)
    ensures Lo(i, p) == m * Pow2(Bits(i) - |p|)
  {
    hide Pow2;
    if p == [] {
      m := if i == 31 then 0 else 2 + i % 2;
      PowStep(i / 2 + 7);
    } else {
      var h := LoMultiple(i, p[..|p| - 1]);
      m := 2 * h + if p[|p| - 1] then 1 else 0;
      var e := Bits(i) - |p|;
      PowStep(e);
      Halves(h, Pow2(e));
    }
  }

  lemma Halves(h: int, w: int)
    ensures h * (2 * w) == 2 * h * w && (2 * h + 1) * w == 2 * h * w + w
  {
  }

  lemma WordIs()
    ensures Pow2(64) == WORD && Pow2(63) == TOP_BIT
  {
    TeraIs();
    SixteenBits();
    Pow2Add(40, 16);
    Pow2Add(56, 8);
    assert Pow2(64) == 2 * Pow2(63);
  }

  /** The top bit of the key tells which way to go. */
  lemma KeyBit(i: nat, p: Path, s: nat)
    requires i < NTREEBINS && Covers(i, p, s) && |p| < Bits(i)
    ensures Key(i, p, s) / TOP_BIT == if Goes(i, p, s) then 1 else 0
    ensures Key(i, p + [Goes(i, p, s)], s) == Key(i, p, s) * 2 % WORD
  {
    var m := LoMultiple(i, p);
    var n, e := Bits(i) - |p|, LeftShift(i) + |p|;
    var r := s - Lo(i, p);
    WordIs();
    Pow2Add(n, e);
    assert n + e == 64;
    ShiftOut(m, Pow2(n), r, Pow2(e));
    Pow2Add(n - 1, e);
    TopBitOf(r, Pow2(n - 1), Pow2(e));
    KeyDoubles(s, e);
  }

  lemma KeyDoubles(s: nat, e: nat)
    ensures s * Pow2(e + 1) % WORD == s * Pow2(e) % WORD * 2 % WORD
  {
    hide Pow2;
    PowStep(e);
    Halves(s, Pow2(e));
    assert s * Pow2(e + 1) == 2 * (s * Pow2(e));
    DoubleMod(s * Pow2(e));
  }

  lemma DoubleMod(x: nat)
    ensures 2 * x % WORD == x % WORD * 2 % WORD
  {
    var q, r := x / WORD, x % WORD;
    assert 2 * x == WORD * (2 * q) + 2 * r;
    if 2 * r < WORD {
      DivUnique(2 * x, WORD, 2 * q, 2 * r);
    } else {
      DivUnique(2 * x, WORD, 2 * q + 1, 2 * r - WORD);
      DivUnique(2 * r, WORD, 1, 2 * r - WORD);
    }
  }

  /** What lies above the interval is shifted out of the word. */
  lemma ShiftOut(m: nat, w: nat, r: nat, f: nat)
    requires w > 0 && w * f == WORD && r < w
    ensures (m * w + r) * f % WORD == r * f < WORD
  {
    assert (m * w + r) * f == m * (w * f) + r * f by { Spread(m, w, r, f); }
    assert r * f < w * f by { LessMul(r, w, f); }
    DivUnique((m * w + r) * f, WORD, m, r * f);
  }

  lemma Spread(m: int, w: int, r: int, f: int)
    ensures (m * w + r) * f == m * (w * f) + r * f
  {
    assert (m * w + r) * f == m * w * f + r * f;
  }

  lemma LessMul(a: nat, b: nat, f: nat)
    requires a < b && b * f > 0
    ensures a * f < b * f
  {
  }

  lemma TopBitOf(r: nat, h: nat, f: nat)
    requires h > 0 && h * f == TOP_BIT && r < 2 * h
    ensures r * f / TOP_BIT == if r >= h then 1 else 0
  {
    if r >= h {
      assert r * f == h * f + (r - h) * f;
      LessMul(r - h, h, f);
      DivUnique(r * f, TOP_BIT, 1, (r - h) * f);
    } else {
      LessMul(r, h, f);
      DivUnique(r * f, TOP_BIT, 0, r * f);
    }
  }
}
