/** Chunks that the system maps directly: regions of their own, beside all segments. */
module AllocDirect {
  import opened Numbers
  import opened AllocSizes
  import opened AllocRings
  import opened AllocHeap
  import opened AllocSegments
  import opened AllocMapping
  import opened AllocTags
  import opened AllocIndex
  import opened AllocGrants
  import opened AllocPayloads
  import opened AllocReleasing

  const DEFAULT_MMAP_THRESHOLD := 0x2_0000
  const DIRECT_FOOT_PAD := 32
  const DIRECT_CHUNK_OVERHEAD := 16
  const IS_DIRECT_BIT := 1

  /** How much is mapped for a chunk of `nb` bytes; wraps around for the largest requests. */
  function MapSize(nb: nat): nat { ((nb + 55) % WORD + PAGE - 1) % WORD / PAGE * PAGE }

  lemma PagesUp(x: nat)
    requires x < WORD
    ensures (x + PAGE - 1) % WORD / PAGE * PAGE % PAGE == 0 && (x + PAGE - 1) % WORD / PAGE * PAGE < WORD
    ensures x + PAGE - 1 < WORD ==> x <= (x + PAGE - 1) % WORD / PAGE * PAGE < x + PAGE
    ensures x + PAGE - 1 >= WORD ==> (x + PAGE - 1) % WORD / PAGE * PAGE == 0
  {
    var y := x + PAGE - 1;
    if y < WORD { DivUnique(y, WORD, 0, y); } else { DivUnique(y, WORD, 1, y - WORD); }
    DivUnique(y % WORD / PAGE * PAGE, PAGE, y % WORD / PAGE, 0);
  }

  /** The size that is mapped has room for the chunk, or the request was too large and it is not larger than that. */
  lemma MapSizeFits(nb: nat)
    requires nb <= MAX_SIZE_T
    ensures MapSize(nb) % PAGE == 0 && MapSize(nb) % 8 == 0 && MapSize(nb) < WORD
    ensures MapSize(nb) > nb ==> nb + 55 <= MapSize(nb) < nb + 55 + PAGE
    ensures nb + 55 < WORD && MapSize(nb) > 0 ==> MapSize(nb) > nb
  {
    var x := (nb + 55) % WORD;
    if nb + 55 < WORD { DivUnique(nb + 55, WORD, 0, nb + 55); } else { DivUnique(nb + 55, WORD, 1, nb + 55 - WORD); }
    PagesUp(x);
    PageMultiple(MapSize(nb));
  }

  /** The pages of a chunk of `z` bytes at `p`. */
  function Region(p: int, z: nat): Segment { Segment(p, z + DIRECT_FOOT_PAD) }

  /** The chunk for `nb` bytes and its region. */
  lemma MapRegion(base: int, nb: nat)
    requires nb <= MAX_SIZE_T && MapSize(nb) > 0 && (MapSize(nb) > nb || nb + 55 < WORD)
    ensures nb < MAX_SIZE_T && nb + 55 <= MapSize(nb) < nb + 55 + PAGE
    ensures var z := MapSize(nb) - DIRECT_FOOT_PAD;
      z % 8 == 0 && z >= SIZE_T_SIZE && Region(base, z) == Segment(base, MapSize(nb))
  {
    hide MapSize;
    MapSizeFits(nb);
    DivUnique(MapSize(nb) - DIRECT_FOOT_PAD, 8, MapSize(nb) / 8 - 4, 0);
  }

  ghost predicate Away(direct: map<int, nat>, s: Segment) { forall p | p in direct :: Clear(Region(p, direct[p]), s) }

  /** CINUSE, but not PINUSE, and the mark where a chunk of a segment would have a multiple of 8. */
  predicate DirectWords(head: Words, foot: Words, p: int, z: nat)
  {
    At(head, p) == Head(z, true, false) && At(foot, p) == IS_DIRECT_BIT && z % 8 == 0
  }

  /** The regions of the chunks are apart from each other and from the segments, and the words tell them. */
  ghost predicate DirectOk(direct: map<int, nat>, segs: seq<Segment>, head: Words, foot: Words)
  {
    && (forall p | p in direct :: Unmapped(segs, Region(p, direct[p])))
    && (forall p, q | p in direct && q in direct && p != q :: Clear(Region(p, direct[p]), Region(q, direct[q])))
    && (forall p | p in direct :: DirectWords(head, foot, p, direct[p]))
  }

  /** A chunk of a region has no use for the foot of a successor: it offers as much as a chunk of a segment that is 8
      bytes smaller. */
  function Offers(z: nat): nat { if z >= SIZE_T_SIZE then z - SIZE_T_SIZE else 0 }

  function Directs(direct: map<int, nat>): map<int, nat> { map p | p in direct :: Offers(direct[p]) }

  lemma DirectAt(direct: map<int, nat>, segs: seq<Segment>, head: Words, foot: Words, p: int)
    requires DirectOk(direct, segs, head, foot) && p in direct
    ensures Unmapped(segs, Region(p, direct[p])) && DirectWords(head, foot, p, direct[p])
    ensures direct[p] >= PAGE - DIRECT_FOOT_PAD && p > 0 && p in Directs(direct)
    ensures ChunkSize(At(head, p)) == direct[p] && Cinuse(At(head, p)) && !Pinuse(At(head, p))
  {
    HeadFields(direct[p], true, false);
  }

  lemma NoDirects(segs: seq<Segment>, head: Words, foot: Words)
    ensures DirectOk(map[], segs, head, foot)
  {
  }

  // ----- segments come and go

  lemma DirectSegs(direct: map<int, nat>, segs: seq<Segment>, head: Words, foot: Words, segs': seq<Segment>, s: Segment)
    requires DirectOk(direct, segs, head, foot) && Away(direct, s)
    requires forall i | 0 <= i < |segs'| :: PartOf(segs'[i], segs, s)
    ensures DirectOk(direct, segs', head, foot)
  {
    forall p | p in direct ensures Unmapped(segs', Region(p, direct[p])) {
      assert Unmapped(segs, Region(p, direct[p]));
      forall i | 0 <= i < |segs'| ensures Clear(segs'[i], Region(p, direct[p])) {
        assert PartOf(segs'[i], segs, s);
        var j: nat :| j < |segs| && Part(segs'[i], segs[j], s);
      }
    }
  }

  lemma DirectLonger(direct: map<int, nat>, segs: seq<Segment>, head: Words, foot: Words, i: nat, extra: nat)
    requires DirectOk(direct, segs, head, foot) && i < |segs| && Away(direct, Segment(End(segs[i]), extra))
    ensures DirectOk(direct, Longer(segs, i, extra), head, foot)
  {
    hide DirectOk, Away;
    var segs', s := Longer(segs, i, extra), Segment(End(segs[i]), extra);
    forall k | 0 <= k < |segs'| ensures PartOf(segs'[k], segs, s) {
      assert Part(segs'[k], segs[k], s);
    }
    DirectSegs(direct, segs, head, foot, segs', s);
  }

  lemma DirectEarlier(direct: map<int, nat>, segs: seq<Segment>, head: Words, foot: Words, i: nat, extra: nat)
    requires DirectOk(direct, segs, head, foot) && i < |segs| && Away(direct, Segment(segs[i].base - extra, extra))
    ensures DirectOk(direct, Earlier(segs, i, extra), head, foot)
  {
    hide DirectOk, Away;
    var segs', s := Earlier(segs, i, extra), Segment(segs[i].base - extra, extra);
    forall k | 0 <= k < |segs'| ensures PartOf(segs'[k], segs, s) {
      assert Part(segs'[k], segs[k], s);
    }
    DirectSegs(direct, segs, head, foot, segs', s);
  }

  ghost predicate PartOf(t: Segment, segs: seq<Segment>, s: Segment)
  {
    exists j | 0 <= j < |segs| :: Part(t, segs[j], s)
  }

  lemma IsPart(t: Segment, segs: seq<Segment>, j: nat, s: Segment)
    requires j < |segs| && (t == segs[j] || t == s)
    ensures PartOf(t, segs, s)
  {
  }

  lemma DirectCons(direct: map<int, nat>, segs: seq<Segment>, head: Words, foot: Words, s: Segment)
    requires DirectOk(direct, segs, head, foot) && |segs| > 0 && Away(direct, s)
    ensures DirectOk(direct, [s] + segs, head, foot)
  {
    hide DirectOk, Away, PartOf;
    var segs' := [s] + segs;
    forall k | 0 <= k < |segs'| ensures PartOf(segs'[k], segs, s) {
      var j := if k == 0 then 0 else k - 1;
      IsPart(segs'[k], segs, j, s);
    }
    DirectSegs(direct, segs, head, foot, segs', s);
  }

  lemma DirectShorter(direct: map<int, nat>, segs: seq<Segment>, head: Words, foot: Words, extra: nat)
    requires DirectOk(direct, segs, head, foot) && |segs| > 0 && extra <= segs[0].size
    ensures DirectOk(direct, Shorter(segs, extra), head, foot)
  {
    forall p | p in direct ensures Unmapped(Shorter(segs, extra), Region(p, direct[p])) {
      assert Unmapped(segs, Region(p, direct[p]));
    }
  }

  lemma DirectDropped(direct: map<int, nat>, segs: seq<Segment>, head: Words, foot: Words, i: nat)
    requires DirectOk(direct, segs, head, foot) && i < |segs|
    ensures DirectOk(direct, Dropped(segs, i), head, foot)
  {
    forall p | p in direct ensures Unmapped(Dropped(segs, i), Region(p, direct[p])) {
      assert Unmapped(segs, Region(p, direct[p]));
    }
  }

  /** `t` consists of pages of `u` and of `s`. */
  predicate Part(t: Segment, u: Segment, s: Segment)
  {
    || (u.base <= t.base && End(t) <= End(u))
    || (s.base <= t.base && End(t) <= End(s))
    || (t.base == u.base && End(u) == s.base && End(t) == End(s))
    || (t.base == s.base && End(s) == u.base && End(t) == End(u))
  }

  // ----- what is written elsewhere

  lemma SegBeside(direct: map<int, nat>, segs: seq<Segment>, head: Words, foot: Words, d: map<int, nat>, i: nat, x: int,
                  n: nat)
    requires DirectOk(direct, segs, head, foot) && Keeps(d, Directs(direct)) && i < |segs| && segs[i].base <= x
      && x + n <= End(segs[i])
    ensures Beside(d, x, n)
  {
    forall c, y | c in d && x <= y < x + n ensures !InPayload(c, d[c], y) {
      assert Unmapped(segs, Region(c, direct[c]));
      assert Clear(segs[i], Region(c, direct[c]));
    }
  }

  /** The words at a chunk boundary, and those of a free chunk, are in its segment. */
  lemma WordsWithin(b: Blocks, segs: seq<Segment>, top: int, a: int) returns (i: nat)
    requires HeapOk(b, segs, top) && top in b && (a in b || a == Next(b, top))
    ensures i < |segs| && segs[i].base <= a && a + 16 <= End(segs[i])
    ensures a in b && b[a].kind == Free ==> a + 64 <= End(segs[i]) && a + b[a].size <= End(segs[i])
  {
    hide BlockOk, SegsApart, Inside;
    SizePositive(b, top);
    if a in b {
      SizePositive(b, a);
      i := InsideAt(segs, a, Extent(b[a]));
    } else {
      i := 0;
    }
  }

  /** No word at a chunk boundary is one of those chunks'. */
  lemma BoundaryFar(b: Blocks, segs: seq<Segment>, top: int, direct: map<int, nat>, head: Words, foot: Words,
                    d: map<int, nat>, a: int)
    requires HeapOk(b, segs, top) && DirectOk(direct, segs, head, foot) && Keeps(d, Directs(direct))
      && top in b && (a in b || a == Next(b, top))
    ensures Beside(d, a, 8) && Beside(d, a + 8, 8) && a !in direct
  {
    hide HeapOk, Beside, Keeps, DirectOk;
    var i := WordsWithin(b, segs, top, a);
    SegBeside(direct, segs, head, foot, d, i, a, 16);
    BesideHalf(d, a, 8);
    if a in direct { InNoSegment(direct, segs, head, foot, i, a); }
  }

  lemma SameWords(direct: map<int, nat>, segs: seq<Segment>, head: Words, foot: Words, head': Words, foot': Words)
    requires DirectOk(direct, segs, head, foot)
      && forall p | p in direct :: At(head', p) == At(head, p) && At(foot', p) == At(foot, p)
    ensures DirectOk(direct, segs, head', foot')
  {
    hide Unmapped, Clear;
  }

  lemma DirectTags(b: Blocks, segs: seq<Segment>, top: int, direct: map<int, nat>, d: map<int, nat>, mem: Mem,
                   head: Words, foot: Words)
    requires HeapOk(b, segs, top) && DirectOk(direct, segs, mem.head, mem.foot) && Keeps(d, Directs(direct))
      && top in b && TagWrites(b, top, mem, head, foot)
    ensures DirectOk(direct, segs, head, foot) && Untouched(d, mem, mem.(head := head, foot := foot))
  {
    hide HeapOk, Beside, Keeps, DirectOk;
    forall a | a in b || a == Next(b, top) ensures Beside(d, a, 8) && Beside(d, a + 8, 8) && a !in direct {
      BoundaryFar(b, segs, top, direct, mem.head, mem.foot, d, a);
    }
    SameWords(direct, segs, mem.head, mem.foot, head, foot);
    forall a ensures SameBranch(mem, mem.(head := head, foot := foot), a) { }
  }

  lemma InNoSegment(direct: map<int, nat>, segs: seq<Segment>, head: Words, foot: Words, i: nat, p: int)
    requires DirectOk(direct, segs, head, foot) && p in direct && i < |segs|
    ensures !Within(segs[i], p)
  {
    assert Unmapped(segs, Region(p, direct[p]));
    assert Clear(segs[i], Region(p, direct[p]));
  }

  lemma BesideHalf(d: map<int, nat>, x: int, n: nat)
    requires Beside(d, x, 2 * n)
    ensures Beside(d, x, n) && Beside(d, x + n, n)
  {
    hide InPayload;
  }

  lemma DirectLinks(b: Blocks, segs: seq<Segment>, top: int, direct: map<int, nat>, d: map<int, nat>, off: set<int>,
                    mem: Mem, mem': Mem)
    requires HeapOk(b, segs, top) && DirectOk(direct, segs, mem.head, mem.foot) && Keeps(d, Directs(direct))
      && top in b && OnlyLinks(Spare(b, off), mem, mem')
    ensures DirectOk(direct, segs, mem'.head, mem'.foot) && Untouched(d, mem, mem')
  {
    hide HeapOk, Beside, Keeps, DirectOk, SameBranch;
    forall a | a in Spare(b, off)
      ensures Beside(d, a + 16, 16) && (Spare(b, off)[a] >= 256 ==> Beside(d, a + 32, 32))
    {
      var i := WordsWithin(b, segs, top, a);
      SegBeside(direct, segs, mem.head, mem.foot, d, i, a + 16, 16);
      if Spare(b, off)[a] >= 256 { SegBeside(direct, segs, mem.head, mem.foot, d, i, a + 32, 32); }
    }
  }

  // ----- a region comes, grows or shrinks, or goes

  /** Only words of a chunk of `z` bytes at `p` are written: its own and those behind it. */
  ghost predicate MapWrites(mem: Mem, head: Words, foot: Words, p: int, z: nat)
  {
    && (forall a | At(head, a) != At(mem.head, a) :: a == p || a == p + z || a == p + z + SIZE_T_SIZE)
    && (forall a | At(foot, a) != At(mem.foot, a) :: a == p)
  }

  lemma DirectSet(direct: map<int, nat>, segs: seq<Segment>, mem: Mem, head: Words, foot: Words, p: int, z: nat)
    requires DirectOk(direct, segs, mem.head, mem.foot) && MapWrites(mem, head, foot, p, z)
    requires Unmapped(segs, Region(p, z)) && Away(direct - {p}, Region(p, z)) && DirectWords(head, foot, p, z)
    ensures DirectOk(direct[p := z], segs, head, foot)
  {
    hide Unmapped;
    forall q | q in direct && q != p
      ensures DirectWords(head, foot, q, direct[q]) && Clear(Region(q, direct[q]), Region(p, z))
    {
      assert q in direct - {p};
    }
  }

  lemma DirectGone(direct: map<int, nat>, segs: seq<Segment>, head: Words, foot: Words, p: int)
    requires DirectOk(direct, segs, head, foot)
    ensures DirectOk(direct - {p}, segs, head, foot)
  {
    hide Unmapped, Clear;
  }

  lemma RegionBeside(b: Blocks, segs: seq<Segment>, top: int, kept: map<int, nat>, p: int, z: nat, x: int, n: nat)
    requires HeapOk(b, segs, top) && Keeps(kept, Lives(b)) && Unmapped(segs, Region(p, z))
      && p <= x && x + n <= End(Region(p, z))
    ensures Beside(kept, x, n)
  {
    hide Tiled, SegsApart, TopOk, Fenced, Inside;
    forall c, y | c in kept && x <= y < x + n ensures !InPayload(c, kept[c], y) {
      var i := InsideAt(segs, c, Extent(b[c]));
    }
  }

  lemma OthersBeside(direct: map<int, nat>, segs: seq<Segment>, mem: Mem, d: map<int, nat>, p: int, z: nat, x: int,
                     n: nat)
    requires DirectOk(direct, segs, mem.head, mem.foot) && Keeps(d, Directs(direct)) && Away(direct - {p}, Region(p, z))
      && (p in d ==> d[p] + 8 <= z) && p <= x && x + n <= End(Region(p, z)) && (x + n <= p + 16 || p + z <= x)
    ensures Beside(d, x, n)
  {
    hide Unmapped;
    forall c, y | c in d && x <= y < x + n ensures !InPayload(c, d[c], y) {
      if c != p { assert c in direct - {p}; }
    }
  }

  lemma MapUntouched(b: Blocks, segs: seq<Segment>, top: int, direct: map<int, nat>, kept: map<int, nat>,
                     d: map<int, nat>, mem: Mem, head: Words, foot: Words, p: int, z: nat)
    requires HeapOk(b, segs, top) && Keeps(kept, Lives(b)) && DirectOk(direct, segs, mem.head, mem.foot)
      && Keeps(d, Directs(direct))
    requires MapWrites(mem, head, foot, p, z) && Unmapped(segs, Region(p, z)) && Away(direct - {p}, Region(p, z))
      && (p in d ==> d[p] + 8 <= z)
    ensures var mem' := mem.(head := head, foot := foot); Untouched(kept, mem, mem') && Untouched(d, mem, mem')
  {
    hide HeapOk, Beside, Keeps, DirectOk, Unmapped, Away;
    forall x | x == p || x == p + 8 || x == p + z + 8 || x == p + z + 16 ensures Beside(kept, x, 8) && Beside(d, x, 8) {
      RegionBeside(b, segs, top, kept, p, z, x, 8);
      OthersBeside(direct, segs, mem, d, p, z, x, 8);
    }
    forall a ensures SameBranch(mem, mem.(head := head, foot := foot), a) { }
  }

  /** No chunk of a segment has its words there. */
  lemma MapTags(b: Blocks, segs: seq<Segment>, top: int, mem: Mem, head: Words, foot: Words, p: int, z: nat)
    requires HeapOk(b, segs, top) && Tagged(b, mem.head, mem.foot) && MapWrites(mem, head, foot, p, z)
      && Unmapped(segs, Region(p, z))
    ensures Tagged(b, head, foot)
  {
    hide Tiled, TopOk, Fenced, SegsApart, Inside, Unmapped;
    forall a | a in b ensures At(head, a) == At(mem.head, a) && At(foot, a) == At(mem.foot, a) {
      SizePositive(b, a) by { assert Tiled(b); }
      Elsewhere(b, segs, Region(p, z), a);
    }
  }

  /** The chunk is in a new region. */
  ghost predicate NewRegion(direct: map<int, nat>, direct': map<int, nat>, p: int, nb: nat)
  {
    p > 0 && p !in direct && nb >= DEFAULT_MMAP_THRESHOLD && nb + 55 <= MapSize(nb) < nb + 55 + PAGE
      && direct' == direct[p := MapSize(nb) - DIRECT_FOOT_PAD]
  }

  /** The chunk need not be resized. */
  predicate KeepsRegionSize(z: nat, nb: nat) { z >= nb + SIZE_T_SIZE && z - nb <= DEFAULT_GRANULARITY / 2 }

  /** Nothing is where new pages are mapped. */
  lemma FreshRegion(segs: seq<Segment>, direct: map<int, nat>, d: map<int, nat>, s: Segment)
    requires Unmapped(segs, s) && Away(direct, s) && Keeps(d, Directs(direct))
    ensures s.base > 0 && s.base !in direct && s.base !in d && direct - {s.base} == direct
  {
    assert forall p | p in direct :: Clear(Region(p, direct[p]), s);
  }

  lemma RegionWrites(direct: map<int, nat>, segs: seq<Segment>, mem: Mem, head: Words, foot: Words, p: int, z: nat)
    requires head == mem.head[p := Head(z, true, false)][p + z := FENCEPOST_HEAD][p + z + SIZE_T_SIZE := 0]
    requires foot == mem.foot[p := IS_DIRECT_BIT] || (foot == mem.foot && p in direct)
    requires DirectOk(direct, segs, mem.head, mem.foot) && z > 0 && z % 8 == 0
    ensures MapWrites(mem, head, foot, p, z) && DirectWords(head, foot, p, z)
  {
    hide Unmapped, Clear;
    if foot == mem.foot && p in direct { assert DirectWords(mem.head, mem.foot, p, direct[p]); }
  }

  lemma KeepsRegion(d: map<int, nat>, direct: map<int, nat>, p: int, z: nat)
    requires Keeps(d, Directs(direct)) && z >= 8 && (p in d ==> d[p] + 8 <= z)
    ensures Keeps(d, Directs(direct[p := z]))
  {
  }

  lemma RegionsApart(direct: map<int, nat>, segs: seq<Segment>, head: Words, foot: Words, p: int, q: int)
    requires DirectOk(direct, segs, head, foot) && p in direct && q in direct && p != q
    ensures p + direct[p] <= q || q + direct[q] <= p
  {
    assert Clear(Region(p, direct[p]), Region(q, direct[q]));
  }

  lemma FarFrom(b: Blocks, segs: seq<Segment>, top: int, direct: map<int, nat>, head: Words, foot: Words, p: int,
                a: int)
    requires HeapOk(b, segs, top) && DirectOk(direct, segs, head, foot) && p in direct && a in b
    ensures p + direct[p] <= a || Next(b, a) <= p
  {
    hide Tiled, TopOk, Fenced, SegsApart, Inside, Unmapped;
    assert Unmapped(segs, Region(p, direct[p]));
    Elsewhere(b, segs, Region(p, direct[p]), a);
  }
}
