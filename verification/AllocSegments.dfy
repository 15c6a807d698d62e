/** Segments of mapped memory, the top chunk, and how chunks lie in them. */
module AllocSegments {
  import opened AllocSizes
  import opened AllocHeap

  const PAGE := 4096

  datatype Segment = Segment(base: int, size: nat)

  function End(s: Segment): int { s.base + s.size }

  /** Pages below 2**40: the source takes its memory from the low 2 GB. */
  predicate SegOk(s: Segment) { s.base > 0 && s.base % PAGE == 0 && s.size % PAGE == 0 && s.size > 0 && End(s) <= TERA }

  predicate Holds(s: Segment, a: int, z: nat) { s.base <= a && a + z <= End(s) - SIZE_T_SIZE }

  ghost predicate Inside(segs: seq<Segment>, a: int, z: nat) { exists i | 0 <= i < |segs| :: Holds(segs[i], a, z) }

  /** `segment_holds`. */
  predicate Within(s: Segment, a: int) { s.base <= a < End(s) }

  predicate Clear(s: Segment, u: Segment) { End(s) <= u.base || End(u) <= s.base }

  ghost predicate SegsApart(segs: seq<Segment>)
  {
    (forall i | 0 <= i < |segs| :: SegOk(segs[i]))
      && forall i, j | 0 <= i < |segs| && 0 <= j < |segs| && i != j :: Clear(segs[i], segs[j])
  }

  /** What a chunk takes of its segment: all but the allocator's own ones stay clear of the room at the end that a
      segment record needs. */
  function Extent(z: Block): nat
  {
    if z.kind == Own || z.kind == Fence then z.size else z.size + TOP_FOOT_SIZE - SIZE_T_SIZE
  }

  ghost predicate AllInside(b: Blocks, segs: seq<Segment>)
  {
    && (forall a | a in b :: Inside(segs, a, Extent(b[a])))
    && (forall i | 0 <= i < |segs| :: segs[i].base in b)
  }

  /** The only top chunk, at the end of the first segment but for the space that a segment record would need. */
  ghost predicate TopOk(b: Blocks, segs: seq<Segment>, top: int)
  {
    && top in b && (forall a | a in b :: b[a].kind == Top <==> a == top)
    && |segs| > 0 && TopIn(b, segs[0], top)
    && (forall a | a in b && a > top :: a >= Next(b, top) + TOP_FOOT_SIZE)
  }

  predicate TopIn(b: Blocks, s: Segment, top: int)
    requires top in b
  {
    s.base <= top && End(s) == Next(b, top) + TOP_FOOT_SIZE
  }

  /** Every segment but the top chunk's ends with a fencepost. */
  ghost predicate Fenced(b: Blocks, segs: seq<Segment>, top: int)
    requires top in b
  {
    && (forall i | 0 <= i < |segs| :: TopIn(b, segs[i], top) || FenceAt(b, End(segs[i]) - 2 * SIZE_T_SIZE))
    && (forall a | a in b && b[a].kind == Fence ::
      Next(b, a) in b || exists i | 0 <= i < |segs| :: a == End(segs[i]) - 2 * SIZE_T_SIZE)
  }

  predicate FenceAt(b: Blocks, f: int) { f in b && b[f].kind == Fence }

  ghost predicate SegsOk(b: Blocks, segs: seq<Segment>, top: int)
  {
    SegsApart(segs) && AllInside(b, segs) && TopOk(b, segs, top) && Fenced(b, segs, top)
  }

  ghost predicate HeapOk(b: Blocks, segs: seq<Segment>, top: int)
  {
    Tiled(b) && SegsOk(b, segs, top)
  }

  // ----- changes that leave the extents of all chunks alone

  ghost predicate SameRoles(b: Blocks, b': Blocks)
  {
    SameSizes(b, b') && forall c | c in b ::
      c in b' && (b'[c].kind == Top <==> b[c].kind == Top) && (b'[c].kind == Fence <==> b[c].kind == Fence)
        && (b'[c].kind == Own <==> b[c].kind == Own)
  }

  lemma SameRolesSegs(b: Blocks, segs: seq<Segment>, top: int, b': Blocks)
    requires SegsOk(b, segs, top) && SameRoles(b, b')
    ensures SegsOk(b', segs, top)
  {
    hide SegsApart, Inside;
    forall i | 0 <= i < |segs| ensures TopIn(b', segs[i], top) <==> TopIn(b, segs[i], top) { }
  }

  lemma OccupyHeap(b: Blocks, segs: seq<Segment>, top: int, a: int)
    requires HeapOk(b, segs, top) && a in b && b[a].kind == Free
    ensures Next(b, a) in b && HeapOk(Occupy(b, a), segs, top)
  {
    hide SegsOk, Tiled;
    OccupyTiled(b, a);
    SameRolesSegs(b, segs, top, Occupy(b, a));
  }

  lemma VacateHeap(b: Blocks, segs: seq<Segment>, top: int, a: int)
    requires HeapOk(b, segs, top) && Vacant(b, a)
    ensures HeapOk(Vacate(b, a), segs, top)
  {
    hide SegsOk, Tiled;
    VacateTiled(b, a);
    SameRolesSegs(b, segs, top, Vacate(b, a));
  }

  // ----- cutting and joining

  lemma InsidePart(segs: seq<Segment>, a: int, z: nat, a': int, z': nat)
    requires Inside(segs, a, z) && a <= a' && a' + z' <= a + z
    ensures Inside(segs, a', z')
  {
    var i: nat :| i < |segs| && Holds(segs[i], a, z);
    assert Holds(segs[i], a', z');
  }

  lemma CarveHeap(b: Blocks, segs: seq<Segment>, top: int, a: int, nb: nat)
    requires HeapOk(b, segs, top) && Carves(b, a, nb)
    ensures a + nb !in b && HeapOk(Carve(b, a, nb), segs, top)
  {
    hide Tiled, SegsApart, Inside;
    CarveTiled(b, a, nb);
    var b' := Carve(b, a, nb);
    InsidePart(segs, a, Extent(b[a]), a, Extent(b'[a]));
    InsidePart(segs, a, Extent(b[a]), a + nb, Extent(b'[a + nb]));
    assert AllInside(b', segs);
    TopAfter(b, segs, top, a);
    forall i | 0 <= i < |segs| ensures TopIn(b', segs[i], top) <==> TopIn(b, segs[i], top) { }
  }

  /** A chunk that begins before the top chunk also ends before it. */
  lemma TopAfter(b: Blocks, segs: seq<Segment>, top: int, a: int)
    requires HeapOk(b, segs, top) && a in b && a != top
    ensures top in b && (a < top ==> Next(b, a) <= top) && (a > top ==> a >= Next(b, top) + TOP_FOOT_SIZE)
  {
    hide BlockOk, SegsApart, AllInside, Fenced;
    EndsDiffer(b, a, top);
  }

  /** A chunk and its successor are in the same segment. */
  lemma Together(b: Blocks, segs: seq<Segment>, a: int) returns (i: nat)
    requires SegsApart(segs) && AllInside(b, segs) && a in b && Next(b, a) in b && b[a].size > 0
    ensures i < |segs| && Holds(segs[i], a, b[a].size + Extent(b[Next(b, a)]))
    ensures forall j | 0 <= j < |segs| :: segs[j].base != Next(b, a)
  {
    hide SegsApart, Inside;
    var n := Next(b, a);
    i := InsideAt(segs, a, Extent(b[a]));
    var j := InsideAt(segs, n, Extent(b[n]));
    if i != j { SegFacts(segs, i, j); }
    forall k | 0 <= k < |segs| ensures segs[k].base != n {
      if k != i { SegFacts(segs, i, k); }
    }
  }

  lemma InsideAt(segs: seq<Segment>, a: int, z: nat) returns (i: nat)
    requires Inside(segs, a, z)
    ensures i < |segs| && Holds(segs[i], a, z)
  {
    i :| i < |segs| && Holds(segs[i], a, z);
  }

  lemma SegFacts(segs: seq<Segment>, i: nat, j: nat)
    requires SegsApart(segs) && i < |segs| && j < |segs| && i != j
    ensures Clear(segs[i], segs[j]) && SegOk(segs[i]) && SegOk(segs[j])
  {
  }

  lemma FuseHeap(b: Blocks, segs: seq<Segment>, top: int, a: int)
    requires HeapOk(b, segs, top) && Fuses(b, a)
    ensures HeapOk(Fuse(b, a), segs, top)
  {
    hide BlockOk, SegsApart, Inside, Apart;
    FuseTiled(b, a);
    hide Tiled;
    var b', n := Fuse(b, a), Next(b, a);
    SizePositive(b, a);
    var i := Together(b, segs, a);
    forall f | f in b && b[f].kind == Fence ensures Next(b, f) != n { SameEnd(b, f, a); }
    assert Inside(segs, a, Extent(b'[a])) by { InsideOf(segs, i, a, Extent(b'[a])); }
    assert AllInside(b', segs);
    forall i | 0 <= i < |segs| ensures TopIn(b', segs[i], top) <==> TopIn(b, segs[i], top) { }
  }

  lemma InsideOf(segs: seq<Segment>, i: nat, a: int, z: nat)
    requires i < |segs| && Holds(segs[i], a, z)
    ensures Inside(segs, a, z)
  {
  }

  lemma SizePositive(b: Blocks, a: int)
    requires Tiled(b) && a in b
    ensures b[a].size > 0 && b[a].size % 8 == 0 && a % 8 == 0 && a > 0
  {
    hide BlockOk;
    EndsDiffer(b, a, a);
    BlockFields(b, a);
  }

  lemma BlockFields(b: Blocks, a: int)
    requires a in b && BlockOk(b, a)
    ensures b[a].size > 0 && b[a].size % 8 == 0 && a % 8 == 0 && a > 0
    ensures b[a].kind == Live || b[a].kind == Own || b[a].kind == Free ==>
      Next(b, a) in b && b[a].size >= MIN_CHUNK_SIZE
    ensures b[a].gap > 0 ==> a - b[a].gap in b && b[a - b[a].gap] == Block(b[a].gap, Free, 0)
    ensures b[a].kind == Free || b[a].kind == Top ==> b[a].gap == 0
  {
  }
}
