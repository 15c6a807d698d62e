/** What the invariants of the heap mean for those who use it. */
module AllocTheorems {
  import opened AllocSizes
  import opened AllocRings
  import opened AllocHeap
  import opened AllocSegments
  import opened AllocMapping
  import opened AllocTags
  import opened AllocGrants
  import opened AllocPayloads

  /** Where the chunks of a segment end: before the space behind the top chunk, or behind the last fencepost. */
  function Limit(b: Blocks, s: Segment, top: int): int
    requires top in b
  {
    if TopIn(b, s, top) then End(s) - TOP_FOOT_SIZE else End(s) - SIZE_T_SIZE
  }

  predicate Contains(b: Blocks, c: int, x: int) { c in b && c <= x < Next(b, c) }

  /** The chunk behind a chunk of a segment, if that does not reach the limit. */
  lemma NextInSegment(b: Blocks, segs: seq<Segment>, top: int, i: nat, a: int)
    requires HeapOk(b, segs, top) && i < |segs| && a in b && Holds(segs[i], a, b[a].size)
    ensures top in b && (Next(b, a) >= Limit(b, segs[i], top)
      || (Next(b, a) in b && Holds(segs[i], Next(b, a), b[Next(b, a)].size)))
    ensures b[a].size > 0
  {
    hide BlockOk, SegsApart, AllInside, Inside;
    SizePositive(b, a);
    hide Tiled;
    IsTop(b, segs, top);
    if Next(b, a) in b {
      var j := Together(b, segs, a);
      if i != j { SegFacts(segs, i, j); }
    } else {
      LastBlock(b, segs, top, a);
      hide Fenced, TopOk;
      AtLimit(b, segs, top, i, a);
    }
  }

  /** What nothing follows ends where its segment's chunks end. */
  lemma AtLimit(b: Blocks, segs: seq<Segment>, top: int, i: nat, a: int)
    requires SegsApart(segs) && |segs| > 0 && top in b && TopIn(b, segs[0], top) && i < |segs| && a in b
      && Holds(segs[i], a, b[a].size) && b[a].size > 0
    requires a == top
      || (b[a].size == SIZE_T_SIZE && exists j | 0 <= j < |segs| :: a == End(segs[j]) - 2 * SIZE_T_SIZE)
    ensures Next(b, a) >= Limit(b, segs[i], top)
  {
    hide SegsApart;
    if a == top {
      if i != 0 { SegFacts(segs, i, 0); }
    } else {
      var j: nat :| j < |segs| && a == End(segs[j]) - 2 * SIZE_T_SIZE;
      if i != j { SegFacts(segs, i, j); }
    }
  }

  lemma LastBlock(b: Blocks, segs: seq<Segment>, top: int, a: int)
    requires HeapOk(b, segs, top) && a in b && Next(b, a) !in b
    ensures top in b && |segs| > 0 && TopIn(b, segs[0], top) && (b[a].kind == Fence || a == top)
    ensures b[a].kind == Fence ==>
      b[a].size == SIZE_T_SIZE && exists j | 0 <= j < |segs| :: a == End(segs[j]) - 2 * SIZE_T_SIZE
  {
    hide BlockOk, SegsApart, AllInside;
    EndsDiffer(b, a, a);
    BlockFields(b, a);
  }

  lemma {:induction false} Walk(b: Blocks, segs: seq<Segment>, top: int, i: nat, a: int, x: int) returns (c: int)
    requires HeapOk(b, segs, top) && top in b && i < |segs| && a in b && Holds(segs[i], a, b[a].size)
      && a <= x < Limit(b, segs[i], top)
    ensures Contains(b, c, x)
    decreases x - a
  {
    hide HeapOk;
    NextInSegment(b, segs, top, i, a);
    if x < Next(b, a) {
      c := a;
    } else {
      c := Walk(b, segs, top, i, Next(b, a), x);
    }
  }

  /** Chunks tile each segment: every address up to the segment's limit lies in one chunk, and in one only. */
  lemma SegmentsAreTiled(b: Blocks, segs: seq<Segment>, top: int, i: nat, x: int) returns (c: int)
    requires HeapOk(b, segs, top) && i < |segs| && top in b && segs[i].base <= x < Limit(b, segs[i], top)
    ensures Contains(b, c, x) && forall d :: Contains(b, d, x) ==> d == c
  {
    FirstInSegment(b, segs, top, i);
    c := Walk(b, segs, top, i, segs[i].base, x) by { hide HeapOk; }
    forall d | Contains(b, d, x) ensures d == c {
      hide BlockOk, SegsOk;
      EndsDiffer(b, c, d);
      EndsDiffer(b, d, c);
    }
  }

  lemma FirstInSegment(b: Blocks, segs: seq<Segment>, top: int, i: nat)
    requires HeapOk(b, segs, top) && i < |segs|
    ensures segs[i].base in b && Holds(segs[i], segs[i].base, b[segs[i].base].size)
  {
    hide BlockOk, SegsApart, Inside, TopOk, Fenced;
    var a := segs[i].base;
    SizePositive(b, a);
    hide Tiled;
    var j := InsideAt(segs, a, Extent(b[a]));
    if i != j { SegFacts(segs, i, j); }
  }

  /** No two neighbouring chunks are both free; the top chunk counts as free. */
  lemma NeighboursNotFree(b: Blocks, segs: seq<Segment>, top: int, a: int)
    requires HeapOk(b, segs, top) && a in b && Next(b, a) in b
    ensures Used(b[a].kind) || Used(b[Next(b, a)].kind)
  {
    hide BlockOk;
    if b[a].kind == Free {
      AfterFree(b, a) by { hide SegsOk; }
    } else if b[a].kind == Top {
      BehindTopOnly(b, segs, top, a);
    }
  }

  lemma BehindTopOnly(b: Blocks, segs: seq<Segment>, top: int, a: int)
    requires HeapOk(b, segs, top) && a in b && b[a].kind == Top
    ensures Next(b, a) !in b
  {
    hide Tiled, AllInside, SegsApart, Fenced;
    IsTop(b, segs, top);
    BehindTop(b, segs, top);
  }

  /** A free chunk says its size at both ends, and its successor knows that it is free. */
  lemma FreeChunkTags(b: Blocks, segs: seq<Segment>, top: int, head: Words, foot: Words, a: int)
    requires HeapOk(b, segs, top) && Tagged(b, head, foot) && a in b && b[a].kind == Free
    ensures var n := Next(b, a);
      && ChunkSize(At(head, a)) == b[a].size == At(foot, n) && !Cinuse(At(head, a)) && Pinuse(At(head, a))
      && n in b && Cinuse(At(head, n)) && !Pinuse(At(head, n))
  {
    hide HeapOk, Tagged;
    AfterFreeHeap(b, segs, top, a);
    var n := Next(b, a);
    TagAt(b, head, foot, a);
    TagAt(b, head, foot, n);
    HeadFields(b[a].size, false, true);
    HeadFields(b[n].size, true, false);
  }

  /** Chunks handed out are aligned, lie within a segment, and do not overlap. */
  lemma ChunksInUse(b: Blocks, segs: seq<Segment>, top: int, a: int, c: int)
    requires HeapOk(b, segs, top) && a in Lives(b) && c in Lives(b) && a != c
    ensures a % 8 == 0 && Inside(segs, a, Lives(b)[a]) && (a + Lives(b)[a] <= c || c + Lives(b)[c] <= a)
  {
    hide BlockOk, SegsApart, TopOk, Fenced, Inside;
    SizePositive(b, a);
    InsidePart(segs, a, Extent(b[a]), a, b[a].size);
    EndsDiffer(b, a, c);
    EndsDiffer(b, c, a);
  }

  // ----- the layout of the words

  /** The words that the invariants speak of: headers, feet of free chunks, and the links of a free chunk. */
  ghost predicate Bookkeeping(b: Blocks, x: int)
  {
    exists a | a in b :: BookkeepingOf(b, a, x)
  }

  predicate BookkeepingOf(b: Blocks, a: int, x: int)
    requires a in b
  {
    || a + 8 <= x < a + 16
    || (b[a].gap > 0 && a <= x < a + 8)
    || (b[a].kind == Free && a + 16 <= x < a + if b[a].size < 256 then 32 else 64)
  }

  /** Nothing the allocator relies on lies in the bytes of a chunk that was handed out. */
  lemma PayloadsHoldNoBookkeeping(b: Blocks, segs: seq<Segment>, top: int, c: int, x: int)
    requires HeapOk(b, segs, top) && c in Lives(b) && InPayload(c, Lives(b)[c], x)
    ensures !Bookkeeping(b, x)
  {
    hide HeapOk;
    forall a | a in b ensures !BookkeepingOf(b, a, x) {
      NotThere(b, segs, top, c, a, x);
    }
  }

  lemma NotThere(b: Blocks, segs: seq<Segment>, top: int, c: int, a: int, x: int)
    requires HeapOk(b, segs, top) && c in b && b[c].kind == Live && a in b && InPayload(c, b[c].size, x)
    ensures !BookkeepingOf(b, a, x)
  {
    hide BlockOk, SegsOk;
    EndsDiffer(b, a, c);
    EndsDiffer(b, c, a);
    BlockFields(b, a);
    BlockFields(b, c);
    if b[a].gap > 0 { EndsDiffer(b, c, a - b[a].gap); }
  }
}
