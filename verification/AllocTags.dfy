/** What the allocator writes into chunk headers and footers keeps them in step with the tiling. */
module AllocTags {
  import opened AllocSizes
  import opened AllocRings
  import opened AllocTrees
  import opened AllocTries
  import opened AllocHeap
  import opened AllocSegments
  import opened AllocGrowth
  import opened AllocMapping
  import opened AllocSmall
  import opened AllocIndex

  lemma TagAt(b: Blocks, head: Words, foot: Words, a: int)
    requires Tagged(b, head, foot) && a in b
    ensures TagOk(b[a], At(head, a), At(foot, a))
  {
  }

  /** The free chunks that are in the bins: all but those in `off`. */
  function Spare(b: Blocks, off: set<int>): map<int, nat>
  {
    map a | a in b && b[a].kind == Free && a !in off :: b[a].size
  }

  lemma SpareAt(b: Blocks, off: set<int>, x: int)
    requires x in Spare(b, off)
    ensures x in b && b[x].kind == Free && x !in off && b[x].size == Spare(b, off)[x]
      && Spare(b, off + {x}) == Spare(b, off) - {x}
  {
  }

  /** The chunks handed out, with their sizes. */
  function Lives(b: Blocks): map<int, nat>
  {
    map a | a in b && b[a].kind == Live :: b[a].size
  }

  /** All words but those of `x` are right. */
  ghost predicate TaggedBut(b: Blocks, head: Words, foot: Words, x: int)
  {
    forall a | a in b && a != x :: TagOk(b[a], At(head, a), At(foot, a))
  }

  lemma TagButAt(b: Blocks, head: Words, foot: Words, x: int, a: int)
    requires TaggedBut(b, head, foot, x) && a in b && a != x
    ensures TagOk(b[a], At(head, a), At(foot, a))
  {
  }

  lemma AllButNone(b: Blocks, head: Words, foot: Words, x: int)
    ensures Tagged(b, head, foot) ==> TaggedBut(b, head, foot, x)
    ensures TaggedBut(b, head, foot, x) && x !in b ==> Tagged(b, head, foot)
  {
  }

  /** The bins do not care which flags their chunks carry. */
  lemma Retag(t: Trees, small: seq<seq<int>>, mem: Mem, roots: seq<int>, treemap: set<nat>, smallmap: set<nat>,
              free: map<int, nat>,
              b: Blocks, b': Blocks, head: Words, foot: Words, x: int)
    requires BinsOk(t, small, mem, roots, treemap, smallmap, free) && TaggedBut(b, mem.head, mem.foot, x)
      && TaggedBut(b', head, foot, x) && x !in free
    requires Tiled(b') && forall z | z in free :: z in b && z in b' && b[z].size == b'[z].size
    ensures BinsOk(t, small, mem.(head := head, foot := foot), roots, treemap, smallmap, free)
  {
    hide TreesOk, SmallOk, Indexed, TaggedBut, Tiled;
    forall z | z in free ensures At(head, z) / 4 == At(mem.head, z) / 4 {
      TagButAt(b, mem.head, mem.foot, x, z);
      TagButAt(b', head, foot, x, z);
      SizePositive(b', z);
      SameQuarter(b[z], b'[z]);
    }
    HeadsFrame(t, small, mem, roots, treemap, smallmap, free, head, foot);
  }

  lemma SameQuarter(x: Block, y: Block)
    requires x.size == y.size && x.size % 8 == 0
    ensures Head(x.size, Used(x.kind), x.gap == 0) / 4 == Head(y.size, Used(y.kind), y.gap == 0) / 4
  {
    hide Head, Used;
    HeadFields(x.size, Used(x.kind), x.gap == 0);
    HeadFields(y.size, Used(y.kind), y.gap == 0);
    hide Cinuse, Pinuse, SetPinuse, ClearPinuse;
  }

  // ----- the writes of each change

  /** `set_inuse_and_pinuse` */
  lemma TagOccupy(b: Blocks, head: Words, foot: Words, a: int)
    requires Tagged(b, head, foot) && a in b && b[a].kind == Free && b[a].gap == 0 && b[a].size % 8 == 0
      && b[a].size > 0
    requires Next(b, a) in b && Used(b[Next(b, a)].kind) && b[Next(b, a)].size % 8 == 0
    ensures var n := Next(b, a);
      Tagged(Occupy(b, a), head[a := Head(b[a].size, true, true)][n := SetPinuse(At(head, n))], foot)
  {
    var n := Next(b, a);
    TagAt(b, head, foot, n);
    HeadFields(b[n].size, true, b[n].gap == 0);
  }

  /** A chunk in the front of a free one, and a smaller free one behind it. */
  function Split(b: Blocks, a: int, nb: nat): Blocks
    requires a in b && Next(b, a) in b && nb <= b[a].size
  {
    var r := b[a].size - nb;
    b[a := Block(nb, Live, 0)][a + nb := Block(r, Free, 0)][Next(b, a) := b[Next(b, a)].(gap := r)]
  }

  lemma SplitHeap(b: Blocks, segs: seq<Segment>, top: int, a: int, nb: nat)
    requires HeapOk(b, segs, top) && a in b && b[a].kind == Free && nb % 8 == 0 && MIN_CHUNK_SIZE <= nb
      && nb + MIN_CHUNK_SIZE <= b[a].size
    ensures Next(b, a) in b && HeapOk(Split(b, a, nb), segs, top) && a + nb !in b
  {
    hide HeapOk;
    AfterFreeHeap(b, segs, top, a);
    OccupyHeap(b, segs, top, a);
    CarveHeap(Occupy(b, a), segs, top, a, nb);
    VacateHeap(Carve(Occupy(b, a), a, nb), segs, top, a + nb);
    assert Vacate(Carve(Occupy(b, a), a, nb), a + nb) == Split(b, a, nb);
  }

  lemma AfterFreeHeap(b: Blocks, segs: seq<Segment>, top: int, a: int)
    requires HeapOk(b, segs, top) && a in b && b[a].kind == Free
    ensures var n := Next(b, a);
      n in b && n != a && Used(b[n].kind) && b[n].gap == b[a].size && b[a].gap == 0 && b[a].size >= MIN_CHUNK_SIZE
    ensures b[a].size % 8 == 0 && b[Next(b, a)].size % 8 == 0 && b[Next(b, a)].size > 0 && a > 0
  {
    hide Tiled, SegsOk;
    AfterFree(b, a);
    SizePositive(b, a);
    SizePositive(b, Next(b, a));
  }

  /** `set_size_and_pinuse_of_inuse_chunk` in front, `set_size_and_pinuse_of_free_chunk` behind. */
  lemma TagSplit(b: Blocks, head: Words, foot: Words, a: int, nb: nat)
    requires Tagged(b, head, foot) && a in b && b[a].kind == Free && Next(b, a) in b && Used(b[Next(b, a)].kind)
      && b[Next(b, a)].gap == b[a].size
    requires 0 < nb < b[a].size && a + nb !in b
    ensures var r := b[a].size - nb;
      Tagged(Split(b, a, nb), head[a := Head(nb, true, true)][a + nb := Head(r, false, true)], foot[Next(b, a) := r])
  {
    var n := Next(b, a);
    TagAt(b, head, foot, n);
  }

  lemma TagGive(b: Blocks, head: Words, foot: Words, top: int, nb: nat)
    requires Tagged(b, head, foot) && Gives(b, top, nb) && b[top].gap == 0 && top + nb !in b
    ensures Tagged(TopGive(b, top, nb),
      head[top + nb := Head(b[top].size - nb, false, true)][top := Head(nb, true, true)], foot)
  {
  }

  /** Chunks lie below 2**40, and free ones have the size classes of the bins. */
  lemma Bounds(b: Blocks, segs: seq<Segment>, top: int, a: int)
    requires HeapOk(b, segs, top) && a in b
    ensures 0 < a && Next(b, a) < TERA && 0 < b[a].size < TERA && b[a].size % 8 == 0 && a % 8 == 0
    ensures b[a].kind == Free ==> b[a].gap == 0 && b[a].size >= MIN_CHUNK_SIZE
  {
    hide BlockOk, TopOk, Fenced, SegsApart, Inside;
    SizePositive(b, a);
    if b[a].kind == Free { AfterFree(b, a); }
    hide Tiled;
    var i := InsideAt(segs, a, Extent(b[a]));
    SegEnd(segs, i);
  }

  lemma SegEnd(segs: seq<Segment>, i: nat)
    requires SegsApart(segs) && i < |segs|
    ensures End(segs[i]) <= TERA
  {
  }

  lemma TaggedSize(b: Blocks, mem: Mem, a: int)
    requires Tagged(b, mem.head, mem.foot) && a in b && b[a].size % 8 == 0
    ensures SizeOf(mem, a) == b[a].size
  {
    TagAt(b, mem.head, mem.foot, a);
    HeadFields(b[a].size, Used(b[a].kind), b[a].gap == 0);
  }

  // ----- what the changes mean for the chunks handed out

  lemma LivesOccupy(b: Blocks, a: int)
    requires a in b && b[a].kind == Free && Next(b, a) in b && Next(b, a) != a
    ensures a !in Lives(b) && Lives(Occupy(b, a)) == Lives(b)[a := b[a].size]
  {
  }

  lemma LivesSplit(b: Blocks, a: int, nb: nat)
    requires a in b && b[a].kind == Free && Next(b, a) in b && 0 < nb < b[a].size && a + nb !in b
    ensures a !in Lives(b) && Lives(Split(b, a, nb)) == Lives(b)[a := nb]
  {
  }

  lemma LivesGive(b: Blocks, top: int, nb: nat)
    requires top in b && b[top].kind == Top && 0 < nb < b[top].size && top + nb !in b
    ensures top !in Lives(b) && Lives(TopGive(b, top, nb)) == Lives(b)[top := nb]
  {
  }

  lemma LivesCarve(b: Blocks, a: int, nb: nat)
    requires Carves(b, a, nb) && a + nb !in b
    ensures Lives(Carve(b, a, nb)) == Lives(b)[a := nb][a + nb := b[a].size - nb] && a + nb !in Lives(b)
    ensures forall off :: Spare(Carve(b, a, nb), off) == Spare(b, off)
  {
  }

  /** `set_inuse` on both parts: `keep` is the old PINUSE flag. */
  lemma TagCarve(b: Blocks, head: Words, foot: Words, a: int, nb: nat)
    requires Tagged(b, head, foot) && Carves(b, a, nb) && a + nb !in b && Next(b, a) in b && b[Next(b, a)].gap == 0
      && b[Next(b, a)].size % 8 == 0 && b[a].size % 8 == 0
    ensures var n, r := Next(b, a), b[a].size - nb;
      var h1 := head[a := Head(nb, true, Pinuse(At(head, a)))];
      var h2 := h1[a + nb := SetPinuse(At(h1, a + nb))];
      var h3 := h2[a + nb := Head(r, true, Pinuse(At(h2, a + nb)))];
      Tagged(Carve(b, a, nb), h3[n := SetPinuse(At(h3, n))], foot)
  {
    hide Head, Pinuse, SetPinuse;
    var n := Next(b, a);
    TagAt(b, head, foot, a);
    TagAt(b, head, foot, n);
    PinuseOf(b[a].size, true, b[a].gap == 0);
    PinuseOf(b[n].size, Used(b[n].kind), true);
    SetIsSet(At(head, a + nb));
  }

  lemma PinuseOf(s: nat, c: bool, p: bool)
    requires s % 8 == 0
    ensures Pinuse(Head(s, c, p)) == p && SetPinuse(Head(s, c, true)) == Head(s, c, true)
  {
    HeadFields(s, c, p);
    HeadFields(s, c, true);
  }

  lemma SetIsSet(h: int)
    ensures Pinuse(SetPinuse(h))
  {
  }

  lemma LivesMove(b: Blocks, a: int, nb: nat)
    requires Moves(b, a, nb) && a + nb !in b && b[a].size > 0
    ensures Lives(TopMove(b, a, nb)) == Lives(b)[a := nb]
      && forall off :: Spare(TopMove(b, a, nb), off) == Spare(b, off)
  {
  }

  /** `set_inuse` on the chunk, a new header for the top chunk behind it. */
  lemma TagMove(b: Blocks, head: Words, foot: Words, a: int, nb: nat)
    requires Tagged(b, head, foot) && Moves(b, a, nb) && a + nb !in b && b[a].size % 8 == 0 && b[a].size > 0
    ensures var r := b[a].size + b[Next(b, a)].size - nb;
      var h1 := head[a := Head(nb, true, Pinuse(At(head, a)))];
      var h2 := h1[a + nb := SetPinuse(At(h1, a + nb))];
      Tagged(TopMove(b, a, nb), h2[a + nb := Head(r, false, true)], foot)
  {
    TagAt(b, head, foot, a);
    PinuseOf(b[a].size, true, b[a].gap == 0);
  }
}
