/** Changes of the tiling around the top chunk, and new memory from the system. */
module AllocGrowth {
  import opened AllocSizes
  import opened AllocHeap
  import opened AllocSegments

  // ----- the top chunk

  /** A chunk is cut from the low end of the top chunk. */
  function TopGive(b: Blocks, top: int, nb: nat): Blocks
    requires top in b && nb <= b[top].size
  {
    b[top := Block(nb, Live, b[top].gap)][top + nb := Block(b[top].size - nb, Top, 0)]
  }

  predicate Gives(b: Blocks, top: int, nb: nat)
  {
    top in b && b[top].kind == Top && nb % 8 == 0 && MIN_CHUNK_SIZE <= nb < b[top].size
  }

  lemma GiveBlock(b: Blocks, top: int, nb: nat, c: int)
    requires Gives(b, top, nb) && BlockOk(b, top) && top + nb !in b && c in TopGive(b, top, nb)
    requires c in b ==> BlockOk(b, c) && (c != top ==> Next(b, c) != Next(b, top))
    ensures BlockOk(TopGive(b, top, nb), c)
  {
  }

  lemma TopGiveHeap(b: Blocks, segs: seq<Segment>, top: int, nb: nat)
    requires HeapOk(b, segs, top) && Gives(b, top, nb)
    ensures HeapOk(TopGive(b, top, nb), segs, top + nb)
  {
    hide BlockOk, SegsApart, Inside, Fenced;
    var b' := TopGive(b, top, nb);
    EndsDiffer(b, top, top);
    BlockFields(b, top);
    assert top + nb !in b by { if top + nb in b { TopAfter(b, segs, top, top + nb); } }
    forall c | c in b' ensures BlockOk(b', c) {
      if c in b { EndsDiffer(b, top, c); }
      GiveBlock(b, top, nb, c);
    }
    assert Apart(b') by { hide AllInside, TopOk; }
    hide Tiled;
    InsidePart(segs, top, Extent(b[top]), top, Extent(b'[top]));
    InsidePart(segs, top, Extent(b[top]), top + nb, Extent(b'[top + nb]));
    GiveTop(b, segs, top, nb);
    assert Fenced(b', segs, top + nb) by { GiveFenced(b, segs, top, nb); }
  }

  lemma GiveTop(b: Blocks, segs: seq<Segment>, top: int, nb: nat)
    requires TopOk(b, segs, top) && Gives(b, top, nb) && top + nb !in b
    ensures TopOk(TopGive(b, top, nb), segs, top + nb)
  {
    assert TopIn(TopGive(b, top, nb), segs[0], top + nb);
  }

  lemma GiveFenced(b: Blocks, segs: seq<Segment>, top: int, nb: nat)
    requires TopOk(b, segs, top) && Fenced(b, segs, top) && Gives(b, top, nb) && top + nb !in b
    ensures Fenced(TopGive(b, top, nb), segs, top + nb)
  {
  }

  /** A chunk in use in front of the top chunk becomes part of it. */
  function TopTake(b: Blocks, a: int): Blocks
    requires a in b && Next(b, a) in b
  {
    (b - {Next(b, a)})[a := Block(b[a].size + b[Next(b, a)].size, Top, 0)]
  }

  predicate Takes(b: Blocks, a: int)
  {
    a in b && b[a].kind == Live && b[a].gap == 0 && Next(b, a) in b && b[Next(b, a)].kind == Top
  }

  lemma TakeBlock(b: Blocks, a: int, c: int)
    requires Takes(b, a) && BlockOk(b, a) && BlockOk(b, Next(b, a)) && c in TopTake(b, a)
    requires BlockOk(b, c) && (c != a ==> Next(b, c) != Next(b, a))
    ensures BlockOk(TopTake(b, a), c)
  {
  }

  lemma TopTakeHeap(b: Blocks, segs: seq<Segment>, top: int, a: int)
    requires HeapOk(b, segs, top) && Takes(b, a)
    ensures Next(b, a) == top && HeapOk(TopTake(b, a), segs, a)
  {
    hide BlockOk, SegsApart, Inside, Fenced;
    var b' := TopTake(b, a);
    EndsDiffer(b, a, top);
    forall c | c in b' ensures BlockOk(b', c) {
      EndsDiffer(b, a, c);
      TakeBlock(b, a, c);
    }
    assert Apart(b') by { hide AllInside, TopOk; }
    forall f | f in b && f != a ensures Next(b, f) != top { SameEnd(b, f, a); }
    SizePositive(b, a);
    hide Tiled;
    var i := Together(b, segs, a);
    InsideOf(segs, i, a, Extent(b'[a]));
    assert AllInside(b', segs) by { hide TopOk; }
    TakeTop(b, segs, top, a, i);
    TakeFenced(b, segs, top, a);
  }

  lemma TakeTop(b: Blocks, segs: seq<Segment>, top: int, a: int, i: nat)
    requires SegsApart(segs) && TopOk(b, segs, top) && Takes(b, a) && Next(b, a) == top && i < |segs|
      && Holds(segs[i], a, b[a].size + b[top].size)
    requires Apart(b)
    ensures TopOk(TopTake(b, a), segs, a)
  {
    hide SegsApart;
    if i != 0 { SegFacts(segs, i, 0); }
    assert TopIn(TopTake(b, a), segs[0], a);
  }

  lemma TakeFence(b: Blocks, segs: seq<Segment>, top: int, a: int, i: nat)
    requires Takes(b, a) && Next(b, a) == top && Fenced(b, segs, top) && i < |segs|
    requires TopOk(TopTake(b, a), segs, a) && SegsApart(segs)
    ensures TopIn(TopTake(b, a), segs[i], a) || FenceAt(TopTake(b, a), End(segs[i]) - 2 * SIZE_T_SIZE)
  {
    hide SegsApart;
    var b' := TopTake(b, a);
    if TopIn(b, segs[i], top) && i != 0 { SegFacts(segs, i, 0); }
  }

  lemma TakeFenced(b: Blocks, segs: seq<Segment>, top: int, a: int)
    requires Takes(b, a) && Next(b, a) == top && Fenced(b, segs, top)
      && (forall f | f in b && f != a :: Next(b, f) != top)
    requires TopOk(TopTake(b, a), segs, a) && SegsApart(segs) && TopOk(b, segs, top)
    ensures Fenced(TopTake(b, a), segs, a)
  {
    hide SegsApart, TopIn, FenceAt;
    var b' := TopTake(b, a);
    forall i | 0 <= i < |segs| ensures TopIn(b', segs[i], a) || FenceAt(b', End(segs[i]) - 2 * SIZE_T_SIZE) {
      TakeFence(b, segs, top, a, i);
    }
    hide TopOk;
    forall f | f in b' && b'[f].kind == Fence
      ensures Next(b', f) in b' || exists i | 0 <= i < |segs| :: f == End(segs[i]) - 2 * SIZE_T_SIZE
    {
      assert f in b && b[f] == b'[f] && Next(b', f) == Next(b, f);
    }
  }

  /** A chunk in use grows into the top chunk behind it. */
  function TopMove(b: Blocks, a: int, nb: nat): Blocks
    requires a in b && Next(b, a) in b && b[a].size <= nb <= b[a].size + b[Next(b, a)].size
  {
    (b - {Next(b, a)})[a := b[a].(size := nb)][a + nb := Block(b[a].size + b[Next(b, a)].size - nb, Top, 0)]
  }

  predicate Moves(b: Blocks, a: int, nb: nat)
  {
    && a in b && b[a].kind == Live && Next(b, a) in b && b[Next(b, a)].kind == Top && nb % 8 == 0
    && b[a].size < nb < b[a].size + b[Next(b, a)].size
  }

  lemma MoveBlock(b: Blocks, a: int, nb: nat, c: int)
    requires Moves(b, a, nb) && BlockOk(b, a) && BlockOk(b, Next(b, a)) && a + nb !in b && c in TopMove(b, a, nb)
    requires c in b ==>
      BlockOk(b, c) && (c != a ==> Next(b, c) != Next(b, a)) && (c != Next(b, a) ==> Next(b, c) != Next(b, Next(b, a)))
    ensures BlockOk(TopMove(b, a, nb), c)
  {
  }

  lemma TopMoveHeap(b: Blocks, segs: seq<Segment>, top: int, a: int, nb: nat)
    requires HeapOk(b, segs, top) && Moves(b, a, nb)
    ensures Next(b, a) == top && a + nb !in b && HeapOk(TopMove(b, a, nb), segs, a + nb)
  {
    hide BlockOk, SegsApart, Inside, Fenced;
    var b' := TopMove(b, a, nb);
    EndsDiffer(b, a, top);
    BlockFields(b, top);
    BlockFields(b, a);
    assert a + nb !in b by { if a + nb in b { TopAfter(b, segs, top, a + nb); } }
    forall c | c in b' ensures BlockOk(b', c) {
      if c in b { EndsDiffer(b, a, c); EndsDiffer(b, top, c); }
      MoveBlock(b, a, nb, c);
    }
    assert Apart(b') by { hide AllInside, TopOk; }
    forall f | f in b && f != a ensures Next(b, f) != top { SameEnd(b, f, a); }
    hide Tiled;
    var i := Together(b, segs, a);
    InsideOf(segs, i, a, b[a].size + Extent(b[top]));
    InsidePart(segs, a, b[a].size + Extent(b[top]), a, Extent(b'[a]));
    InsidePart(segs, a, b[a].size + Extent(b[top]), a + nb, Extent(b'[a + nb]));
    assert AllInside(b', segs) by { hide TopOk; }
    MoveTop(b, segs, top, a, nb);
    MoveFenced(b, segs, top, a, nb);
  }

  lemma MoveTop(b: Blocks, segs: seq<Segment>, top: int, a: int, nb: nat)
    requires TopOk(b, segs, top) && Moves(b, a, nb) && Next(b, a) == top && a + nb !in b && Apart(b)
    ensures TopOk(TopMove(b, a, nb), segs, a + nb)
  {
    assert TopIn(TopMove(b, a, nb), segs[0], a + nb);
  }

  lemma MoveFenced(b: Blocks, segs: seq<Segment>, top: int, a: int, nb: nat)
    requires Moves(b, a, nb) && Next(b, a) == top && Fenced(b, segs, top) && a + nb !in b
    requires (forall f | f in b && f != a :: Next(b, f) != top)
    ensures Fenced(TopMove(b, a, nb), segs, a + nb)
  {
    var b' := TopMove(b, a, nb);
    assert b'[a + nb].size + a + nb == Next(b, top);
    forall i | 0 <= i < |segs| ensures TopIn(b', segs[i], a + nb) || FenceAt(b', End(segs[i]) - 2 * SIZE_T_SIZE) {
    }
    forall f | f in b' && b'[f].kind == Fence
      ensures Next(b', f) in b' || exists i | 0 <= i < |segs| :: f == End(segs[i]) - 2 * SIZE_T_SIZE
    {
      assert f in b && f != a;
    }
  }
}
