/** Taking a chunk back: it is joined with free neighbours on both sides, or with the top chunk. */
module AllocFreeing {
  import opened AllocSizes
  import opened AllocRings
  import opened AllocHeap
  import opened AllocSegments
  import opened AllocGrowth
  import opened AllocMapping
  import opened AllocTags

  /** Where the joined chunk begins. */
  function Start(b: Blocks, p: int): int
    requires p in b
  {
    p - b[p].gap
  }

  /** Without the chunks that the joined one swallows. */
  function Cleared(b: Blocks, p: int, swallow: bool): Blocks
    requires p in b
  {
    if swallow then b - {p, Next(b, p)} else b - {p}
  }

  /** The successor is in use. */
  function FreedAlone(b: Blocks, p: int): Blocks
    requires p in b && Next(b, p) in b
  {
    var n, s := Next(b, p), b[p].gap + b[p].size;
    Cleared(b, p, false)[Start(b, p) := Block(s, Free, 0)][n := b[n].(gap := s)]
  }

  /** The successor is free. */
  function FreedJoined(b: Blocks, p: int): Blocks
    requires p in b && Next(b, p) in b && Next(b, Next(b, p)) in b
  {
    var n := Next(b, p);
    var m, s := Next(b, n), b[p].gap + b[p].size + b[n].size;
    Cleared(b, p, true)[Start(b, p) := Block(s, Free, 0)][m := b[m].(gap := s)]
  }

  /** The successor is the top chunk. */
  function FreedTop(b: Blocks, p: int): Blocks
    requires p in b && Next(b, p) in b
  {
    Cleared(b, p, true)[Start(b, p) := Block(b[p].gap + b[p].size + b[Next(b, p)].size, Top, 0)]
  }

  // ----- joining backward

  function Back(b: Blocks, p: int): Blocks
    requires p in b
  {
    var q := Start(b, p);
    if b[p].gap > 0 && q in b && Next(b, q) in b then Fuse(Occupy(b, q), q) else b
  }

  lemma BackHeap(b: Blocks, segs: seq<Segment>, top: int, p: int)
    requires HeapOk(b, segs, top) && p in b && b[p].kind == Live
    ensures Next(b, p) in b && Next(b, p) > p && Start(b, p) > 0 && Next(b, Next(b, p)) > Next(b, p)
      && b[p].size >= MIN_CHUNK_SIZE
    ensures b[p].gap > 0 ==> Start(b, p) in b && Start(b, p) < p && b[Start(b, p)] == Block(b[p].gap, Free, 0)
    ensures HeapOk(Back(b, p), segs, top)
    ensures Back(b, p) == Cleared(b, p, false)[Start(b, p) := Block(b[p].gap + b[p].size, Live, 0)]
  {
    hide HeapOk;
    LiveFields(b, segs, top, p);
    var q := Start(b, p);
    if b[p].gap > 0 {
      OccupyHeap(b, segs, top, q);
      FuseHeap(Occupy(b, q), segs, top, q);
    }
  }

  lemma LiveFields(b: Blocks, segs: seq<Segment>, top: int, p: int)
    requires HeapOk(b, segs, top) && p in b && b[p].kind == Live
    ensures Next(b, p) in b && b[p].size >= MIN_CHUNK_SIZE && b[p].size % 8 == 0 && p > 0 && b[Next(b, p)].size > 0
    ensures b[p].gap > 0 ==> Start(b, p) in b && b[Start(b, p)] == Block(b[p].gap, Free, 0) && Start(b, p) > 0
    ensures b[Next(b, p)].gap == 0
  {
    hide BlockOk, SegsOk, Tiled;
    EndsDiffer(b, p, p);
    BlockFields(b, p);
    SizePositive(b, Next(b, p));
    if b[p].gap > 0 { SizePositive(b, Start(b, p)); }
    var n := Next(b, p);
    EndsDiffer(b, n, n);
    BlockFields(b, n);
    if b[n].gap > 0 { SameEnd(b, p, n - b[n].gap); }
  }

  // ----- joining forward

  lemma FreedAloneHeap(b: Blocks, segs: seq<Segment>, top: int, p: int)
    requires HeapOk(b, segs, top) && p in b && b[p].kind == Live && Next(b, p) in b && Used(b[Next(b, p)].kind)
    ensures HeapOk(FreedAlone(b, p), segs, top)
  {
    hide HeapOk;
    BackHeap(b, segs, top, p);
    VacateHeap(Back(b, p), segs, top, Start(b, p));
    assert Vacate(Back(b, p), Start(b, p)) == FreedAlone(b, p);
  }

  lemma FreedJoinedHeap(b: Blocks, segs: seq<Segment>, top: int, p: int)
    requires HeapOk(b, segs, top) && p in b && b[p].kind == Live && Next(b, p) in b && b[Next(b, p)].kind == Free
    ensures Next(b, Next(b, p)) in b && Used(b[Next(b, Next(b, p))].kind) && HeapOk(FreedJoined(b, p), segs, top)
  {
    hide HeapOk;
    var q, n := Start(b, p), Next(b, p);
    BackHeap(b, segs, top, p);
    AfterFreeHeap(b, segs, top, n);
    var b1 := Back(b, p);
    OccupyHeap(b1, segs, top, n);
    var b2 := Occupy(b1, n);
    FuseHeap(b2, segs, top, q);
    VacateHeap(Fuse(b2, q), segs, top, q);
    assert Vacate(Fuse(b2, q), q) == FreedJoined(b, p);
  }

  lemma FreedTopHeap(b: Blocks, segs: seq<Segment>, top: int, p: int)
    requires HeapOk(b, segs, top) && p in b && b[p].kind == Live && Next(b, p) == top
    ensures top in b && HeapOk(FreedTop(b, p), segs, Start(b, p))
  {
    hide HeapOk;
    BackHeap(b, segs, top, p);
    TopThere(b, segs, top);
    TopTakeHeap(Back(b, p), segs, top, Start(b, p));
    assert TopTake(Back(b, p), Start(b, p)) == FreedTop(b, p);
  }

  // ----- the words; those of the joined chunk's beginning are written anew

  lemma TagFreedAlone(b: Blocks, head: Words, foot: Words, p: int)
    requires p in b && TaggedBut(b, head, foot, Start(b, p)) && Next(b, p) in b && Used(b[Next(b, p)].kind)
      && b[Next(b, p)].size % 8 == 0 && b[p].size > 0
    ensures var n, s := Next(b, p), b[p].gap + b[p].size;
      Tagged(FreedAlone(b, p), head[n := ClearPinuse(At(head, n))][Start(b, p) := Head(s, false, true)], foot[n := s])
  {
    var n := Next(b, p);
    TagButAt(b, head, foot, Start(b, p), n);
    HeadFields(b[n].size, true, b[n].gap == 0);
  }

  lemma TagFreedJoined(b: Blocks, head: Words, foot: Words, p: int)
    requires p in b && TaggedBut(b, head, foot, Start(b, p)) && Next(b, p) in b && Next(b, Next(b, p)) in b
      && b[p].size > 0 && b[Next(b, p)].size > 0
    requires b[Next(b, Next(b, p))].gap > 0
    ensures var m, s := Next(b, Next(b, p)), b[p].gap + b[p].size + b[Next(b, p)].size;
      Tagged(FreedJoined(b, p), head[Start(b, p) := Head(s, false, true)], foot[m := s])
  {
    var m := Next(b, Next(b, p));
    TagButAt(b, head, foot, Start(b, p), m);
  }

  lemma TagFreedTop(b: Blocks, head: Words, foot: Words, p: int)
    requires p in b && TaggedBut(b, head, foot, Start(b, p)) && Next(b, p) in b
    ensures Tagged(FreedTop(b, p), head[Start(b, p) := Head(b[p].gap + b[p].size + b[Next(b, p)].size, false, true)],
      foot)
  {
  }

  // ----- the bins and the chunks handed out

  ghost predicate OffFor(b: Blocks, p: int, off: set<int>, off': set<int>)
    requires p in b
  {
    && (b[p].gap > 0 ==> Start(b, p) in off) && Start(b, p) in off'
    && forall x | x != Start(b, p) && x != Next(b, p) && x != p :: x in off' <==> x in off
  }

  lemma FreedSpare(b: Blocks, p: int, off: set<int>, off': set<int>)
    requires p in b && b[p].kind == Live && b[p].size > 0 && Next(b, p) in b && Used(b[Next(b, p)].kind)
      && OffFor(b, p, off, off')
    requires b[p].gap > 0 ==> Start(b, p) in b && b[Start(b, p)].kind == Free
    ensures Spare(FreedAlone(b, p), off') == Spare(b, off) && Lives(FreedAlone(b, p)) == Lives(b) - {p}
  {
    forall x ensures x in Spare(FreedAlone(b, p), off') <==> x in Spare(b, off) { }
  }

  lemma JoinedSpare(b: Blocks, p: int, off: set<int>, off': set<int>)
    requires p in b && b[p].kind == Live && b[p].size > 0 && Next(b, p) in b && b[Next(b, p)].kind == Free
      && Next(b, p) in off && OffFor(b, p, off, off')
    requires b[Next(b, p)].size > 0 && Next(b, Next(b, p)) in b && Used(b[Next(b, Next(b, p))].kind)
    requires b[p].gap > 0 ==> Start(b, p) in b && b[Start(b, p)].kind == Free
    ensures Spare(FreedJoined(b, p), off') == Spare(b, off) && Lives(FreedJoined(b, p)) == Lives(b) - {p}
  {
    forall x ensures x in Spare(FreedJoined(b, p), off') <==> x in Spare(b, off) { }
  }

  lemma TopSpare(b: Blocks, p: int, off: set<int>, off': set<int>)
    requires p in b && b[p].kind == Live && b[p].size > 0 && Next(b, p) in b && b[Next(b, p)].kind == Top
      && OffFor(b, p, off, off' + {Start(b, p)})
    requires b[p].gap > 0 ==> Start(b, p) in b && b[Start(b, p)].kind == Free
    ensures Spare(FreedTop(b, p), off') == Spare(b, off) && Lives(FreedTop(b, p)) == Lives(b) - {p}
  {
    forall x ensures x in Spare(FreedTop(b, p), off') <==> x in Spare(b, off) {
      assert x in off' + {Start(b, p)} <==> x in off' || x == Start(b, p);
    }
  }
}
