/** Memory goes back to the system: the end of the top chunk, or a segment with nothing in it but one free chunk. */
module AllocReleasing {
  import opened Numbers
  import opened AllocSizes
  import opened AllocRings
  import opened AllocHeap
  import opened AllocSegments
  import opened AllocMapping
  import opened AllocTags
  import opened AllocGrants

  /** What the system does during a call: where it grants pages for a segment and for a chunk of its own, or 0;
      whether it resizes such a chunk in place, and the first segment; and the segments that it unmaps. */
  datatype System = System(pages: int, region: int, resizes: bool, shrinks: bool, unmaps: set<int>)

  /** The record of a segment other than the first is in that segment; the one of the first is in the state. */
  ghost predicate LinksOk(segs: seq<Segment>, links: seq<int>)
  {
    |links| == |segs| > 0 && forall k | 0 < k < |segs| :: Within(segs[k], links[k])
  }

  /** Nothing was mapped. */
  ghost predicate Shrank(segs: seq<Segment>, segs': seq<Segment>) { forall a | Covered(segs', a) :: Covered(segs, a) }

  // ----- the records when memory comes in

  lemma LongerLinks(segs: seq<Segment>, links: seq<int>, i: nat, extra: nat)
    requires LinksOk(segs, links) && i < |segs|
    ensures LinksOk(Longer(segs, i, extra), links)
  {
  }

  lemma EarlierLinks(segs: seq<Segment>, links: seq<int>, i: nat, extra: nat)
    requires LinksOk(segs, links) && i < |segs|
    ensures LinksOk(Earlier(segs, i, extra), links)
  {
  }

  /** The record that was the state's goes into what was the top chunk's segment. */
  lemma MovedLinks(b: Blocks, segs: seq<Segment>, top: int, links: seq<int>, s: Segment)
    requires HeapOk(b, segs, top) && LinksOk(segs, links) && top in b
    ensures |links| > 0 && LinksOk([s] + segs, [links[0], RecordAt(b, top) + 16] + links[1..])
  {
    hide Tiled, SegsApart, AllInside, Fenced;
    var segs', links' := [s] + segs, [links[0], RecordAt(b, top) + 16] + links[1..];
    forall k | 0 < k < |segs'| ensures Within(segs'[k], links'[k]) {
      if k > 1 { assert links'[k] == links[k - 1] && segs'[k] == segs[k - 1]; }
    }
  }

  // ----- a whole segment

  /** The first chunk of segment `i` is free and ends where the record of the segment begins. */
  ghost predicate Unused(b: Blocks, segs: seq<Segment>, i: nat)
  {
    0 < i < |segs| && segs[i].base in b && b[segs[i].base].kind == Free
      && Next(b, segs[i].base) >= End(segs[i]) - TOP_FOOT_SIZE
  }

  function Released(b: Blocks, s: Segment): Blocks { map a | a in b && !Within(s, a) :: b[a] }

  function Dropped<T>(segs: seq<T>, i: nat): seq<T>
    requires i < |segs|
  {
    segs[..i] + segs[i + 1..]
  }

  lemma DroppedAt<T>(segs: seq<T>, i: nat, j: nat)
    requires i < |segs| && j < |segs| && j != i
    ensures var k := if j < i then j else j - 1; k < |Dropped(segs, i)| && Dropped(segs, i)[k] == segs[j]
  {
  }

  lemma DroppedFrom<T>(segs: seq<T>, i: nat, k: nat)
    requires i < |segs| && k < |Dropped(segs, i)|
    ensures var j := if k < i then k else k + 1; j < |segs| && j != i && Dropped(segs, i)[k] == segs[j]
  {
  }

  /** The segment of a chunk that stays. */
  lemma StaysIn(b: Blocks, segs: seq<Segment>, i: nat, a: int) returns (j: nat)
    requires SegsApart(segs) && AllInside(b, segs) && i < |segs| && a in b && b[a].size > 0 && !Within(segs[i], a)
    ensures j < |segs| && j != i && Holds(segs[j], a, Extent(b[a]))
    ensures forall x | Within(segs[j], x) :: !Within(segs[i], x)
  {
    hide SegsApart, Inside;
    j := InsideAt(segs, a, Extent(b[a]));
    if j != i { SegFacts(segs, i, j); }
  }

  lemma ReleasedBlock(b: Blocks, s: Segment, a: int)
    requires a in b && BlockOk(b, a) && !Within(s, a)
      && (Next(b, a) in b && b[a].kind != Top ==> !Within(s, Next(b, a)))
      && (b[a].gap > 0 ==> !Within(s, a - b[a].gap))
    ensures BlockOk(Released(b, s), a)
  {
  }

  lemma StaysBlock(b: Blocks, segs: seq<Segment>, i: nat, a: int)
    requires Tiled(b) && SegsApart(segs) && AllInside(b, segs) && i < |segs| && a in Released(b, segs[i])
    ensures BlockOk(Released(b, segs[i]), a)
  {
    hide SegsApart, AllInside, BlockOk, Inside;
    EndsDiffer(b, a, a);
    BlockFields(b, a);
    hide Tiled;
    var j := StaysIn(b, segs, i, a);
    if b[a].gap > 0 { GapStays(b, segs, i, j, a); }
    ReleasedBlock(b, segs[i], a);
  }

  /** The free chunk in front is in the same segment. */
  lemma GapStays(b: Blocks, segs: seq<Segment>, i: nat, j: nat, a: int)
    requires SegsApart(segs) && AllInside(b, segs) && i < |segs| && j < |segs| && j != i
    requires a in b && b[a].gap > 0 && Within(segs[j], a)
    requires a - b[a].gap in b && b[a - b[a].gap] == Block(b[a].gap, Free, 0)
    ensures !Within(segs[i], a - b[a].gap)
  {
    hide SegsApart, Inside;
    var p := a - b[a].gap;
    var k := InsideAt(segs, p, Extent(b[p]));
    SegFacts(segs, i, j);
    if k != j { SegFacts(segs, j, k); }
  }

  /** In a segment without chunks in use there is nothing but the free chunk, the record and fenceposts. */
  lemma NothingElse(b: Blocks, segs: seq<Segment>, i: nat, a: int)
    requires Tiled(b) && SegsApart(segs) && AllInside(b, segs) && Unused(b, segs, i)
    requires a in b && Within(segs[i], a) && a != segs[i].base
    ensures b[a].kind == Own || b[a].kind == Fence
  {
    hide SegsApart, BlockOk, Inside;
    SizePositive(b, a);
    EndsDiffer(b, segs[i].base, a);
    var j := InsideAt(segs, a, Extent(b[a]));
    if j != i { SegFacts(segs, i, j); }
  }

  lemma ReleaseTiled(b: Blocks, segs: seq<Segment>, i: nat)
    requires Tiled(b) && SegsApart(segs) && AllInside(b, segs) && i < |segs|
    ensures Tiled(Released(b, segs[i]))
  {
    hide BlockOk, SegsApart, AllInside;
    forall a | a in Released(b, segs[i]) ensures BlockOk(Released(b, segs[i]), a) { StaysBlock(b, segs, i, a); }
    assert Apart(Released(b, segs[i]));
  }

  lemma ReleaseApart(segs: seq<Segment>, i: nat)
    requires SegsApart(segs) && i < |segs|
    ensures SegsApart(Dropped(segs, i))
  {
    hide SegOk, Clear;
    var segs' := Dropped(segs, i);
    forall k | 0 <= k < |segs'| ensures SegOk(segs'[k]) { DroppedFrom(segs, i, k); }
    forall k, l | 0 <= k < |segs'| && 0 <= l < |segs'| && k != l ensures Clear(segs'[k], segs'[l]) {
      DroppedFrom(segs, i, k);
      DroppedFrom(segs, i, l);
    }
  }

  lemma ReleaseInside(b: Blocks, segs: seq<Segment>, i: nat)
    requires Tiled(b) && SegsApart(segs) && AllInside(b, segs) && i < |segs|
    ensures AllInside(Released(b, segs[i]), Dropped(segs, i))
  {
    hide SegsApart, Inside, Dropped;
    var b', segs' := Released(b, segs[i]), Dropped(segs, i);
    forall a | a in b' ensures Inside(segs', a, Extent(b'[a])) {
      SizePositive(b, a);
      var j := StaysIn(b, segs, i, a);
      DroppedAt(segs, i, j);
      InsideOf(segs', if j < i then j else j - 1, a, Extent(b[a]));
    }
    forall k | 0 <= k < |segs'| ensures segs'[k].base in b' {
      DroppedFrom(segs, i, k);
      SegFacts(segs, i, if k < i then k else k + 1);
    }
  }

  lemma ReleaseTop(b: Blocks, segs: seq<Segment>, top: int, i: nat)
    requires SegsApart(segs) && TopOk(b, segs, top) && 0 < i < |segs|
    ensures TopOk(Released(b, segs[i]), Dropped(segs, i), top)
  {
    hide SegsApart;
    SegFacts(segs, i, 0);
    DroppedAt(segs, i, 0);
  }

  lemma ReleaseEnds(b: Blocks, segs: seq<Segment>, top: int, i: nat, j: nat)
    requires SegsApart(segs) && TopOk(b, segs, top) && Fenced(b, segs, top) && 0 < i < |segs| && j < |segs| && j != i
    ensures var b' := Released(b, segs[i]);
      top in b' && (TopIn(b', segs[j], top) || FenceAt(b', End(segs[j]) - 2 * SIZE_T_SIZE))
  {
    hide SegsApart;
    SegFacts(segs, i, 0);
    SegFacts(segs, i, j);
    assert top in b && TopIn(b, segs[0], top);
    hide TopOk;
    assert TopIn(b, segs[j], top) || FenceAt(b, End(segs[j]) - 2 * SIZE_T_SIZE);
    hide Fenced;
    assert segs[j].size >= PAGE;
  }

  lemma ReleaseFence(b: Blocks, segs: seq<Segment>, top: int, i: nat, f: int)
    requires SegsApart(segs) && AllInside(b, segs) && top in b && Fenced(b, segs, top) && i < |segs|
    requires f in Released(b, segs[i]) && b[f].kind == Fence && b[f].size > 0
    ensures var b', segs' := Released(b, segs[i]), Dropped(segs, i);
      Next(b', f) in b' || exists k | 0 <= k < |segs'| :: f == End(segs'[k]) - 2 * SIZE_T_SIZE
  {
    hide SegsApart, Inside, AllInside, Dropped;
    var j := StaysIn(b, segs, i, f);
    if Next(b, f) !in b {
      var l: nat :| l < |segs| && f == End(segs[l]) - 2 * SIZE_T_SIZE;
      if l == i {
        SegFacts(segs, i, j);
      } else {
        DroppedAt(segs, i, l);
        assert f == End(Dropped(segs, i)[if l < i then l else l - 1]) - 2 * SIZE_T_SIZE;
      }
    }
  }

  lemma ReleaseFenced(b: Blocks, segs: seq<Segment>, top: int, i: nat)
    requires Tiled(b) && SegsApart(segs) && AllInside(b, segs) && TopOk(b, segs, top) && Fenced(b, segs, top)
      && 0 < i < |segs|
    ensures top in Released(b, segs[i]) && Fenced(Released(b, segs[i]), Dropped(segs, i), top)
  {
    hide SegsApart, Dropped, Tiled, AllInside, TopOk, Fenced, TopIn, FenceAt;
    var b', segs' := Released(b, segs[i]), Dropped(segs, i);
    ReleaseEnds(b, segs, top, i, 0);
    assert forall k | 0 <= k < |segs'| :: TopIn(b', segs'[k], top) || FenceAt(b', End(segs'[k]) - 2 * SIZE_T_SIZE) by {
      forall k | 0 <= k < |segs'| ensures TopIn(b', segs'[k], top) || FenceAt(b', End(segs'[k]) - 2 * SIZE_T_SIZE) {
        DroppedFrom(segs, i, k);
        ReleaseEnds(b, segs, top, i, if k < i then k else k + 1);
      }
    }
    forall f | f in b' && b'[f].kind == Fence
      ensures Next(b', f) in b' || exists k | 0 <= k < |segs'| :: f == End(segs'[k]) - 2 * SIZE_T_SIZE
    {
      SizePositive(b, f);
      ReleaseFence(b, segs, top, i, f);
    }
    FencedIs(b', segs', top);
  }

  lemma FencedIs(b: Blocks, segs: seq<Segment>, top: int)
    requires top in b
    requires forall i | 0 <= i < |segs| :: TopIn(b, segs[i], top) || FenceAt(b, End(segs[i]) - 2 * SIZE_T_SIZE)
    requires forall a | a in b && b[a].kind == Fence ::
      Next(b, a) in b || exists i | 0 <= i < |segs| :: a == End(segs[i]) - 2 * SIZE_T_SIZE
    ensures Fenced(b, segs, top)
  {
  }

  /** A segment that is not the first, with nothing in it in use, can go. */
  lemma ReleaseHeap(b: Blocks, segs: seq<Segment>, top: int, i: nat)
    requires HeapOk(b, segs, top) && 0 < i < |segs|
    ensures HeapOk(Released(b, segs[i]), Dropped(segs, i), top)
  {
    hide Tiled, SegsApart, AllInside, TopOk, Fenced, Released, Dropped;
    ReleaseTiled(b, segs, i);
    ReleaseApart(segs, i);
    ReleaseInside(b, segs, i);
    ReleaseTop(b, segs, top, i);
    ReleaseFenced(b, segs, top, i);
  }

  /** No chunk handed out was in it, and of the free ones just the one. */
  lemma ReleaseSpare(b: Blocks, segs: seq<Segment>, top: int, i: nat, off: set<int>)
    requires HeapOk(b, segs, top) && Unused(b, segs, i)
    ensures var b', p := Released(b, segs[i]), segs[i].base;
      Lives(b') == Lives(b) && Spare(b', off) == Spare(b, off + {p}) && p !in b'
        && top in b' && b'[top] == b[top]
        && forall dv | dv in b && b[dv].kind == Free && dv != p :: dv in b' && b'[dv] == b[dv]
  {
    hide SegsApart, AllInside, Tiled, Fenced;
    var b', p := Released(b, segs[i]), segs[i].base;
    SegFacts(segs, i, 0);
    forall a | a in b && Within(segs[i], a) && a != p ensures b[a].kind == Own || b[a].kind == Fence {
      NothingElse(b, segs, i, a);
    }
  }

  lemma TagReleased(b: Blocks, head: Words, foot: Words, s: Segment)
    requires Tagged(b, head, foot)
    ensures Tagged(Released(b, s), head, foot)
  {
  }

  lemma ReleaseLinks(segs: seq<Segment>, links: seq<int>, i: nat)
    requires LinksOk(segs, links) && 0 < i < |segs|
    ensures LinksOk(Dropped(segs, i), Dropped(links, i)) && Shrank(segs, Dropped(segs, i))
  {
    var segs', links' := Dropped(segs, i), Dropped(links, i);
    forall k | 0 < k < |segs'| ensures Within(segs'[k], links'[k]) {
      DroppedFrom(segs, i, k);
      DroppedFrom(links, i, k);
    }
    forall a | Covered(segs', a) ensures Covered(segs, a) {
      var k: nat :| k < |segs'| && segs'[k].base <= a < End(segs'[k]);
      DroppedFrom(segs, i, k);
      CoveredBy(segs, if k < i then k else k + 1, a);
    }
  }

  lemma LinksLength(segs: seq<Segment>, links: seq<int>)
    requires LinksOk(segs, links)
    ensures |links| == |segs| > 0
  {
  }

  /** What a segment other than the first begins with. */
  lemma FirstOfOther(b: Blocks, segs: seq<Segment>, top: int, i: nat)
    requires HeapOk(b, segs, top) && 0 < i < |segs|
    ensures segs[i].base in b && b[segs[i].base].kind != Top && SegOk(segs[i])
    ensures Unused(b, segs, i) ==> b[segs[i].base].gap == 0 && b[segs[i].base].size >= 256
  {
    hide SegsApart, Tiled, Inside, Fenced;
    SegFacts(segs, i, 0);
    var p := segs[i].base;
    if b[p].kind == Free { AfterFree(b, p); }
    assert segs[i].size >= PAGE;
  }

  lemma ShrankSame(segs: seq<Segment>)
    ensures Shrank(segs, segs)
  {
  }

  lemma ShrankBoth(s0: seq<Segment>, s1: seq<Segment>, s2: seq<Segment>)
    requires Shrank(s0, s1) && Shrank(s1, s2)
    ensures Shrank(s0, s2)
  {
    hide Covered;
  }

  /** After segment `i` went, the ones before it still are not unused. */
  lemma Gone(b: Blocks, segs: seq<Segment>, top: int, links: seq<int>, i: nat)
    requires HeapOk(b, segs, top) && LinksOk(segs, links) && 0 < i < |segs|
    ensures Shrank(segs, Dropped(segs, i)) && |Dropped(segs, i)| == |segs| - 1 && segs[i].size > 0
    ensures forall j | 0 < j < i && j < |Dropped(segs, i)| ::
      segs[j].base == Dropped(segs, i)[j].base
      && (Unused(Released(b, segs[i]), Dropped(segs, i), j) <==> Unused(b, segs, j))
  {
    hide Tiled, AllInside, TopOk, Fenced, Unused, Released, SegsApart;
    ReleaseLinks(segs, links, i);
    SegFacts(segs, i, 0);
    assert |Dropped(segs, i)| == |segs| - 1;
    hide Dropped;
    forall j | 0 < j < i && j < |Dropped(segs, i)|
      ensures segs[j].base == Dropped(segs, i)[j].base
        && (Unused(Released(b, segs[i]), Dropped(segs, i), j) <==> Unused(b, segs, j))
    {
      DroppedFrom(segs, i, j);
      OthersUnused(b, segs, i, j);
    }
  }

  /** The segments that are left are as they were. */
  lemma OthersUnused(b: Blocks, segs: seq<Segment>, i: nat, j: nat)
    requires SegsApart(segs) && 0 < i < |segs| && j < |Dropped(segs, i)|
    ensures Unused(Released(b, segs[i]), Dropped(segs, i), j) <==> Unused(b, segs, if j < i then j else j + 1)
  {
    hide SegsApart;
    DroppedFrom(segs, i, j);
    SegFacts(segs, i, if j < i then j else j + 1);
  }

  // ----- the end of the top chunk

  function Trimmed(b: Blocks, top: int, extra: nat): Blocks
    requires top in b && extra <= b[top].size
  {
    b[top := b[top].(size := b[top].size - extra)]
  }

  function Shorter(segs: seq<Segment>, extra: nat): seq<Segment>
    requires |segs| > 0 && extra <= segs[0].size
  {
    segs[0 := Segment(segs[0].base, segs[0].size - extra)]
  }

  /** Pages that can be cut off. */
  ghost predicate Trims(b: Blocks, segs: seq<Segment>, top: int, extra: nat)
  {
    |segs| > 0 && top in b && TopIn(b, segs[0], top) && extra < b[top].size && extra % PAGE == 0 && extra % 8 == 0
  }

  lemma TrimBlock(b: Blocks, top: int, extra: nat, c: int)
    requires top in b && b[top].kind == Top && extra < b[top].size && extra % 8 == 0 && c in b && BlockOk(b, c)
    ensures BlockOk(Trimmed(b, top, extra), c)
  {
    if c == top { DivUnique(b[top].size - extra, 8, b[top].size / 8 - extra / 8, 0); }
  }

  lemma TrimApart(segs: seq<Segment>, extra: nat)
    requires SegsApart(segs) && |segs| > 0 && extra < segs[0].size && extra % PAGE == 0
    ensures SegsApart(Shorter(segs, extra))
  {
    var segs' := Shorter(segs, extra);
    assert SegOk(segs[0]);
    DivUnique(segs[0].size - extra, PAGE, segs[0].size / PAGE - extra / PAGE, 0);
    forall j, k | 0 <= j < |segs'| && 0 <= k < |segs'| && j != k ensures Clear(segs'[j], segs'[k]) {
      assert Clear(segs[j], segs[k]);
    }
  }

  lemma TrimInside(b: Blocks, segs: seq<Segment>, top: int, extra: nat)
    requires Tiled(b) && SegsApart(segs) && AllInside(b, segs) && TopOk(b, segs, top) && Trims(b, segs, top, extra)
    ensures extra <= segs[0].size && AllInside(Trimmed(b, top, extra), Shorter(segs, extra))
  {
    hide SegsApart, Inside, BlockOk, Shorter, Trimmed;
    var b', segs' := Trimmed(b, top, extra), Shorter(segs, extra);
    TrimmedAt(b, segs, top, extra);
    forall c | c in b' ensures Inside(segs', c, Extent(b'[c])) {
      var j := InsideAt(segs, c, Extent(b[c]));
      EndsDiffer(b, c, top);
      InsideOf(segs', j, c, Extent(b'[c]));
    }
  }

  lemma TrimmedAt(b: Blocks, segs: seq<Segment>, top: int, extra: nat)
    requires Trims(b, segs, top, extra)
    ensures extra <= segs[0].size
    ensures var b' := Trimmed(b, top, extra);
      && b'.Keys == b.Keys && (forall c | c in b && c != top :: b'[c] == b[c])
      && b'[top] == Block(b[top].size - extra, b[top].kind, b[top].gap)
    ensures var segs' := Shorter(segs, extra);
      && |segs'| == |segs| && segs'[0].base == segs[0].base && End(segs'[0]) == End(segs[0]) - extra
      && (forall i | 0 < i < |segs| :: segs'[i] == segs[i]) && TopIn(Trimmed(b, top, extra), segs'[0], top)
    ensures TopIn(b, segs[0], top)
  {
  }

  lemma TrimFence(b: Blocks, segs: seq<Segment>, top: int, extra: nat, f: int)
    requires TopOk(b, segs, top) && Fenced(b, segs, top) && Trims(b, segs, top, extra) && f in b && b[f].kind == Fence
    ensures extra <= segs[0].size
    ensures Next(b, f) in b || exists i | 0 <= i < |segs| :: f == End(Shorter(segs, extra)[i]) - 2 * SIZE_T_SIZE
  {
    NoFenceBehind(b, segs, top, 0, f);
    hide TopOk, TopIn;
    if Next(b, f) !in b {
      var i: nat :| i < |segs| && f == End(segs[i]) - 2 * SIZE_T_SIZE;
      assert Shorter(segs, extra)[i] == segs[i];
    }
  }

  lemma TrimEnds(b: Blocks, segs: seq<Segment>, top: int, extra: nat, i: nat)
    requires TopOk(b, segs, top) && Fenced(b, segs, top) && Trims(b, segs, top, extra) && SegsApart(segs) && i < |segs|
    ensures extra <= segs[0].size && |Shorter(segs, extra)| == |segs| && top in Trimmed(b, top, extra)
    ensures var b', segs' := Trimmed(b, top, extra), Shorter(segs, extra);
      TopIn(b', segs'[i], top) || FenceAt(b', End(segs'[i]) - 2 * SIZE_T_SIZE)
  {
    hide SegsApart;
    if i > 0 { OneTopSegment(b, segs, top, 0, i); }
  }

  lemma TrimFenced(b: Blocks, segs: seq<Segment>, top: int, extra: nat)
    requires TopOk(b, segs, top) && Fenced(b, segs, top) && Trims(b, segs, top, extra) && SegsApart(segs)
    ensures extra <= segs[0].size && Fenced(Trimmed(b, top, extra), Shorter(segs, extra), top)
  {
    hide SegsApart, Shorter, Trimmed, TopOk, Fenced, TopIn, FenceAt;
    TrimmedAt(b, segs, top, extra);
    var b', segs' := Trimmed(b, top, extra), Shorter(segs, extra);
    IsTop(b, segs, top);
    forall i | 0 <= i < |segs'| ensures TopIn(b', segs'[i], top) || FenceAt(b', End(segs'[i]) - 2 * SIZE_T_SIZE) {
      TrimEnds(b, segs, top, extra, i);
    }
    forall f | f in b' && b'[f].kind == Fence
      ensures Next(b', f) in b' || exists i | 0 <= i < |segs'| :: f == End(segs'[i]) - 2 * SIZE_T_SIZE
    {
      TrimFence(b, segs, top, extra, f);
    }
    FencedIs(b', segs', top);
  }

  lemma TrimHeap(b: Blocks, segs: seq<Segment>, top: int, extra: nat)
    requires HeapOk(b, segs, top) && Trims(b, segs, top, extra)
    ensures extra <= segs[0].size && HeapOk(Trimmed(b, top, extra), Shorter(segs, extra), top)
  {
    hide BlockOk, SegsApart, Inside, Shorter, Trimmed, Fenced, AllInside;
    var b', segs' := Trimmed(b, top, extra), Shorter(segs, extra);
    TrimmedAt(b, segs, top, extra);
    forall c | c in b' ensures BlockOk(b', c) {
      EndsDiffer(b, c, c);
      TrimBlock(b, top, extra, c);
    }
    TrimApart(segs, extra);
    TrimInside(b, segs, top, extra);
    TrimFenced(b, segs, top, extra);
  }

  lemma SpareTrimmed(b: Blocks, top: int, extra: nat, off: set<int>)
    requires top in b && b[top].kind == Top && extra <= b[top].size
    ensures Spare(Trimmed(b, top, extra), off) == Spare(b, off) && Lives(Trimmed(b, top, extra)) == Lives(b)
  {
  }

  /** `init_top` on the shorter top chunk. */
  lemma TagTrimmed(b: Blocks, head: Words, foot: Words, top: int, extra: nat)
    requires Tagged(b, head, foot) && top in b && b[top].kind == Top && b[top].gap == 0 && extra < b[top].size
      && top + b[top].size - extra !in b
    ensures var z := b[top].size - extra;
      Tagged(Trimmed(b, top, extra), head[top := Head(z, false, true)][top + z := TOP_FOOT_SIZE], foot)
  {
  }

  /** What `alloc_trim` gives back of a top chunk of `t` bytes, in whole units; at least one is kept. */
  function TrimExtra(t: nat): nat
    requires t > TOP_FOOT_SIZE
  {
    (t - TOP_FOOT_SIZE + DEFAULT_GRANULARITY - 1) / DEFAULT_GRANULARITY * DEFAULT_GRANULARITY - DEFAULT_GRANULARITY
  }

  /** Between the room for a record and one unit more is left, and only whole pages go. */
  lemma TrimLeaves(t: nat)
    requires t > TOP_FOOT_SIZE
    ensures TOP_FOOT_SIZE < t - TrimExtra(t) <= TOP_FOOT_SIZE + DEFAULT_GRANULARITY
    ensures TrimExtra(t) % DEFAULT_GRANULARITY == 0 && TrimExtra(t) % PAGE == 0 && TrimExtra(t) % 8 == 0
  {
    var k := (t - TOP_FOOT_SIZE + DEFAULT_GRANULARITY - 1) / DEFAULT_GRANULARITY;
    DivUnique(TrimExtra(t), DEFAULT_GRANULARITY, k - 1, 0);
    DivUnique(TrimExtra(t), PAGE, 32 * (k - 1), 0);
    DivUnique(TrimExtra(t), 8, 0x4000 * (k - 1), 0);
  }

  lemma TrimLinks(segs: seq<Segment>, links: seq<int>, extra: nat)
    requires LinksOk(segs, links) && extra <= segs[0].size
    ensures LinksOk(Shorter(segs, extra), links) && Shrank(segs, Shorter(segs, extra))
  {
    var segs' := Shorter(segs, extra);
    forall a | Covered(segs', a) ensures Covered(segs, a) {
      var k: nat :| k < |segs'| && segs'[k].base <= a < End(segs'[k]);
      CoveredBy(segs, k, a);
    }
  }

  /** Only the first segment can hold the record of the first. */
  lemma OwnLinks(segs: seq<Segment>, links: seq<int>)
    requires SegsApart(segs) && LinksOk(segs, links)
    ensures (exists k | 0 <= k < |links| :: Within(segs[0], links[k])) <==> Within(segs[0], links[0])
  {
    hide SegsApart;
    forall k | 0 < k < |links| ensures !Within(segs[0], links[k]) { SegFacts(segs, 0, k); }
  }

  /** When the top chunk can be trimmed: it is large enough, and its segment does not hold the allocator's state. */
  predicate CanTrim(segs: seq<Segment>, links: seq<int>, topsize: nat)
  {
    topsize > TOP_FOOT_SIZE && |segs| > 0 && |links| > 0 && !Within(segs[0], links[0])
  }

  lemma TopSegmentIs(b: Blocks, segs: seq<Segment>, top: int)
    requires HeapOk(b, segs, top)
    ensures top in b && |segs| > 0 && TopIn(b, segs[0], top) && Within(segs[0], top) && SegsApart(segs)
  {
    hide Tiled, AllInside, Fenced, SegsApart;
  }
}
