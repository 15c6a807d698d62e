/** New memory from the system: behind the top segment, in front of a segment, or as a segment of its own. */
module AllocMapping {
  import opened AllocSizes
  import opened AllocHeap
  import opened AllocSegments

  /** The system hands out pages that are not mapped yet. */
  ghost predicate Unmapped(segs: seq<Segment>, s: Segment)
  {
    SegOk(s) && forall i | 0 <= i < |segs| :: Clear(segs[i], s)
  }

  lemma UnmappedSize(segs: seq<Segment>, s: Segment)
    requires Unmapped(segs, s)
    ensures s.size % 8 == 0 && s.base % 8 == 0 && s.base > 0 && s.size > 0 && End(s) <= TERA
  {
    hide Clear;
    PageMultiple(s.size);
    PageMultiple(s.base);
  }

  lemma PageMultiple(x: int)
    requires x % PAGE == 0
    ensures x % 8 == 0
  {
    var k := x / PAGE;
    assert x == PAGE * k == 8 * (512 * k);
  }

  // ----- behind the top segment

  function Appended(b: Blocks, top: int, extra: nat): Blocks
    requires top in b
  {
    b[top := b[top].(size := b[top].size + extra)]
  }

  function Longer(segs: seq<Segment>, i: nat, extra: nat): seq<Segment>
    requires i < |segs|
  {
    segs[i := Segment(segs[i].base, segs[i].size + extra)]
  }

  lemma LongerApart(segs: seq<Segment>, i: nat, extra: nat)
    requires SegsApart(segs) && i < |segs| && Unmapped(segs, Segment(End(segs[i]), extra))
    ensures SegsApart(Longer(segs, i, extra))
  {
    var segs' := Longer(segs, i, extra);
    forall j, k | 0 <= j < |segs'| && 0 <= k < |segs'| && j != k ensures Clear(segs'[j], segs'[k]) {
      assert Clear(segs[j], segs[k]);
    }
  }

  lemma LongerInside(b: Blocks, segs: seq<Segment>, i: nat, extra: nat, a: int, z: nat)
    requires Inside(segs, a, z) && i < |segs|
    ensures Inside(Longer(segs, i, extra), a, z)
  {
    var j: nat :| j < |segs| && Holds(segs[j], a, z);
    assert Holds(Longer(segs, i, extra)[j], a, z);
  }

  /** The segment that holds the top chunk's address is the one it ends. */
  lemma TopSegment(b: Blocks, segs: seq<Segment>, top: int, i: nat)
    requires HeapOk(b, segs, top) && i < |segs| && segs[i].base <= top < End(segs[i])
    ensures i == 0 && top in b && TopIn(b, segs[0], top)
  {
    hide BlockOk, SegsApart, AllInside, Fenced;
    if i != 0 { SegFacts(segs, i, 0); }
  }

  lemma AppendBlock(b: Blocks, top: int, extra: nat, c: int)
    requires top in b && b[top].kind == Top && extra % 8 == 0 && c in b && BlockOk(b, c)
    ensures BlockOk(Appended(b, top, extra), c)
  {
  }

  lemma AppendHeap(b: Blocks, segs: seq<Segment>, top: int, i: nat, extra: nat)
    requires HeapOk(b, segs, top) && i < |segs| && segs[i].base <= top < End(segs[i])
      && Unmapped(segs, Segment(End(segs[i]), extra))
    ensures top in b && HeapOk(Appended(b, top, extra), Longer(segs, i, extra), top)
  {
    hide BlockOk, SegsApart, Inside, Fenced, TopOk, Unmapped, TopIn, Apart;
    TopSegment(b, segs, top, i);
    var b', segs' := Appended(b, top, extra), Longer(segs, i, extra);
    LongerApart(segs, i, extra);
    UnmappedSize(segs, Segment(End(segs[i]), extra));
    IsTop(b, segs, top);
    forall c | c in b' ensures BlockOk(b', c) {
      EndsDiffer(b, top, c);
      AppendBlock(b, top, extra, c);
    }
    AppendApart(b, segs, top, i, extra);
    hide Tiled;
    forall c | c in b' ensures Inside(segs', c, Extent(b'[c])) {
      LongerInside(b, segs, i, extra, c, Extent(b[c]));
      if c == top { AppendInside(b, segs, top, i, extra); }
    }
    forall j | 0 <= j < |segs'| ensures segs'[j].base in b' { assert segs[j].base in b; }
    AppendTop(b, segs, top, i, extra);
  }

  lemma IsTop(b: Blocks, segs: seq<Segment>, top: int)
    requires TopOk(b, segs, top)
    ensures top in b && b[top].kind == Top && forall a | a in b && a != top :: b[a].kind != Top
  {
  }

  lemma AppendInside(b: Blocks, segs: seq<Segment>, top: int, i: nat, extra: nat)
    requires top in b && i < |segs| && TopIn(b, segs[i], top)
    ensures Inside(Longer(segs, i, extra), top, b[top].size + extra + TOP_FOOT_SIZE - SIZE_T_SIZE)
  {
    assert Holds(Longer(segs, i, extra)[i], top, b[top].size + extra + TOP_FOOT_SIZE - SIZE_T_SIZE);
  }

  /** The chunks of other segments are out of the way. */
  lemma Elsewhere(b: Blocks, segs: seq<Segment>, s: Segment, a: int)
    requires SegsApart(segs) && AllInside(b, segs) && a in b && Unmapped(segs, s)
    ensures Next(b, a) <= s.base - SIZE_T_SIZE || End(s) <= a
  {
    hide SegsApart, Inside;
    var j := InsideAt(segs, a, Extent(b[a]));
  }

  lemma AppendApart(b: Blocks, segs: seq<Segment>, top: int, i: nat, extra: nat)
    requires HeapOk(b, segs, top) && top in b && i < |segs| && TopIn(b, segs[i], top)
      && Unmapped(segs, Segment(End(segs[i]), extra))
    ensures Apart(Appended(b, top, extra))
  {
    hide BlockOk, SegsApart, Inside, Fenced;
    forall c | c in b && c > top ensures top + b[top].size + extra <= c {
      TopAfter(b, segs, top, c);
      Elsewhere(b, segs, Segment(End(segs[i]), extra), c);
    }
  }

  lemma AppendTop(b: Blocks, segs: seq<Segment>, top: int, i: nat, extra: nat)
    requires SegsApart(segs) && AllInside(b, segs) && TopOk(b, segs, top) && Fenced(b, segs, top)
    requires i < |segs| && TopIn(b, segs[i], top) && Unmapped(segs, Segment(End(segs[i]), extra))
    ensures TopOk(Appended(b, top, extra), Longer(segs, i, extra), top)
      && Fenced(Appended(b, top, extra), Longer(segs, i, extra), top)
  {
    hide SegsApart, Inside, Unmapped;
    AppendTopOk(b, segs, top, i, extra);
    hide TopOk, AllInside;
    AppendFenced(b, segs, top, i, extra);
  }

  lemma AppendTopOk(b: Blocks, segs: seq<Segment>, top: int, i: nat, extra: nat)
    requires SegsApart(segs) && AllInside(b, segs) && TopOk(b, segs, top) && i < |segs| && TopIn(b, segs[i], top)
      && Unmapped(segs, Segment(End(segs[i]), extra))
    ensures TopOk(Appended(b, top, extra), Longer(segs, i, extra), top)
  {
    hide SegsApart, AllInside, Unmapped;
    var b', segs' := Appended(b, top, extra), Longer(segs, i, extra);
    forall c | c in b && c > top ensures c >= Next(b', top) + TOP_FOOT_SIZE {
      Elsewhere(b, segs, Segment(End(segs[i]), extra), c);
      assert c >= Next(b, top) + TOP_FOOT_SIZE;
    }
    if i != 0 { SegFacts(segs, 0, i); }
    assert TopIn(b', segs'[0], top);
    assert forall a | a in b' :: b'[a].kind == Top <==> a == top;
  }

  lemma AppendEnds(b: Blocks, segs: seq<Segment>, top: int, i: nat, extra: nat, j: nat)
    requires SegsApart(segs) && top in b && Fenced(b, segs, top) && i < |segs| && TopIn(b, segs[i], top) && j < |segs|
    ensures var b', segs' := Appended(b, top, extra), Longer(segs, i, extra);
      TopIn(b', segs'[j], top) || FenceAt(b', End(segs'[j]) - 2 * SIZE_T_SIZE)
  {
    hide SegsApart;
    if j != i { OneTopSegment(b, segs, top, i, j); }
  }

  lemma AppendFence(b: Blocks, segs: seq<Segment>, top: int, i: nat, extra: nat, f: int)
    requires TopOk(b, segs, top) && Fenced(b, segs, top) && i < |segs| && TopIn(b, segs[i], top) && f in b
      && b[f].kind == Fence
    ensures Next(b, f) in b || exists j | 0 <= j < |segs| :: f == End(Longer(segs, i, extra)[j]) - 2 * SIZE_T_SIZE
  {
    NoFenceBehind(b, segs, top, i, f);
    hide TopOk;
    if Next(b, f) !in b {
      var j: nat :| j < |segs| && f == End(segs[j]) - 2 * SIZE_T_SIZE;
      assert Longer(segs, i, extra)[j] == segs[j];
    }
  }

  lemma AppendFenced(b: Blocks, segs: seq<Segment>, top: int, i: nat, extra: nat)
    requires SegsApart(segs) && TopOk(b, segs, top) && Fenced(b, segs, top) && i < |segs| && TopIn(b, segs[i], top)
    ensures Fenced(Appended(b, top, extra), Longer(segs, i, extra), top)
  {
    hide SegsApart, TopOk;
    IsTop(b, segs, top);
    var b', segs' := Appended(b, top, extra), Longer(segs, i, extra);
    forall j | 0 <= j < |segs'| ensures TopIn(b', segs'[j], top) || FenceAt(b', End(segs'[j]) - 2 * SIZE_T_SIZE) {
      AppendEnds(b, segs, top, i, extra, j);
    }
    forall f | f in b' && b'[f].kind == Fence
      ensures Next(b', f) in b' || exists j | 0 <= j < |segs'| :: f == End(segs'[j]) - 2 * SIZE_T_SIZE
    {
      AppendFence(b, segs, top, i, extra, f);
    }
  }

  lemma OneTopSegment(b: Blocks, segs: seq<Segment>, top: int, i: nat, j: nat)
    requires SegsApart(segs) && top in b && i < |segs| && j < |segs| && TopIn(b, segs[i], top) && i != j
    ensures !TopIn(b, segs[j], top)
  {
    hide SegsApart;
    SegFacts(segs, i, j);
  }

  lemma NoFenceBehind(b: Blocks, segs: seq<Segment>, top: int, i: nat, f: int)
    requires TopOk(b, segs, top) && i < |segs| && TopIn(b, segs[i], top) && f in b && b[f].kind == Fence
    ensures f != End(segs[i]) - 2 * SIZE_T_SIZE
  {
  }

  // ----- in front of a segment

  /** The first chunk of the new pages, and the rest of them up to the old first chunk. */
  function Prepended(b: Blocks, base: int, nb: nat, extra: nat): Blocks
    requires nb <= extra
  {
    b[base := Block(nb, Live, 0)][base + nb := Block(extra - nb, Live, 0)]
  }

  function Earlier(segs: seq<Segment>, i: nat, extra: nat): seq<Segment>
    requires i < |segs|
  {
    segs[i := Segment(segs[i].base - extra, segs[i].size + extra)]
  }

  predicate Prepends(segs: seq<Segment>, i: nat, nb: nat, extra: nat)
  {
    i < |segs| && nb % 8 == 0 && extra % 8 == 0 && MIN_CHUNK_SIZE <= nb && nb + MIN_CHUNK_SIZE <= extra
  }

  lemma EarlierApart(segs: seq<Segment>, i: nat, extra: nat)
    requires SegsApart(segs) && i < |segs| && Unmapped(segs, Segment(segs[i].base - extra, extra))
    ensures SegsApart(Earlier(segs, i, extra))
  {
    var segs' := Earlier(segs, i, extra);
    forall j, k | 0 <= j < |segs'| && 0 <= k < |segs'| && j != k ensures Clear(segs'[j], segs'[k]) {
      assert Clear(segs[j], segs[k]);
    }
  }

  lemma PrependBlock(b: Blocks, base: int, nb: nat, extra: nat, c: int)
    requires base > 0 && base % 8 == 0 && nb % 8 == 0 && extra % 8 == 0 && MIN_CHUNK_SIZE <= nb
      && nb + MIN_CHUNK_SIZE <= extra
    requires base !in b && base + nb !in b && base + extra in b && c in Prepended(b, base, nb, extra)
      && (c in b ==> BlockOk(b, c))
    ensures BlockOk(Prepended(b, base, nb, extra), c)
  {
  }

  lemma PrependHeap(b: Blocks, segs: seq<Segment>, top: int, i: nat, nb: nat, extra: nat)
    requires HeapOk(b, segs, top) && Prepends(segs, i, nb, extra)
      && Unmapped(segs, Segment(segs[i].base - extra, extra))
    ensures var base := segs[i].base - extra;
      && base !in b && base + nb !in b && segs[i].base in b
      && HeapOk(Prepended(b, base, nb, extra), Earlier(segs, i, extra), top)
  {
    hide BlockOk, SegsApart, Inside, TopOk, Fenced, Unmapped, AllInside;
    var base := segs[i].base - extra;
    var s := Segment(base, extra);
    UnmappedSize(segs, s);
    assert SegOk(segs[i]) by { OneSegOk(segs, i); }
    BaseIn(b, segs, i);
    var b', segs' := Prepended(b, base, nb, extra), Earlier(segs, i, extra);
    EarlierApart(segs, i, extra);
    forall c | c in b
      ensures (Next(b, c) <= base || base + extra <= c) && b[c].size > 0
    {
      Elsewhere(b, segs, s, c);
      SizePositive(b, c);
    }
    forall c | c in b' ensures BlockOk(b', c) {
      if c in b { EndsDiffer(b, c, c); }
      PrependBlock(b, base, nb, extra, c);
    }
    assert Apart(b');
    hide Tiled, Apart;
    PrependInside(b, segs, i, nb, extra);
    PrependTop(b, segs, top, i, nb, extra);
  }

  lemma PrependInside(b: Blocks, segs: seq<Segment>, i: nat, nb: nat, extra: nat)
    requires Prepends(segs, i, nb, extra) && SegOk(segs[i]) && AllInside(b, segs)
    ensures AllInside(Prepended(b, segs[i].base - extra, nb, extra), Earlier(segs, i, extra))
  {
    hide Inside;
    var base := segs[i].base - extra;
    var b', segs' := Prepended(b, base, nb, extra), Earlier(segs, i, extra);
    forall c | c in b' ensures Inside(segs', c, Extent(b'[c])) {
      if c == base || c == base + nb {
        InsideOf(segs', i, c, Extent(b'[c]));
      } else {
        var j := InsideAt(segs, c, Extent(b[c]));
        InsideOf(segs', j, c, Extent(b[c]));
      }
    }
  }

  lemma PrependTop(b: Blocks, segs: seq<Segment>, top: int, i: nat, nb: nat, extra: nat)
    requires Prepends(segs, i, nb, extra) && TopOk(b, segs, top) && Fenced(b, segs, top) && segs[i].base - extra !in b
      && segs[i].base - extra + nb !in b
    requires forall c | c in b :: Next(b, c) <= segs[i].base - extra || segs[i].base <= c
    requires AllInside(b, segs) && SegsApart(segs) && Unmapped(segs, Segment(segs[i].base - extra, extra))
    ensures var b', segs' := Prepended(b, segs[i].base - extra, nb, extra), Earlier(segs, i, extra);
      TopOk(b', segs', top) && Fenced(b', segs', top)
  {
    hide SegsApart, AllInside;
    var base := segs[i].base - extra;
    var b', segs' := Prepended(b, base, nb, extra), Earlier(segs, i, extra);
    assert Clear(segs[0], Segment(base, extra));
    hide Unmapped;
    assert TopIn(b', segs'[0], top);
    assert TopOk(b', segs', top) by { hide Fenced; }
    hide TopOk;
    forall k | 0 <= k < |segs|
      ensures (TopIn(b, segs[k], top) ==> TopIn(b', segs'[k], top)) && End(segs'[k]) == End(segs[k])
    {
    }
    PrependFenced(b, segs, top, i, nb, extra);
  }

  lemma PrependFenced(b: Blocks, segs: seq<Segment>, top: int, i: nat, nb: nat, extra: nat)
    requires Prepends(segs, i, nb, extra) && top in b && Fenced(b, segs, top) && segs[i].base - extra !in b
      && segs[i].base - extra + nb !in b
    ensures Fenced(Prepended(b, segs[i].base - extra, nb, extra), Earlier(segs, i, extra), top)
  {
    var base := segs[i].base - extra;
    var b', segs' := Prepended(b, base, nb, extra), Earlier(segs, i, extra);
    forall k | 0 <= k < |segs|
      ensures End(segs'[k]) == End(segs[k]) && (TopIn(b, segs[k], top) ==> TopIn(b', segs'[k], top))
    {
    }
  }

  lemma OneSegOk(segs: seq<Segment>, i: nat)
    requires SegsApart(segs) && i < |segs|
    ensures SegOk(segs[i])
  {
  }

  lemma BaseIn(b: Blocks, segs: seq<Segment>, i: nat)
    requires AllInside(b, segs) && i < |segs|
    ensures segs[i].base in b
  {
  }

  // ----- a segment of its own

  /** The fenceposts from `lo` to the last one below `hi`. */
  function Fences(lo: int, hi: int): Blocks
  {
    map f: int | lo <= f < hi && f % 8 == 0 :: Block(SIZE_T_SIZE, Fence, 0)
  }

  /** Where the record of the old segment goes: behind the old top chunk, or over it if that is too small. */
  function RecordAt(b: Blocks, top: int): int
    requires top in b
  {
    if b[top].size < MIN_CHUNK_SIZE then top else Next(b, top)
  }

  /** The old top chunk becomes an ordinary chunk followed by the record and fenceposts. */
  function Retired(b: Blocks, top: int): Blocks
    requires top in b
  {
    var csp := RecordAt(b, top);
    (if csp == top then b else b[top := Block(b[top].size, Live, b[top].gap)])[csp :=
      Block(SEGMENT_RECORD_SIZE, Own, 0)]
      + Fences(csp + SEGMENT_RECORD_SIZE, Next(b, top) + TOP_FOOT_SIZE - SIZE_T_SIZE)
  }

  function NewTop(b: Blocks, s: Segment): Blocks
    requires s.size >= TOP_FOOT_SIZE
  {
    b[s.base := Block(s.size - TOP_FOOT_SIZE, Top, 0)]
  }

  lemma RetiredAt(b: Blocks, top: int, c: int)
    requires top in b && b[top].kind == Top && BlockOk(b, top)
      && (forall a | a in b && a > top :: a >= Next(b, top) + TOP_FOOT_SIZE)
    ensures var b', csp, e := Retired(b, top), RecordAt(b, top), Next(b, top) + TOP_FOOT_SIZE;
      && (c in b' <==>
        (c in b && c != top) || (c == top) || c == csp
        || (csp + SEGMENT_RECORD_SIZE <= c < e - SIZE_T_SIZE && c % 8 == 0))
      && (c in b && c != top ==> b'[c] == b[c])
      && (c == csp ==> b'[c] == Block(SEGMENT_RECORD_SIZE, Own, 0))
      && (c == top && csp != top ==> b'[c] == Block(b[top].size, Live, 0))
      && (csp + SEGMENT_RECORD_SIZE <= c < e - SIZE_T_SIZE && c % 8 == 0 ==> b'[c] == Block(SIZE_T_SIZE, Fence, 0))
      && csp % 8 == 0 && csp > 0 && e % 8 == 0 && top <= csp && csp + SEGMENT_RECORD_SIZE < e - SIZE_T_SIZE
  {
  }

  /** The facts about the old top chunk that the retirement rests on. */
  ghost predicate Retires(b: Blocks, top: int)
  {
    && top in b && b[top].kind == Top && BlockOk(b, top)
    && (forall a | a in b && a > top :: a >= Next(b, top) + TOP_FOOT_SIZE)
    && (forall a | a in b && a < top :: Next(b, a) <= top)
  }

  lemma CanRetire(b: Blocks, segs: seq<Segment>, top: int)
    requires HeapOk(b, segs, top)
    ensures Retires(b, top)
  {
    hide BlockOk, SegsApart, AllInside, Fenced;
    IsTop(b, segs, top);
    EndsDiffer(b, top, top);
    forall a | a in b && a != top
      ensures (a > top ==> a >= Next(b, top) + TOP_FOOT_SIZE) && (a < top ==> Next(b, a) <= top)
    {
      TopAfter(b, segs, top, a);
    }
  }

  lemma RetiredBlock(b: Blocks, top: int, c: int)
    requires Retires(b, top) && c in Retired(b, top) && (c in b ==> BlockOk(b, c))
    ensures BlockOk(Retired(b, top), c)
  {
    hide Retired, Fences;
    var b', csp := Retired(b, top), RecordAt(b, top);
    RetiredAt(b, top, c);
    if c in b && c != top {
      RetiredAt(b, top, Next(b, c));
      RetiredAt(b, top, c - b[c].gap);
    } else {
      RetiredAt(b, top, csp);
      RetiredAt(b, top, csp + SEGMENT_RECORD_SIZE);
    }
  }

  lemma RetiredPair(b: Blocks, top: int, a: int, c: int)
    requires Retires(b, top) && Apart(b) && a in Retired(b, top) && c in Retired(b, top) && a < c
    ensures a + Retired(b, top)[a].size <= c
  {
    hide Retired, Fences, BlockOk;
    RetiredAt(b, top, a);
    RetiredAt(b, top, c);
  }

  lemma RetiredTiled(b: Blocks, segs: seq<Segment>, top: int)
    requires HeapOk(b, segs, top)
    ensures top in b && Tiled(Retired(b, top))
  {
    hide BlockOk, Retires, SegsOk, Retired;
    CanRetire(b, segs, top);
    assert top in b by { TopThere(b, segs, top); }
    forall c | c in Retired(b, top) ensures BlockOk(Retired(b, top), c) {
      if c in b { EndsDiffer(b, c, c); }
      RetiredBlock(b, top, c);
    }
    forall a, c | a in Retired(b, top) && c in Retired(b, top) && a < c
      ensures a + Retired(b, top)[a].size <= c
    {
      RetiredPair(b, top, a, c);
    }
  }

  lemma TopThere(b: Blocks, segs: seq<Segment>, top: int)
    requires HeapOk(b, segs, top)
    ensures top in b && b[top].kind == Top
  {
    hide Tiled, AllInside, SegsApart, Fenced;
  }

  lemma RetiredInside(b: Blocks, segs: seq<Segment>, top: int, c: int)
    requires AllInside(b, segs) && TopOk(b, segs, top) && Retires(b, top) && c in Retired(b, top)
    ensures Inside(segs, c, Extent(Retired(b, top)[c]))
  {
    hide Inside, Retired, BlockOk;
    RetiredAt(b, top, c);
    if !(c in b && c != top) { InsideOf(segs, 0, c, Extent(Retired(b, top)[c])); }
  }

  lemma NewTopBlock(b: Blocks, s: Segment, c: int)
    requires s.size > TOP_FOOT_SIZE && s.size % 8 == 0 && s.base > 0 && s.base % 8 == 0 && s.base !in b
      && c in NewTop(b, s) && (c in b ==> BlockOk(b, c))
    ensures BlockOk(NewTop(b, s), c)
  {
  }

  lemma NewTopTiled(b: Blocks, segs: seq<Segment>, s: Segment)
    requires Tiled(b) && SegsApart(segs) && AllInside(b, segs) && Unmapped(segs, s) && s.size > TOP_FOOT_SIZE
    ensures s.base !in b && Tiled(NewTop(b, s)) && forall c | c in b :: Next(b, c) <= s.base || End(s) <= c
  {
    hide BlockOk, SegsApart, Inside, Unmapped, AllInside;
    UnmappedSize(segs, s);
    forall c | c in b
      ensures (Next(b, c) <= s.base || End(s) <= c) && b[c].size > 0
    {
      Elsewhere(b, segs, s, c);
      SizePositive(b, c);
    }
    forall c | c in NewTop(b, s) ensures BlockOk(NewTop(b, s), c) {
      if c in b { EndsDiffer(b, c, c); }
      NewTopBlock(b, s, c);
    }
    assert Apart(NewTop(b, s));
  }

  /** The heap after the top chunk moved to a new segment. */
  function Moved(b: Blocks, top: int, s: Segment): Blocks
    requires top in b && s.size >= TOP_FOOT_SIZE
  {
    NewTop(Retired(b, top), s)
  }

  lemma AddSegmentHeap(b: Blocks, segs: seq<Segment>, top: int, s: Segment)
    requires HeapOk(b, segs, top) && Unmapped(segs, s) && s.size > TOP_FOOT_SIZE
    ensures top in b && s.base !in Retired(b, top) && HeapOk(Moved(b, top, s), [s] + segs, s.base)
  {
    hide BlockOk, SegsApart, Inside, Unmapped, TopOk, Fenced, Retired, Tiled, Retires, NewTop;
    TopThere(b, segs, top);
    CanRetire(b, segs, top);
    RetiredTiled(b, segs, top);
    var b1, b' := Retired(b, top), Moved(b, top, s);
    forall c | c in b1 ensures Inside(segs, c, Extent(b1[c])) { RetiredInside(b, segs, top, c); }
    forall i | 0 <= i < |segs| ensures segs[i].base in b1 { RetiredAt(b, top, segs[i].base) by { RetiresAt(b, top); } }
    NewTopTiled(b1, segs, s);
    forall c | c in b1 ensures b1[c].size > 0 { SizePositive(b1, c); }
    NewSegments(segs, s);
    NewInside(b1, segs, s);
    NewTopOk(b, segs, top, s);
    NewFenced(b, segs, top, s);
  }

  lemma RetiresAt(b: Blocks, top: int)
    requires Retires(b, top)
    ensures top in b && b[top].kind == Top && BlockOk(b, top)
      && (forall a | a in b && a > top :: a >= Next(b, top) + TOP_FOOT_SIZE)
  {
    hide BlockOk;
  }

  lemma NewSegments(segs: seq<Segment>, s: Segment)
    requires SegsApart(segs) && Unmapped(segs, s)
    ensures SegsApart([s] + segs)
  {
    hide SegOk;
    var segs' := [s] + segs;
    forall i, j | 0 <= i < |segs'| && 0 <= j < |segs'| && i != j ensures Clear(segs'[i], segs'[j]) {
      if i == 0 {
        assert Clear(segs[j - 1], s);
      } else if j == 0 {
        assert Clear(segs[i - 1], s);
      } else {
        assert Clear(segs[i - 1], segs[j - 1]);
      }
    }
  }

  lemma NewInside(b: Blocks, segs: seq<Segment>, s: Segment)
    requires AllInside(b, segs) && s.size > TOP_FOOT_SIZE && s.base !in b
    ensures AllInside(NewTop(b, s), [s] + segs)
  {
    hide Inside;
    var segs' := [s] + segs;
    forall c | c in NewTop(b, s) ensures Inside(segs', c, Extent(NewTop(b, s)[c])) {
      if c == s.base {
        InsideOf(segs', 0, c, s.size - SIZE_T_SIZE);
      } else {
        var j := InsideAt(segs, c, Extent(b[c]));
        InsideOf(segs', j + 1, c, Extent(b[c]));
      }
    }
    forall i | 0 <= i < |segs'| ensures segs'[i].base in NewTop(b, s) { if i > 0 { assert segs[i - 1].base in b; } }
  }

  lemma NewTopOk(b: Blocks, segs: seq<Segment>, top: int, s: Segment)
    requires TopOk(b, segs, top) && Retires(b, top) && s.size > TOP_FOOT_SIZE && s.base !in Retired(b, top)
    requires forall c | c in Retired(b, top) :: Next(Retired(b, top), c) <= s.base || End(s) <= c
    requires forall c | c in Retired(b, top) :: Retired(b, top)[c].size > 0
    ensures TopOk(Moved(b, top, s), [s] + segs, s.base)
  {
    hide Retired, BlockOk, Retires;
    var b', segs' := Moved(b, top, s), [s] + segs;
    forall a | a in b' ensures b'[a].kind == Top <==> a == s.base {
      if a != s.base { RetiredAt(b, top, a) by { RetiresAt(b, top); } }
    }
    assert TopIn(b', segs'[0], s.base);
  }

  lemma NewEnds(b: Blocks, segs: seq<Segment>, top: int, s: Segment, i: nat)
    requires TopOk(b, segs, top) && Fenced(b, segs, top) && Retires(b, top) && s.size > TOP_FOOT_SIZE
      && s.base !in Retired(b, top) && i < |segs|
    ensures FenceAt(Moved(b, top, s), End(segs[i]) - 2 * SIZE_T_SIZE)
  {
    hide Retired, BlockOk, Retires;
    assert TopIn(b, segs[i], top) || FenceAt(b, End(segs[i]) - 2 * SIZE_T_SIZE);
    RetiredAt(b, top, End(segs[i]) - 2 * SIZE_T_SIZE) by { RetiresAt(b, top); }
  }

  /** Behind a new fencepost comes another, or it is the last. */
  lemma NewFence(b: Blocks, top: int, f: int)
    requires Retires(b, top) && f in Retired(b, top) && Retired(b, top)[f].kind == Fence && (f !in b || f == top)
    ensures Next(Retired(b, top), f) in Retired(b, top) || f == Next(b, top) + TOP_FOOT_SIZE - 2 * SIZE_T_SIZE
  {
    hide Retired, BlockOk, Retires;
    RetiredAt(b, top, f) by { RetiresAt(b, top); }
    RetiredAt(b, top, f + SIZE_T_SIZE) by { RetiresAt(b, top); }
  }

  lemma NewFenced(b: Blocks, segs: seq<Segment>, top: int, s: Segment)
    requires TopOk(b, segs, top) && Fenced(b, segs, top) && Retires(b, top) && s.size > TOP_FOOT_SIZE
      && s.base !in Retired(b, top)
    ensures s.base in Moved(b, top, s) && Fenced(Moved(b, top, s), [s] + segs, s.base)
  {
    var b1, b', segs', e := Retired(b, top), Moved(b, top, s), [s] + segs, Next(b, top) + TOP_FOOT_SIZE;
    forall i | 0 <= i < |segs'| ensures TopIn(b', segs'[i], s.base) || FenceAt(b', End(segs'[i]) - 2 * SIZE_T_SIZE) {
      if i > 0 { NewEnds(b, segs, top, s, i - 1); }
    }
    hide Retired, BlockOk, Retires;
    assert segs'[1] == segs[0];
    forall f | f in b' && b'[f].kind == Fence
      ensures Next(b', f) in b' || exists i | 0 <= i < |segs'| :: f == End(segs'[i]) - 2 * SIZE_T_SIZE
    {
      if f in b && f != top {
        OldFence(b, segs, top, f);
        if Next(b, f) !in b1 {
          var i: nat :| i < |segs| && f == End(segs[i]) - 2 * SIZE_T_SIZE;
          assert segs'[i + 1] == segs[i];
        }
      } else {
        NewFence(b, top, f);
      }
    }
  }

  lemma OldFence(b: Blocks, segs: seq<Segment>, top: int, f: int)
    requires TopOk(b, segs, top) && Fenced(b, segs, top) && Retires(b, top) && f in b && f != top
    ensures f in Retired(b, top) && Retired(b, top)[f] == b[f]
    ensures b[f].kind == Fence ==>
      Next(b, f) in Retired(b, top) || exists i | 0 <= i < |segs| :: f == End(segs[i]) - 2 * SIZE_T_SIZE
  {
    hide Retired, BlockOk, Retires;
    RetiredAt(b, top, f) by { RetiresAt(b, top); }
    RetiredAt(b, top, Next(b, f)) by { RetiresAt(b, top); }
  }
}
