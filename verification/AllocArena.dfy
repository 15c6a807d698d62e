/** The allocator: handing out, taking back and resizing chunks, and getting memory from the system. */
module AllocArena {
  import opened Numbers
  import opened AllocSizes
  import opened AllocRings
  import opened AllocTrees
  import opened AllocTries
  import opened AllocHeap
  import opened AllocSegments
  import opened AllocGrowth
  import opened AllocMapping
  import opened AllocTags
  import opened AllocFreeing
  import opened AllocGrants
  import opened AllocIndex
  import opened AllocReleasing
  import opened AllocPayloads
  import opened AllocDirect
  import opened AllocBins

  ghost predicate DvOk(b: Blocks, dv: int, dvsize: nat)
  {
    if dvsize == 0 then dv == 0 else dv in b && b[dv] == Block(dvsize, Free, 0)
  }

  function DvSet(dv: int, dvsize: nat): set<int> { if dvsize == 0 then {} else {dv} }

  /** At least `nb`, and less than a minimal chunk more; a chunk that the system maps may have more to spare. */
  predicate Suits(z: nat, nb: nat, mapped: bool)
  {
    nb <= z < nb + if mapped then DEFAULT_GRANULARITY / 2 else MIN_CHUNK_SIZE
  }

  /** One more chunk is in use: `c`, of the size asked for. */
  ghost predicate Gained(l: map<int, nat>, l': map<int, nat>, c: int, nb: nat, mapped: bool)
  {
    c > 0 && c !in l && c in l' && l' == l[c := l'[c]] && Suits(l'[c], nb, mapped)
  }

  /** The chunk stayed where it is, and has the size asked for. */
  ghost predicate Resized(l: map<int, nat>, l': map<int, nat>, c: int, nb: nat, mapped: bool)
  {
    c in l && c in l' && l' == l[c := l'[c]] && Suits(l'[c], nb, mapped)
  }

  /** The chunk was replaced with another one of the size asked for. */
  ghost predicate Relocated(l: map<int, nat>, l': map<int, nat>, c: int, c': int, nb: nat, mapped: bool)
  {
    c in l && c' !in l && c' in l' && l' == (l - {c})[c' := l'[c']] && Suits(l'[c'], nb, mapped)
  }

  /** What a call of realloc on `mem` that returns `r` does to the chunks in use: nothing, or the chunk is
      resized where it is, or replaced with one elsewhere. */
  ghost predicate Reallocated(l: map<int, nat>, l': map<int, nat>, mem: int, r: int, nsize: nat, mapped: bool)
  {
    if r == 0 then l' == l
    else if r == mem then nsize < MAX_REQUEST && Resized(l, l', mem - 16, ChunkFor(nsize), mapped)
    else nsize < MAX_REQUEST && Relocated(l, l', mem - 16, r - 16, ChunkFor(nsize), mapped)
  }

  /** The bytes of the chunks in use are still there. */
  ghost predicate BytesKept(l: map<int, nat>, was: map<int, int>, now: map<int, int>)
  {
    forall c, a | c in l && c + 16 <= a < c + l[c] + 8 :: At(now, a) == At(was, a)
  }

  /** As many bytes as both chunks hold were copied. */
  ghost predicate BytesMoved(l: map<int, nat>, was: map<int, int>, now: map<int, int>, mem: int, r: int, nsize: nat)
  {
    mem - 16 in l && forall k | 0 <= k < l[mem - 16] - 8 && k < nsize :: ByteAt(now, r, k) == ByteAt(was, mem, k)
  }

  /** The pages that the system grants are not mapped yet. */
  ghost predicate GrantOk(segs: seq<Segment>, direct: map<int, nat>, base: int, size: nat, nb: nat)
  {
    base != 0 && size > nb ==> Unmapped(segs, Segment(base, size)) && Away(direct, Segment(base, size))
  }

  ghost predicate SysOk(segs: seq<Segment>, direct: map<int, nat>, sys: System, nb: nat)
  {
    GrantOk(segs, direct, sys.pages, SysSize(nb), nb) && GrantOk(segs, direct, sys.region, MapSize(nb), nb)
  }

  /** A region that is resized in place does not become empty, and does not run into anything else. */
  ghost predicate ResizeOk(segs: seq<Segment>, direct: map<int, nat>, sys: System, p: int, nb: nat)
  {
    var s := Segment(p, MapSize(nb));
    p in direct && sys.resizes ==> s.size > 0 && Unmapped(segs, s) && Away(direct - {p}, s)
  }

  /** The system maps nothing for a chunk of its own, or is not asked because the size wrapped around. */
  predicate NoRegion(sys: System, nb: nat) { nb < DEFAULT_MMAP_THRESHOLD || sys.region == 0 || MapSize(nb) <= nb }

  /** The system grants nothing at all. */
  predicate NoGrant(sys: System, nb: nat) { NoRegion(sys, nb) && (sys.pages == 0 || SysSize(nb) <= nb) }

  const STATE_SIZE := 872  // sizeof(struct malloc_state), padded
  const STATE_LINK := 856  // where the record of the first segment is in it

  function First(base: int): Blocks
  {
    map[base := Block(STATE_SIZE, Own, 0),
      base + STATE_SIZE := Block(DEFAULT_GRANULARITY - STATE_SIZE - TOP_FOOT_SIZE, Top, 0)]
  }

  lemma FirstHeap(base: int)
    requires SegOk(Segment(base, DEFAULT_GRANULARITY))
    ensures HeapOk(First(base), [Segment(base, DEFAULT_GRANULARITY)], base + STATE_SIZE)
  {
    hide SegOk, Tiled, TopOk, Fenced, AllInside;
    var s := Segment(base, DEFAULT_GRANULARITY);
    assert Unmapped([], s);
    UnmappedSize([], s);
    FirstTiled(base);
    FirstInside(base);
    FirstTop(base);
    assert SegsApart([s]);
  }

  lemma FirstInside(base: int)
    ensures AllInside(First(base), [Segment(base, DEFAULT_GRANULARITY)])
  {
    hide Inside;
    var b, segs, top := First(base), [Segment(base, DEFAULT_GRANULARITY)], base + STATE_SIZE;
    InsideOf(segs, 0, base, STATE_SIZE);
    InsideOf(segs, 0, top, Extent(b[top]));
  }

  lemma FirstTop(base: int)
    ensures var top, segs := base + STATE_SIZE, [Segment(base, DEFAULT_GRANULARITY)];
      TopOk(First(base), segs, top) && Fenced(First(base), segs, top)
  {
    assert TopIn(First(base), [Segment(base, DEFAULT_GRANULARITY)][0], base + STATE_SIZE);
  }

  lemma FirstSpare(base: int)
    ensures Spare(First(base), {}) == map[] && Lives(First(base)) == map[]
    ensures var top := base + STATE_SIZE;
      base in First(base) && top in First(base)
        && First(base)[top].size == DEFAULT_GRANULARITY - STATE_SIZE - TOP_FOOT_SIZE
  {
  }

  lemma NoSpare()
    ensures Spare(map[], {}) == map[]
  {
  }

  lemma FirstTags(base: int, head: Words, foot: Words)
    ensures var top, topsize := base + STATE_SIZE, DEFAULT_GRANULARITY - STATE_SIZE - TOP_FOOT_SIZE;
      Tagged(First(base), head[base := Head(STATE_SIZE, true, true)][top := Head(topsize, false, true)], foot)
        && Tagged(map[], head, foot)
  {
  }

  lemma FirstTiled(base: int)
    requires base > 0 && base % 8 == 0
    ensures Tiled(First(base))
  {
    FirstBlocks(base, base);
    FirstBlocks(base, base + STATE_SIZE);
    hide BlockOk;
  }

  lemma FirstBlocks(base: int, a: int)
    requires base > 0 && base % 8 == 0 && a in First(base)
    ensures BlockOk(First(base), a)
  {
    var k := base / 8;
    DivUnique(base + STATE_SIZE, 8, k + 109, 0);
  }

  /** Only the chunk itself and the flag of its successor change. */
  lemma DvElsewhere(b: Blocks, dv: int, dvsize: nat, p: int)
    requires DvOk(b, dv, dvsize) && p in b && b[p].kind == Free && p != dv && Next(b, p) in b
      && Used(b[Next(b, p)].kind)
    ensures DvOk(Occupy(b, p), dv, dvsize) && p !in DvSet(dv, dvsize)
    ensures forall nb: nat | nb <= b[p].size && p + nb !in b ::
      DvOk(Split(b, p, nb), dv, dvsize) && p + nb !in DvSet(dv, dvsize)
  {
  }

  /** `p` is a free chunk that fits, and no free chunk that fits is smaller. */
  ghost predicate BestFit(b: Blocks, p: int, nb: nat)
  {
    && p in b && b[p].kind == Free && nb <= b[p].size
    && forall x | x in b && b[x].kind == Free && nb <= b[x].size :: b[p].size <= b[x].size
  }

  ghost predicate NoneFits(b: Blocks, nb: nat) { forall x | x in b && b[x].kind == Free :: b[x].size < nb }

  lemma DvBounds(b: Blocks, segs: seq<Segment>, top: int, dv: int, dvsize: nat)
    requires HeapOk(b, segs, top) && DvOk(b, dv, dvsize)
    ensures dvsize < TERA
  {
    hide HeapOk;
    if dvsize != 0 { Bounds(b, segs, top, dv); }
  }

  /** The comparison with the designated victim, which wraps around when that is too small. */
  lemma SearchResult(b: Blocks, segs: seq<Segment>, top: int, dv: int, dvsize: nat, nb: nat, v: int, rsize: nat)
    requires HeapOk(b, segs, top) && DvOk(b, dv, dvsize) && 256 <= nb < WORD
    requires var free := Spare(b, DvSet(dv, dvsize));
      && (v == 0 ==> forall x | x in free && free[x] >= 256 :: free[x] < nb)
      && (v != 0 ==>
        v in free && free[v] >= 256 && rsize == free[v] - nb
        && forall x | x in free && free[x] >= 256 && free[x] >= nb :: free[v] <= free[x])
    ensures v == 0 || rsize >= Sub(dvsize, nb) ==>
      (nb <= dvsize ==> BestFit(b, dv, nb)) && (dvsize < nb ==> NoneFits(b, nb))
    ensures v != 0 && rsize < Sub(dvsize, nb) ==> BestFit(b, v, nb)
  {
    hide HeapOk;
    DvBounds(b, segs, top, dv, dvsize);
    var free := Spare(b, DvSet(dv, dvsize));
    if v != 0 { Bounds(b, segs, top, v); }
    Wrapped(dvsize, nb);
    assert forall x | x in b && b[x].kind == Free && x != dv :: x in free && free[x] == b[x].size;
  }

  lemma Wrapped(a: nat, nb: nat)
    requires a < TERA && 0 < nb < WORD
    ensures Sub(a, nb) == if a >= nb then a - nb else WORD + a - nb
  {
    if a >= nb { DivUnique(a - nb, WORD, 0, a - nb); } else { DivUnique(a - nb, WORD, -1, a - nb + WORD); }
  }

  lemma LeastLarge(b: Blocks, dv: int, dvsize: nat, p: int)
    requires DvOk(b, dv, dvsize) && dvsize < 256
    requires var free := Spare(b, DvSet(dv, dvsize));
      p in free && forall x | x in free && free[x] >= 256 :: free[p] <= free[x]
    ensures forall x | x in b && b[x].kind == Free && b[x].size >= 256 :: b[p].size <= b[x].size
  {
    var free := Spare(b, DvSet(dv, dvsize));
    assert forall x | x in b && b[x].kind == Free && b[x].size >= 256 :: x in free && free[x] == b[x].size;
  }

  lemma TopFresh(b: Blocks, segs: seq<Segment>, top: int, nb: nat)
    requires HeapOk(b, segs, top) && Gives(b, top, nb)
    ensures top + nb !in b && b[top].gap == 0 && top > 0
  {
    hide BlockOk, SegsOk;
    if top + nb in b { TopAfter(b, segs, top, top + nb); }
    EndsDiffer(b, top, top);
    BlockFields(b, top);
  }

  lemma SpareGive(b: Blocks, top: int, nb: nat, off: set<int>)
    requires Gives(b, top, nb) && top + nb !in b
    ensures Spare(TopGive(b, top, nb), off) == Spare(b, off)
    ensures forall dv, dvsize: nat | DvOk(b, dv, dvsize) :: DvOk(TopGive(b, top, nb), dv, dvsize)
  {
  }

  /** The words a chunk in use holds about itself and its neighbours. */
  ghost predicate Reading(b: Blocks, head: Words, foot: Words, top: int, p: int)
    requires p in b
  {
    var h, n := At(head, p), Next(b, p);
    && ChunkSize(h) == b[p].size && (Pinuse(h) <==> b[p].gap == 0) && Cinuse(h)
    && (b[p].gap > 0 ==> At(foot, p) == b[p].gap)
    && n in b && n > p > 0 && b[n].gap == 0 && (Cinuse(At(head, n)) <==> Used(b[n].kind)) && Pinuse(At(head, n))
    && ChunkSize(At(head, n)) == b[n].size && b[n].size > 0 && b[n].size % 8 == 0
    && (b[n].kind == Top <==> n == top) && b[p].gap % 8 == 0
    && (b[n].kind == Free ==> Next(b, n) in b && Used(b[Next(b, n)].kind))
    && (b[p].gap > 0 ==> Start(b, p) in b && b[Start(b, p)] == Block(b[p].gap, Free, 0) && Start(b, p) > 0)
  }

  /** The designated victim, when it is not touched. */
  lemma DvFreed(b: Blocks, p: int, dv: int, dvsize: nat)
    requires DvOk(b, dv, dvsize) && p in b && b[p].kind == Live && Next(b, p) in b && dv != Start(b, p)
      && dv != Next(b, p)
    ensures Used(b[Next(b, p)].kind) ==> DvOk(FreedAlone(b, p), dv, dvsize)
    ensures b[Next(b, p)].kind == Free && Next(b, Next(b, p)) in b && Used(b[Next(b, Next(b, p))].kind) ==>
      DvOk(FreedJoined(b, p), dv, dvsize)
    ensures b[Next(b, p)].kind == Top ==> DvOk(FreedTop(b, p), dv, dvsize)
  {
  }

  lemma OnlyTop(b: Blocks, segs: seq<Segment>, top: int, a: int)
    requires HeapOk(b, segs, top) && a in b
    ensures b[a].kind == Top <==> a == top
  {
    hide Tiled, AllInside, SegsApart, Fenced;
  }

  lemma LiveAt(b: Blocks, a: int)
    requires a in Lives(b)
    ensures a in b && b[a].kind == Live && b[a].size == Lives(b)[a]
  {
  }

  lemma LiveThere(b: Blocks, a: int)
    requires a in b && b[a].kind == Live
    ensures a in Lives(b) && Lives(b)[a] == b[a].size
  {
  }

  lemma DvAppended(b: Blocks, top: int, extra: nat, dv: int, dvsize: nat)
    requires DvOk(b, dv, dvsize) && top in b && b[top].kind == Top
    ensures DvOk(Appended(b, top, extra), dv, dvsize)
  {
  }

  lemma DvTrimmed(b: Blocks, top: int, extra: nat, dv: int, dvsize: nat)
    requires DvOk(b, dv, dvsize) && top in b && b[top].kind == Top && extra <= b[top].size
    ensures DvOk(Trimmed(b, top, extra), dv, dvsize)
  {
  }

  lemma DvPrepended(b: Blocks, base: int, nb: nat, extra: nat, dv: int, dvsize: nat)
    requires DvOk(b, dv, dvsize) && base !in b && base + nb !in b && nb <= extra
    ensures DvOk(Prepended(b, base, nb, extra), dv, dvsize)
  {
  }

  lemma DvMoved(b: Blocks, top: int, s: Segment, dv: int, dvsize: nat)
    requires DvOk(b, dv, dvsize) && Retires(b, top) && top > 0 && s.size > TOP_FOOT_SIZE && s.base !in Retired(b, top)
    ensures DvOk(Moved(b, top, s), dv, dvsize) && dv != top
  {
    hide Retired, Retires, BlockOk;
    RetiresAt(b, top);
    RetiredAt(b, top, dv);
  }

  lemma MovedTop(b: Blocks, top: int, s: Segment)
    requires top in b && s.size > TOP_FOOT_SIZE
    ensures s.base in Moved(b, top, s) && Moved(b, top, s)[s.base].size == s.size - TOP_FOOT_SIZE
  {
    hide Retired;
    NewTopThere(Retired(b, top), s);
  }

  lemma FenceWordsAre(b: Blocks, head: Words, head': Words, top: int, s: Segment)
    requires top in b && s.size > TOP_FOOT_SIZE
    requires var csp, e := RecordAt(b, top), Next(b, top) + TOP_FOOT_SIZE;
      forall a :: At(head', a) == if FenceAddr(csp + SEGMENT_RECORD_SIZE, e - SIZE_T_SIZE, a) then FENCEPOST_HEAD
        else At(head[s.base := Head(s.size - TOP_FOOT_SIZE, false, true)][End(s) - TOP_FOOT_SIZE :=
          TOP_FOOT_SIZE][csp := Head(SEGMENT_RECORD_SIZE, true, true)], a)
    ensures FenceWords(b, head, head', top, s)
  {
  }

  function ByteAt(m: map<int, int>, base: int, k: int): int { At(m, base + k) }

  lemma DvCarved(b: Blocks, p: int, nb: nat, dv: int, dvsize: nat)
    requires DvOk(b, dv, dvsize) && Carves(b, p, nb) && p + nb !in b
    ensures DvOk(Carve(b, p, nb), dv, dvsize)
  {
  }

  lemma DvMovedTop(b: Blocks, p: int, nb: nat, dv: int, dvsize: nat)
    requires DvOk(b, dv, dvsize) && Moves(b, p, nb) && p + nb !in b
    ensures DvOk(TopMove(b, p, nb), dv, dvsize)
  {
  }

  lemma LivesCut(live: map<int, nat>, p: int, nb: nat, rsize: nat)
    requires p + nb !in live && nb > 0
    ensures live[p := nb][p + nb := rsize] - {p + nb} == live[p := nb]
  {
  }

  lemma LivesBack(live: map<int, nat>, p: int, s: nat)
    requires p !in live
    ensures live[p := s] - {p} == live
  {
  }

  // ----- chunks of segments and chunks in regions of their own

  ghost predicate Has(l: map<int, nat>, p: int, z: int) { p in l && l[p] == z }

  lemma NothingInUse(l: map<int, nat>)
    requires l == map[]
    ensures l + Directs(map[]) == map[]
  {
  }

  lemma KeysOfDirects(direct: map<int, nat>, p: int)
    ensures p in Directs(direct) ==> p in direct
  {
  }

  lemma UseFewer(l: map<int, nat>, d: map<int, nat>, p: int)
    requires p !in d
    ensures (l + d) - {p} == (l - {p}) + d
  {
  }

  lemma UseGone(l: map<int, nat>, direct: map<int, nat>, p: int)
    requires p !in l
    ensures l + Directs(direct - {p}) == (l + Directs(direct)) - {p}
  {
  }

  lemma UseMore(l: map<int, nat>, l': map<int, nat>, direct: map<int, nat>, c: int, nb: nat)
    requires Gained(l, l', c, nb, false) && c !in direct
    ensures Gained(l + Directs(direct), l' + Directs(direct), c, nb, false)
  {
    var d := Directs(direct);
    assert c !in d;
    assert l' + d == (l + d)[c := l'[c]];
  }

  lemma UseMapped(l: map<int, nat>, direct: map<int, nat>, direct': map<int, nat>, c: int, nb: nat)
    requires NewRegion(direct, direct', c, nb) && c !in l
    ensures c in direct' && Gained(l + Directs(direct), l + Directs(direct'), c, nb, true)
  {
    var d, d' := Directs(direct), Directs(direct');
    assert d' == d[c := MapSize(nb) - DIRECT_FOOT_PAD - 8] by { hide MapSize; }
    hide MapSize;
    assert l + d' == (l + d)[c := d'[c]];
  }

  lemma UseResized(l: map<int, nat>, l': map<int, nat>, direct: map<int, nat>, c: int, nb: nat)
    requires c in l && c !in direct && c in l' && l' == l[c := l'[c]] && Suits(l'[c], nb, false)
    ensures Resized(l + Directs(direct), l' + Directs(direct), c, nb, false)
  {
    var d := Directs(direct);
    assert c !in d;
    assert l' + d == (l + d)[c := l'[c]];
  }

  /** What a region offers before and after it was resized, whichever is less. */
  function SmallerRegion(z: nat, nb: nat, resizes: bool): nat
    requires z >= 8
  {
    if !KeepsRegionSize(z, nb) && resizes && 40 <= MapSize(nb) < z + DIRECT_FOOT_PAD then MapSize(nb) - 40 else z - 8
  }

  lemma UseRemapped(l: map<int, nat>, direct: map<int, nat>, direct': map<int, nat>, c: int, nb: nat, resizes: bool)
    requires c !in l && c in direct && direct[c] >= 8 && (KeepsRegionSize(direct[c], nb) || resizes)
    requires KeepsRegionSize(direct[c], nb) || nb + 55 <= MapSize(nb) < nb + 55 + PAGE
    requires direct' == if KeepsRegionSize(direct[c], nb) then direct else direct[c := MapSize(nb) - DIRECT_FOOT_PAD]
    ensures c in direct' && Resized(l + Directs(direct), l + Directs(direct'), c, nb, true)
  {
    hide MapSize;
    var d, d' := Directs(direct), Directs(direct');
    assert c in d && c in d';
    assert d' == d[c := d'[c]];
    assert l + d' == (l + d)[c := d'[c]];
  }

  lemma LeastOfBoth(l: map<int, nat>, direct: map<int, nat>, direct': map<int, nat>, p: int, least: nat)
    requires p !in l && p in direct && p in direct' && direct' == direct[p := direct'[p]]
    requires direct[p] >= 8 && direct'[p] >= 8 && (least + 8 == direct[p] || least + 8 == direct'[p])
    ensures Keeps(Both(l + Directs(direct), l + Directs(direct')), l + Directs(direct)[p := least])
  {
    var d, d' := Directs(direct), Directs(direct');
    assert p in d && p in d' && d' == d[p := d'[p]];
  }

  lemma LivesSwap(live: map<int, nat>, p: int, q: int, z: nat)
    requires p in live && q !in live
    ensures live[q := z] - {p} == (live - {p})[q := z]
  {
  }

  lemma NoFence(lo: int)
    ensures forall a :: !FenceAddr(lo, lo, a)
  {
  }

  lemma LastFence(p: int, end: int)
    requires p % 8 == 0 && end % 8 == 0 && p <= end - 16 && p + 16 >= end
    ensures p == end - 16
  {
  }

  lemma SpareSizes(b: Blocks, off: set<int>)
    ensures forall z | z in Spare(b, off) :: z in b && Spare(b, off)[z] == b[z].size
  {
  }

  lemma NotSpare(b: Blocks, off: set<int>, x: int)
    requires x !in b
    ensures x !in Spare(b, off)
  {
  }

  lemma LivesPlus(live: map<int, nat>, p: int, nb: nat, q: int, qsize: nat)
    requires p !in live && q !in live && p != q
    ensures live[p := nb][q := qsize] - {q} == live[p := nb]
  {
  }

  /** The chunk behind a chunk in use. */
  ghost predicate Follows(b: Blocks, head: Words, top: int, q: int)
    requires q in b
  {
    var n := Next(b, q);
    && n in b && n > q > 0 && (Cinuse(At(head, n)) <==> Used(b[n].kind)) && ChunkSize(At(head, n)) == b[n].size
    && b[n].size > 0
    && (b[n].kind == Top <==> n == top)
    && (b[n].kind == Free ==> Next(b, n) in b && Used(b[Next(b, n)].kind) && b[n].gap == 0)
  }

  /** The size of the chunk for a request; an impossible one when the request is too large. */
  function ChunkFor(nsize: nat): nat { if nsize >= MAX_REQUEST then MAX_SIZE_T else RequestToSize(nsize) }

  lemma ChunkForOk(nsize: nat)
    requires nsize <= MAX_SIZE_T
    ensures var nb := ChunkFor(nsize);
      && MIN_CHUNK_SIZE <= nb <= MAX_SIZE_T && (nsize < MAX_REQUEST ==> nb % 8 == 0 && nb >= nsize + 8)
      && (nsize <= MAX_SMALL_REQUEST ==> nb <= 248) && (nsize > MAX_SMALL_REQUEST ==> nb >= 256)
  {
    if nsize < MAX_REQUEST { RequestFits(nsize); }
  }

  lemma WholePages(n: nat)
    requires n % DEFAULT_GRANULARITY == 0
    ensures n % 8 == 0
  {
    var k := n / DEFAULT_GRANULARITY;
    assert n == 8 * (0x4000 * k);
    DivUnique(n, 8, 0x4000 * k, 0);
  }

  /** What the system can map is far smaller than the size that stands for an impossible request. */
  lemma WordTooLarge(segs: seq<Segment>, s: Segment, nb: nat)
    requires Unmapped(segs, s) && s.size > nb
    ensures nb < MAX_SIZE_T && s.base > 0
  {
    hide Clear;
  }

  class Arena {
    const bins: Bins
    var dv: int
    var dvsize: nat
    var top: int
    var topsize: nat
    var segs: seq<Segment>
    var links: seq<int>  // where the records of the segments are
    var trimCheck: nat
    var releaseChecks: nat
    var bytes: map<int, int>  // what the chunks in use hold
    ghost var blocks: Blocks
    ghost var kept: map<int, nat>  // what a call must leave alone
    ghost var direct: map<int, nat>  // the chunks that the system maps, each in a region of its own
    ghost var mapped: map<int, nat>  // those of them to leave alone
    ghost var mark: Mem  // the words when the call began

    /** `lj_alloc_create`: the first pages hold the allocator's own state, the rest is the top chunk. */
    constructor (base: int)
      requires SegOk(Segment(base, DEFAULT_GRANULARITY))
      ensures Valid() && InUse() == map[] && segs == [Segment(base, DEFAULT_GRANULARITY)] && fresh(bins)
    {
      bins := new Bins();
      dv, dvsize, bytes, direct := 0, 0, map[], map[];
      segs, links := [Segment(base, DEFAULT_GRANULARITY)], [base + STATE_LINK];
      trimCheck, releaseChecks := DEFAULT_TRIM_THRESHOLD, MAX_RELEASE_CHECK_RATE;
      new;
      hide Valid, InUse, SegOk, BinsOk;
      Format(base);
    }

    method Format(base: int)
      requires SegOk(Segment(base, DEFAULT_GRANULARITY)) && segs == [Segment(base, DEFAULT_GRANULARITY)]
        && bins.Holds(map[]) && dvsize == dv == 0 && |links| == 1 && direct == map[]
      modifies this`top, this`topsize, this`blocks, this`kept, this`mapped, this`mark, bins`mem
      ensures Valid() && InUse() == map[]
    {
      hide HeapOk, BinsOk, SegOk, Tagged, First, Spare, Lives, Untouched, Keeps, TagWrites, OnlyLinks, DirectOk;
      top, topsize := base + STATE_SIZE, DEFAULT_GRANULARITY - STATE_SIZE - TOP_FOOT_SIZE;
      FirstHeap(base);
      ghost var b := First(base);
      FirstSpare(base);
      FirstTags(base, bins.mem.head, bins.mem.foot);
      var head := bins.mem.head[base := Head(STATE_SIZE, true, true)];
      head := head[top := Head(topsize, false, true)];
      WatchNothing();
      NoSpare();
      NoneKept(Lives(b));
      HeadsWritten(b, top, bins.mem, head, base, top);
      CommitAll(b, segs, top, {}, {}, head, bins.mem.foot);
      NothingInUse(Lives(b));
    }

    /** All invariants, except that the free chunks in `off` are in no bin. */
    ghost predicate Consistent(off: set<int>)
      reads this`blocks, this`segs, this`links, this`top, this`topsize, bins
    {
      && HeapOk(blocks, segs, top) && LinksOk(segs, links) && top in blocks && topsize == blocks[top].size
      && Tagged(blocks, bins.mem.head, bins.mem.foot) && bins.Holds(Spare(blocks, off))
    }

    /** The same, except for the words of chunk `q`, which is in no bin. */
    ghost predicate Nearly(off: set<int>, q: int)
      reads this`blocks, this`segs, this`links, this`top, this`topsize, bins
    {
      && HeapOk(blocks, segs, top) && LinksOk(segs, links) && top in blocks && topsize == blocks[top].size
      && TaggedBut(blocks, bins.mem.head, bins.mem.foot, q) && q !in Spare(blocks, off)
      && bins.Holds(Spare(blocks, off))
    }

    ghost predicate Valid()
      reads this`blocks, this`segs, this`links, this`top, this`topsize, this`dv, this`dvsize, this`direct, bins
    {
      Consistent(DvSet(dv, dvsize)) && DvOk(blocks, dv, dvsize)
        && DirectOk(direct, segs, bins.mem.head, bins.mem.foot)
    }

    /** The chunks of segments that are handed out. */
    ghost function Lent(): map<int, nat>
      reads this`blocks
    {
      Lives(blocks)
    }

    /** All chunks handed out. */
    ghost function InUse(): map<int, nat>
      reads this`blocks, this`direct
    {
      Lent() + Directs(direct)
    }

    /** Since the call began no byte that the chunks of `kept` and `mapped` offer was written, and they still are in
        use; and the chunks that the system maps are as they should be. */
    ghost predicate Sparing()
      reads this`kept, this`mapped, this`mark, this`blocks, this`direct, this`segs, bins
    {
      && Keeps(kept, Lives(blocks)) && Untouched(kept, mark, bins.mem)
      && Keeps(mapped, Directs(direct)) && Untouched(mapped, mark, bins.mem)
      && DirectOk(direct, segs, bins.mem.head, bins.mem.foot)
    }

    /** The call begins; the chunks of `k` and `m` are to be left alone. */
    ghost method Watch(k: map<int, nat>, m: map<int, nat>)
      requires Keeps(k, Lives(blocks)) && Keeps(m, Directs(direct))
        && DirectOk(direct, segs, bins.mem.head, bins.mem.foot)
      modifies this`kept, this`mapped, this`mark
      ensures Sparing() && kept == k && mapped == m && mark == bins.mem
    {
      hide Keeps, DirectOk;
      kept, mapped, mark := k, m, bins.mem;
    }

    /** Before there are chunks there is nothing to leave alone. */
    ghost method WatchNothing()
      requires direct == map[]
      modifies this`blocks, this`kept, this`mapped, this`mark
      ensures Sparing() && blocks == map[] && kept == map[]
    {
      hide Keeps, DirectOk;
      blocks := map[];
      NoneKept(Lives(blocks));
      NoneKept(Directs(direct));
      NoDirects(segs, bins.mem.head, bins.mem.foot);
      Watch(map[], map[]);
    }

    lemma LinksSpare(off: set<int>, m: Mem)
      requires HeapOk(blocks, segs, top) && Keeps(kept, Lives(blocks)) && Untouched(kept, mark, m)
      requires Keeps(mapped, Directs(direct)) && Untouched(mapped, mark, m) && DirectOk(direct, segs, m.head, m.foot)
      requires OnlyLinks(Spare(blocks, off), m, bins.mem)
      ensures Sparing()
    {
      hide Untouched, OnlyLinks, Keeps, DirectOk, Tiled, SegsOk;
      LinksUntouched(blocks, off, kept, m, bins.mem);
      UntouchedBoth(kept, mark, m, bins.mem);
      TopThere(blocks, segs, top);
      DirectLinks(blocks, segs, top, direct, mapped, off, m, bins.mem);
      UntouchedBoth(mapped, mark, m, bins.mem);
    }

    // ----- giving out a free chunk that is in no bin

    /** `set_inuse_and_pinuse`: the whole chunk. */
    method TakeWhole(p: int, s: nat, ghost off: set<int>)
      requires Consistent(off) && p in off && p in blocks && blocks[p] == Block(s, Free, 0)
      requires Sparing()
      modifies this`blocks, bins`mem
      ensures Consistent(off - {p}) && Next(old(blocks), p) in old(blocks) && blocks == Occupy(old(blocks), p)
      ensures Sparing()
    {
      hide HeapOk, BinsOk, Tagged, Untouched, Keeps, TagWrites, OnlyLinks, LinksOk, DirectOk;
      AfterFreeHeap(blocks, segs, top, p);
      TagOccupy(blocks, bins.mem.head, bins.mem.foot, p);
      OccupyHeap(blocks, segs, top, p);
      ghost var b' := Occupy(blocks, p);
      assert top in b' && b'[top].size == blocks[top].size;
      assert Spare(b', off - {p}) == Spare(blocks, off);
      var head := bins.mem.head[p := Head(s, true, true)];
      head := head[p + s := SetPinuse(At(head, p + s))];
      LivesOccupy(blocks, p);
      KeepsMore(kept, Lives(blocks), p, s);
      HeadsWritten(b', top, bins.mem, head, p, p + s);
      CommitAll(b', segs, top, off, off - {p}, head, bins.mem.foot);
    }

    /** The front of the chunk; the rest stays free, and in no bin. */
    method TakePart(p: int, s: nat, nb: nat, ghost off: set<int>) returns (r: int)
      requires Consistent(off) && p in off && p in blocks && blocks[p] == Block(s, Free, 0)
      requires nb % 8 == 0 && MIN_CHUNK_SIZE <= nb && nb + MIN_CHUNK_SIZE <= s
      requires Sparing()
      modifies this`blocks, bins`mem
      ensures r == p + nb && Next(old(blocks), p) in old(blocks) && r !in old(blocks)
        && blocks == Split(old(blocks), p, nb)
      ensures r in blocks && blocks[r] == Block(s - nb, Free, 0) && Consistent(off - {p} + {r})
      ensures Sparing()
    {
      hide HeapOk, BinsOk, Tagged, Untouched, Keeps, TagWrites, OnlyLinks, LinksOk, DirectOk;
      AfterFreeHeap(blocks, segs, top, p);
      TopThere(blocks, segs, top);
      SplitHeap(blocks, segs, top, p, nb);
      TagSplit(blocks, bins.mem.head, bins.mem.foot, p, nb);
      ghost var b' := Split(blocks, p, nb);
      r := p + nb;
      assert r != Next(blocks, p);
      assert top in b' && b'[top].size == blocks[top].size;
      assert Spare(b', off - {p} + {r}) == Spare(blocks, off);
      var head := bins.mem.head[p := Head(nb, true, true)];
      head := head[r := Head(s - nb, false, true)];
      LivesSplit(blocks, p, nb);
      KeepsMore(kept, Lives(blocks), p, nb);
      HeadsWritten(b', top, bins.mem, head, p, r);
      FootWritten(b', top, bins.mem, head, p + s, s - nb);
      var foot := bins.mem.foot[p + s := s - nb];
      CommitAll(b', segs, top, off, off - {p} + {r}, head, foot);
    }

    /** `insert_chunk` for a free chunk that is in no bin. */
    method InsertFree(x: int, s: nat, ghost off: set<int>)
      requires Consistent(off) && x in off && x in blocks && blocks[x] == Block(s, Free, 0)
      requires Sparing()
      modifies bins
      ensures Consistent(off - {x})
      ensures Sparing()
    {
      hide HeapOk, BinsOk, Tagged, Untouched, Keeps, TagWrites, OnlyLinks, LinksOk, DirectOk;
      Bounds(blocks, segs, top, x);
      TaggedSize(blocks, bins.mem, x);
      ghost var m := bins.mem;
      bins.Insert(x, s, Spare(blocks, off));
      assert Spare(blocks, off - {x}) == Spare(blocks, off)[x := s];
      LinksSpare(off - {x}, m);
    }

    /** `insert_small_chunk`, likewise. */
    method InsertSmallFree(x: int, s: nat, ghost off: set<int>)
      requires Consistent(off) && x in off && x in blocks && blocks[x] == Block(s, Free, 0) && s < 256
      requires Sparing()
      modifies bins
      ensures Consistent(off - {x})
      ensures Sparing()
    {
      hide HeapOk, BinsOk, Tagged, Untouched, Keeps, TagWrites, OnlyLinks, LinksOk, DirectOk;
      Bounds(blocks, segs, top, x);
      TaggedSize(blocks, bins.mem, x);
      ghost var m := bins.mem;
      bins.InsertSmall(x, s, Spare(blocks, off));
      assert Spare(blocks, off - {x}) == Spare(blocks, off)[x := s];
      LinksSpare(off - {x}, m);
    }

    /** `unlink_chunk` */
    method UnlinkFree(x: int, s: nat, ghost off: set<int>)
      requires Consistent(off) && x !in off && x in blocks && blocks[x] == Block(s, Free, 0)
      requires Sparing()
      modifies bins
      ensures Consistent(off + {x})
      ensures Sparing()
    {
      hide HeapOk, BinsOk, Tagged, Untouched, Keeps, TagWrites, OnlyLinks, LinksOk, DirectOk;
      ghost var m := bins.mem;
      bins.Unlink(x, s, Spare(blocks, off));
      assert Spare(blocks, off + {x}) == Spare(blocks, off) - {x};
      LinksSpare(off, m);
    }

    /** `replace_dv`, when the designated victim is small. */
    method ReplaceDv(r: int, rsize: nat)
      requires Consistent(DvSet(dv, dvsize) + {r}) && DvOk(blocks, dv, dvsize) && dvsize < 256
      requires r in blocks && blocks[r] == Block(rsize, Free, 0) && r !in DvSet(dv, dvsize) && rsize > 0
      requires Sparing()
      modifies this`dv, this`dvsize, bins
      ensures Valid() && dv == r && dvsize == rsize
      ensures Sparing()
    {
      hide HeapOk, BinsOk, Tagged, Untouched, Keeps, TagWrites, OnlyLinks, LinksOk, DirectOk;
      if dvsize != 0 {
        assert DvSet(dv, dvsize) + {r} == {dv, r};
        InsertSmallFree(dv, dvsize, {dv, r});
        assert {dv, r} - {dv} == {r};
      } else {
        assert DvSet(dv, dvsize) + {r} == {r};
      }
      dvsize := rsize;
      dv := r;
    }

    // ----- malloc

    /** A small request from small bin `i`. */
    method MallocSmall(i: nat, nb: nat) returns (p: int)
      requires Valid() && i in bins.smallmap && nb % 8 == 0 && MIN_CHUNK_SIZE <= nb <= 8 * i
        && (8 * i < nb + MIN_CHUNK_SIZE || dvsize < nb < 256)
      requires Sparing()
      modifies this`dv, this`dvsize, this`blocks, bins
      ensures Valid() && Gained(old(Lent()), Lent(), p, nb, false)
      ensures Sparing()
    {
      hide HeapOk, BinsOk, Tagged, Spare, Lives, Untouched, Keeps, TagWrites, OnlyLinks, LinksOk, DirectOk;
      ghost var off := DvSet(dv, dvsize);
      ghost var m := bins.mem;
      p := bins.UnlinkFirstSmall(i, Spare(blocks, off));
      LinksSpare(off, m);
      SpareAt(blocks, off, p);
      Bounds(blocks, segs, top, p);
      assert Consistent(off + {p});
      AfterFreeHeap(blocks, segs, top, p);
      var rsize := 8 * i - nb;
      if rsize < MIN_CHUNK_SIZE {
        LivesOccupy(blocks, p);
        DvElsewhere(blocks, dv, dvsize, p);
        TakeWhole(p, 8 * i, off + {p});
        assert off + {p} - {p} == off;
      } else {
        DvElsewhere(blocks, dv, dvsize, p);
        SplitHeap(blocks, segs, top, p, nb);
        LivesSplit(blocks, p, nb);
        var r := TakePart(p, 8 * i, nb, off + {p});
        assert off + {p} - {p} + {r} == off + {r};
        ReplaceDv(r, rsize);
      }
    }

    /** `tmalloc_large`: from the least large chunk that fits, unless the designated victim fits at least as well. */
    method TmallocLarge(nb: nat) returns (p: int)
      requires Valid() && 256 <= nb < WORD && nb % 8 == 0
      requires Sparing()
      modifies this`blocks, bins
      ensures Valid() && p >= 0
      ensures p == 0 ==>
        blocks == old(blocks) && (nb <= dvsize ==> BestFit(blocks, dv, nb)) && (dvsize < nb ==> NoneFits(blocks, nb))
      ensures p != 0 ==> Gained(old(Lent()), Lent(), p, nb, false) && BestFit(old(blocks), p, nb)
      ensures Sparing()
    {
      hide HeapOk, BinsOk, Tagged, Spare, Lives, Untouched, Keeps, TagWrites, OnlyLinks, LinksOk, DirectOk;
      ghost var off := DvSet(dv, dvsize);
      DvBounds(blocks, segs, top, dv, dvsize);
      var v, rsize := bins.FindLarge(nb, Spare(blocks, off));
      SearchResult(blocks, segs, top, dv, dvsize, nb, v, rsize);
      if v == 0 || rsize >= Sub(dvsize, nb) { return 0; }
      p := v;
      SpareAt(blocks, off, p);
      ghost var m := bins.mem;
      bins.UnlinkLarge(p, Spare(blocks, off));
      LinksSpare(off, m);
      assert Consistent(off + {p});
      AfterFreeHeap(blocks, segs, top, p);
      Bounds(blocks, segs, top, p);
      DvElsewhere(blocks, dv, dvsize, p);
      if rsize < MIN_CHUNK_SIZE {
        LivesOccupy(blocks, p);
        TakeWhole(p, rsize + nb, off + {p});
        assert off + {p} - {p} == off;
      } else {
        SplitHeap(blocks, segs, top, p, nb);
        LivesSplit(blocks, p, nb);
        var r := TakePart(p, rsize + nb, nb, off + {p});
        assert off + {p} - {p} + {r} == off + {r};
        InsertFree(r, rsize, off + {r});
        assert off + {r} - {r} == off;
      }
    }

    /** `tmalloc_small`: from the least large chunk. */
    method TmallocSmall(nb: nat) returns (p: int)
      requires Valid() && 32 <= nb < 256 && nb % 8 == 0 && dvsize < nb && bins.treemap != {}
      requires Sparing()
      modifies this`dv, this`dvsize, this`blocks, bins
      ensures Valid() && Gained(old(Lent()), Lent(), p, nb, false)
      ensures p in old(blocks) && old(blocks)[p].kind == Free
        && forall x | x in old(blocks) && old(blocks)[x].kind == Free && old(blocks)[x].size >= 256 ::
        old(blocks)[p].size <= old(blocks)[x].size
      ensures Sparing()
    {
      hide HeapOk, BinsOk, Tagged, Spare, Lives, Untouched, Keeps, TagWrites, OnlyLinks, LinksOk, DirectOk;
      ghost var off := DvSet(dv, dvsize);
      var rsize;
      p, rsize := bins.FindSmall(nb, Spare(blocks, off));
      SpareAt(blocks, off, p);
      LeastLarge(blocks, dv, dvsize, p);
      ghost var m := bins.mem;
      bins.UnlinkLarge(p, Spare(blocks, off));
      LinksSpare(off, m);
      assert Consistent(off + {p});
      AfterFreeHeap(blocks, segs, top, p);
      Bounds(blocks, segs, top, p);
      DvElsewhere(blocks, dv, dvsize, p);
      if rsize < MIN_CHUNK_SIZE {
        LivesOccupy(blocks, p);
        TakeWhole(p, rsize + nb, off + {p});
        assert off + {p} - {p} == off;
      } else {
        SplitHeap(blocks, segs, top, p, nb);
        LivesSplit(blocks, p, nb);
        var r := TakePart(p, rsize + nb, nb, off + {p});
        assert off + {p} - {p} + {r} == off + {r};
        ReplaceDv(r, rsize);
      }
    }

    /** From the designated victim. */
    method MallocDv(nb: nat) returns (p: int)
      requires Valid() && MIN_CHUNK_SIZE <= nb <= dvsize && nb % 8 == 0
      requires Sparing()
      modifies this`dv, this`dvsize, this`blocks, bins`mem
      ensures Valid() && p == old(dv) && Gained(old(Lent()), Lent(), p, nb, false)
      ensures Sparing()
    {
      hide HeapOk, BinsOk, Tagged, Spare, Lives, Untouched, Keeps, TagWrites, OnlyLinks, LinksOk, DirectOk;
      p := dv;
      AfterFreeHeap(blocks, segs, top, p);
      var rsize := dvsize - nb;
      if rsize >= MIN_CHUNK_SIZE {
        SplitHeap(blocks, segs, top, p, nb);
        LivesSplit(blocks, p, nb);
        var r := TakePart(p, dvsize, nb, {dv});
        assert {dv} - {dv} + {r} == {r};
        dv, dvsize := r, rsize;
      } else {
        LivesOccupy(blocks, p);
        TakeWhole(p, dvsize, {dv});
        assert {dv} - {dv} == {};
        dvsize, dv := 0, 0;
      }
    }

    /** From the low end of the top chunk. */
    method MallocTop(nb: nat) returns (p: int)
      requires Valid() && MIN_CHUNK_SIZE <= nb < topsize && nb % 8 == 0
      requires Sparing()
      modifies this`top, this`topsize, this`blocks, bins`mem
      ensures Valid() && p == old(top) && Gained(old(Lent()), Lent(), p, nb, false)
      ensures Sparing()
    {
      hide HeapOk, BinsOk, Tagged, Spare, Lives, Untouched, Keeps, TagWrites, OnlyLinks, LinksOk, DirectOk;
      ghost var off := DvSet(dv, dvsize);
      TopThere(blocks, segs, top);
      Bounds(blocks, segs, top, top);
      TopGiveHeap(blocks, segs, top, nb);
      TopFresh(blocks, segs, top, nb);
      TagGive(blocks, bins.mem.head, bins.mem.foot, top, nb);
      LivesGive(blocks, top, nb);
      SpareGive(blocks, top, nb, off);
      ghost var b' := TopGive(blocks, top, nb);
      topsize := topsize - nb;
      p := top;
      top := p + nb;
      var head := bins.mem.head[top := Head(topsize, false, true)];
      head := head[p := Head(nb, true, true)];
      KeepsMore(kept, Lives(blocks), p, nb);
      HeadsWritten(b', top, bins.mem, head, p, top);
      CommitAll(b', segs, top, off, off, head, bins.mem.foot);
    }

    // ----- free

    lemma Loosen(off: set<int>, q: int)
      requires Consistent(off) && (q in off || (q in blocks && blocks[q].kind != Free))
      ensures Nearly(off, q)
    {
      hide HeapOk, Tagged, TaggedBut, BinsOk, LinksOk, DirectOk;
      AllButNone(blocks, bins.mem.head, bins.mem.foot, q);
    }

    lemma Reads(off: set<int>, p: int)
      requires Consistent(off) && p in blocks && blocks[p].kind == Live
      ensures Reading(blocks, bins.mem.head, bins.mem.foot, top, p)
    {
      hide HeapOk, Tagged, BinsOk, LinksOk, DirectOk;
      LiveFields(blocks, segs, top, p);
      var n := Next(blocks, p);
      Bounds(blocks, segs, top, n);
      TagAt(blocks, bins.mem.head, bins.mem.foot, p);
      TagAt(blocks, bins.mem.head, bins.mem.foot, n);
      HeadFields(blocks[p].size, true, blocks[p].gap == 0);
      HeadFields(blocks[n].size, Used(blocks[n].kind), blocks[n].gap == 0);
      OnlyTop(blocks, segs, top, n);
      if blocks[p].gap > 0 { Bounds(blocks, segs, top, Start(blocks, p)); }
      if blocks[n].kind == Free { AfterFreeHeap(blocks, segs, top, n); }
    }

    /** `set_free_with_pinuse`: the successor `n` is in use. */
    method SettleAlone(ghost p: int, q: int, s: nat, n: int, ghost off: set<int>, ghost off': set<int>)
      requires Nearly(off, q) && p in blocks && blocks[p].kind == Live && Next(blocks, p) == n && n in blocks
        && Used(blocks[n].kind)
      requires q == Start(blocks, p) && s == blocks[p].gap + blocks[p].size && OffFor(blocks, p, off, off')
      requires Sparing() && p !in kept
      modifies this`blocks, bins`mem
      ensures blocks == FreedAlone(old(blocks), p) && Consistent(off') && Lent() == old(Lent()) - {p}
      ensures Sparing()
    {
      hide HeapOk, Tagged, TaggedBut, BinsOk, Spare, Lives, OffFor, Untouched, Keeps, TagWrites, OnlyLinks, LinksOk,
           DirectOk;
      LiveFields(blocks, segs, top, p);
      Bounds(blocks, segs, top, Next(blocks, p));
      FreedAloneHeap(blocks, segs, top, p);
      TagFreedAlone(blocks, bins.mem.head, bins.mem.foot, p);
      FreedSpare(blocks, p, off, off');
      OnlyTop(blocks, segs, top, p);
      TopThere(blocks, segs, top);
      var head := bins.mem.head[n := ClearPinuse(At(bins.mem.head, n))];
      head := head[q := Head(s, false, true)];
      KeepsFewer(kept, Lives(blocks), p);
      HeadsWritten(FreedAlone(blocks, p), top, bins.mem, head, n, q);
      FootWritten(FreedAlone(blocks, p), top, bins.mem, head, n, s);
      AllButNone(FreedAlone(blocks, p), head, bins.mem.foot[n := s], q);
      Commit(FreedAlone(blocks, p), segs, top, off, off', head, bins.mem.foot[n := s], q);
    }

    /** `set_size_and_pinuse_of_free_chunk`: the successor was free and has been joined. */
    method SettleJoined(ghost p: int, q: int, s: nat, ghost off: set<int>, ghost off': set<int>)
      requires Nearly(off, q) && p in blocks && blocks[p].kind == Live && Next(blocks, p) in blocks
        && blocks[Next(blocks, p)].kind == Free
      requires q == Start(blocks, p) && s == blocks[p].gap + blocks[p].size + blocks[Next(blocks, p)].size
        && OffFor(blocks, p, off, off') && Next(blocks, p) in off
      requires Sparing() && p !in kept
      modifies this`blocks, bins`mem
      ensures Next(old(blocks), Next(old(blocks), p)) in old(blocks) && blocks == FreedJoined(old(blocks), p)
        && Consistent(off') && Lent() == old(Lent()) - {p}
      ensures Sparing()
    {
      hide HeapOk, Tagged, TaggedBut, BinsOk, Spare, Lives, OffFor, Untouched, Keeps, TagWrites, OnlyLinks, LinksOk,
           DirectOk;
      LiveFields(blocks, segs, top, p);
      Bounds(blocks, segs, top, Next(blocks, p));
      ghost var n := Next(blocks, p);
      FreedJoinedHeap(blocks, segs, top, p);
      AfterFreeHeap(blocks, segs, top, n);
      TagFreedJoined(blocks, bins.mem.head, bins.mem.foot, p);
      JoinedSpare(blocks, p, off, off');
      OnlyTop(blocks, segs, top, p);
      TopThere(blocks, segs, top);
      var head := bins.mem.head[q := Head(s, false, true)];
      KeepsFewer(kept, Lives(blocks), p);
      HeadsWritten(FreedJoined(blocks, p), top, bins.mem, head, q, q);
      FootWritten(FreedJoined(blocks, p), top, bins.mem, head, q + s, s);
      AllButNone(FreedJoined(blocks, p), head, bins.mem.foot[q + s := s], q);
      Commit(FreedJoined(blocks, p), segs, top, off, off', head, bins.mem.foot[q + s := s], q);
    }

    /** The successor is the top chunk, which now begins at `q`. */
    method SettleTop(ghost p: int, q: int, tsize: nat, ghost off: set<int>, ghost off': set<int>)
      requires Nearly(off, q) && p in blocks && blocks[p].kind == Live && Next(blocks, p) == top
      requires q == Start(blocks, p) && tsize == blocks[p].gap + blocks[p].size + topsize
        && OffFor(blocks, p, off, off' + {q})
      requires Sparing() && p !in kept
      modifies this`blocks, this`top, this`topsize, bins`mem
      ensures old(top) in old(blocks) && blocks == FreedTop(old(blocks), p) && Consistent(off')
        && Lent() == old(Lent()) - {p} && top == q
      ensures Sparing()
    {
      hide HeapOk, Tagged, TaggedBut, BinsOk, Spare, Lives, OffFor, Untouched, Keeps, TagWrites, OnlyLinks, LinksOk,
           DirectOk;
      LiveFields(blocks, segs, top, p);
      Bounds(blocks, segs, top, Next(blocks, p));
      FreedTopHeap(blocks, segs, top, p);
      TagFreedTop(blocks, bins.mem.head, bins.mem.foot, p);
      TopThere(blocks, segs, top);
      TopSpare(blocks, p, off, off');
      ghost var b' := FreedTop(blocks, p);
      topsize := tsize;
      top := q;
      var head := bins.mem.head[q := Head(tsize, false, true)];
      KeepsFewer(kept, Lives(blocks), p);
      HeadsWritten(b', top, bins.mem, head, q, q);
      AllButNone(b', head, bins.mem.foot, q);
      Commit(b', segs, top, off, off', head, bins.mem.foot, q);
    }

    /** A chunk in use is in a segment or in a region of its own. */
    lemma EitherUse(p: int)
      requires p in InUse()
      ensures p in Lent() || p in direct
    {
    }

    /** The words of a chunk in use say where it is: in a segment, */
    lemma LentKnown(p: int)
      requires Valid() && p in Lent()
      ensures var z := ChunkSize(At(bins.mem.head, p));
        Has(Lent(), p, z) && Has(InUse(), p, z) && z >= MIN_CHUNK_SIZE && p > 0 && p !in direct && !IsDirect(p)
    {
      hide HeapOk, Tagged, BinsOk, DirectOk, LinksOk, DvOk;
      LiveAt(blocks, p);
      NotMapped(p);
      Reads(DvSet(dv, dvsize), p);
      LiveFields(blocks, segs, top, p);
    }

    /** or in a region of its own. */
    lemma DirectKnown(p: int)
      requires Valid() && p in direct
      ensures var z := ChunkSize(At(bins.mem.head, p));
        Has(direct, p, z) && Has(InUse(), p, z - SIZE_T_SIZE) && z >= PAGE - DIRECT_FOOT_PAD && p > 0 && p !in Lent()
        && IsDirect(p)
    {
      hide HeapOk, Tagged, BinsOk, DirectOk, LinksOk, DvOk;
      if p in Lent() {
        LiveAt(blocks, p);
        NotMapped(p);
      }
      DirectAt(direct, segs, bins.mem.head, bins.mem.foot, p);
    }

    lemma Known(p: int)
      requires Valid() && p in InUse()
      ensures p > 0 && (p in Lent() <==> p !in direct) && (IsDirect(p) <==> p in direct)
      ensures var z := ChunkSize(At(bins.mem.head, p));
        && Has(InUse(), p, if p in direct then z - SIZE_T_SIZE else z) && (p in direct ==> Has(direct, p, z))
        && z >= MIN_CHUNK_SIZE
    {
      hide Valid, InUse, Lent;
      EitherUse(p);
      if p in direct { DirectKnown(p); } else { LentKnown(p); }
    }

    lemma NotMapped(a: int)
      requires Valid() && a in blocks
      ensures a !in direct
    {
      hide HeapOk, Tagged, BinsOk, DirectOk, LinksOk;
      TopThere(blocks, segs, top);
      var i := WordsWithin(blocks, segs, top, a);
      if a in direct { InNoSegment(direct, segs, bins.mem.head, bins.mem.foot, i, a); }
    }

    /** `is_direct`: without a predecessor in use, and with a mark that no size has. */
    function IsDirect(p: int): bool
      reads bins
    {
      !Pinuse(At(bins.mem.head, p)) && At(bins.mem.foot, p) % 2 == 1
    }

    /** `lj_alloc_free`. */
    method FreeChunk(mem: int, sys: System)
      requires Valid() && (mem == 0 || mem - 16 in InUse())
      modifies this`dv, this`dvsize, this`top, this`topsize, this`segs, this`links, this`blocks, this`trimCheck,
        this`releaseChecks, this`direct, this`kept, this`mapped, this`mark, bins
      ensures Valid() && Shrank(old(segs), segs)
        && InUse() == if mem == 0 then old(InUse()) else old(InUse()) - {mem - 16}
      ensures Untouched(InUse(), old(bins.mem), bins.mem)
      ensures direct == if mem == 0 then old(direct) else old(direct) - {mem - 16}
    {
      hide HeapOk, Tagged, TaggedBut, BinsOk, Spare, Lives, Untouched, Keeps, TagWrites, OnlyLinks, LinksOk, DirectOk,
           Shrank, Directs;
      ShrankSame(segs);
      if mem == 0 {
        NothingWritten(InUse(), bins.mem);
        return;
      }
      var p := mem - 16;
      Known(p);
      if IsDirect(p) {
        // the region is unmapped
        DirectGone(direct, segs, bins.mem.head, bins.mem.foot, p);
        UseGone(Lent(), direct, p);
        direct := direct - {p};
        NothingWritten(InUse(), bins.mem);
        return;
      }
      KeepsOthers(Lent(), p);
      KeepsAll(Directs(direct));
      Watch(Lent() - {p}, Directs(direct));
      UseFewer(Lent(), Directs(direct), p) by { KeysOfDirects(direct, p); }
      assert direct - {p} == direct;
      FreeLent(p, sys);
      UntouchedUnion(Lent(), Directs(direct), old(bins.mem), bins.mem);
    }

    /** `lj_alloc_free` on a chunk of a segment. */
    method FreeLent(chunk: int, sys: System)
      requires Valid() && chunk in Lent() && Sparing() && chunk !in kept
      modifies this`dv, this`dvsize, this`top, this`topsize, this`segs, this`links, this`blocks, this`trimCheck,
        this`releaseChecks, bins
      ensures Valid() && Sparing() && Shrank(old(segs), segs) && Lent() == old(Lent()) - {chunk}
    {
      hide HeapOk, Tagged, TaggedBut, BinsOk, Spare, Lives, Untouched, Keeps, TagWrites, OnlyLinks, LinksOk, DirectOk,
           Shrank;
      ShrankSame(segs);
      var p := chunk;
      LiveAt(blocks, p);
      ghost var p0, off := p, DvSet(dv, dvsize);
      Reads(off, p);
      var psize := ChunkSize(At(bins.mem.head, p));
      var next := p + psize;
      if !Pinuse(At(bins.mem.head, p)) {
        var prevsize := At(bins.mem.foot, p);
        p := p - prevsize;
        psize := psize + prevsize;
        if p != dv {
          UnlinkFree(p, prevsize, off);
          off := off + {p};
        } else if Cinuse(At(bins.mem.head, next)) && Pinuse(At(bins.mem.head, next)) {
          Loosen(off, p);
          SettleAlone(p0, p, psize, next, off, off);
          dvsize := psize;
          return;
        }
      }
      FreeForward(p0, p, psize, next, sys, off);
    }

    /** The rest of `lj_alloc_free`, after the chunk was joined with a free predecessor. */
    method FreeForward(ghost p0: int, p: int, size: nat, next: int, sys: System, ghost off: set<int>)
      requires Consistent(off) && DvOk(blocks, dv, dvsize) && p0 in blocks && blocks[p0].kind == Live
      requires p == Start(blocks, p0) && next == Next(blocks, p0) && size == next - p
        && off == DvSet(dv, dvsize) + if p != p0 then {p} else {}
      requires p == dv && next in blocks ==> !Used(blocks[next].kind)
      requires Sparing() && p0 !in kept
      modifies this`dv, this`dvsize, this`top, this`topsize, this`segs, this`links, this`blocks, this`trimCheck,
        this`releaseChecks, bins
      ensures Valid() && Shrank(old(segs), segs) && Lent() == old(Lent()) - {p0}
      ensures Sparing()
    {
      hide HeapOk, Tagged, TaggedBut, BinsOk, Spare, Lives, Untouched, Keeps, TagWrites, OnlyLinks, Nearly,
           Inside, LinksOk, DirectOk;
      Reads(off, p0);
      if p != dv && next != dv { DvFreed(blocks, p0, dv, dvsize); }
      if Cinuse(At(bins.mem.head, next)) {
        Loosen(off, p);
        SettleAlone(p0, p, size, next, off, DvSet(dv, dvsize) + {p});
        Rebin(p, size);
        CountDown(size, sys);
      } else if next == top {
        FreeIntoTop(p0, p, size, sys, off);
      } else if next == dv {
        Loosen(off, p);
        SettleJoined(p0, p, dvsize + size, off, {p});
        dvsize := dvsize + size;
        dv := p;
      } else {
        FreeBinned(p0, p, size, next, sys, off);
      }
    }

    /** The successor is the top chunk. */
    method FreeIntoTop(ghost p0: int, p: int, size: nat, sys: System, ghost off: set<int>)
      requires Consistent(off) && DvOk(blocks, dv, dvsize) && p0 in blocks && blocks[p0].kind == Live
      requires p == Start(blocks, p0) && top == Next(blocks, p0) && size == top - p
        && off == DvSet(dv, dvsize) + if p != p0 then {p} else {}
      requires Sparing() && p0 !in kept
      modifies this`dv, this`dvsize, this`top, this`topsize, this`segs, this`links, this`blocks, this`trimCheck,
        this`releaseChecks, bins
      ensures Valid() && Shrank(old(segs), segs) && Lent() == old(Lent()) - {p0}
      ensures var t := old(topsize) + size;
        topsize == if t > old(trimCheck) && sys.shrinks && old(CanTrim(segs, links, t)) then t - TrimExtra(t) else t
      ensures Sparing()
    {
      hide HeapOk, Tagged, TaggedBut, BinsOk, Spare, Lives, Untouched, Keeps, Nearly, LinksOk, DirectOk;
      Reads(off, p0);
      if p != dv && top != dv { DvFreed(blocks, p0, dv, dvsize); }
      var isDv := p == dv;
      Loosen(off, p);
      SettleTop(p0, p, topsize + size, off, if isDv then {} else DvSet(dv, dvsize));
      if isDv { dv, dvsize := 0, 0; }
      if topsize > trimCheck {
        var _ := Trim(sys);
      }
    }

    /** The successor comes out of its bin. */
    method FreeBinned(ghost p0: int, p: int, size: nat, next: int, sys: System, ghost off: set<int>)
      requires Consistent(off) && DvOk(blocks, dv, dvsize) && p0 in blocks && blocks[p0].kind == Live
      requires p == Start(blocks, p0) && next == Next(blocks, p0) && size == next - p
        && off == DvSet(dv, dvsize) + if p != p0 then {p} else {}
      requires next in blocks && blocks[next].kind == Free && next != dv
      requires Sparing() && p0 !in kept
      modifies this`dv, this`dvsize, this`segs, this`links, this`blocks, this`trimCheck, this`releaseChecks, bins
      ensures Valid() && Shrank(old(segs), segs) && Lent() == old(Lent()) - {p0}
      ensures Sparing()
    {
      hide HeapOk, Tagged, TaggedBut, BinsOk, Spare, Lives, Untouched, Keeps, TagWrites, OnlyLinks, LinksOk, DirectOk;
      Reads(off, p0);
      if p != dv { DvFreed(blocks, p0, dv, dvsize); }
      var nsize := ChunkSize(At(bins.mem.head, next));
      var psize := size + nsize;
      UnlinkFree(next, nsize, off);
      Loosen(off + {next}, p);
      SettleJoined(p0, p, psize, off + {next}, DvSet(dv, dvsize) + {p});
      if p == dv {
        assert DvSet(dv, dvsize) + {p} == {p};
        dvsize := psize;
      } else {
        Rebin(p, psize);
        CountDown(psize, sys);
      }
    }

    /** The joined chunk goes into its bin. */
    method Rebin(p: int, s: nat)
      requires Consistent(DvSet(dv, dvsize) + {p}) && DvOk(blocks, dv, dvsize) && p in blocks
        && blocks[p] == Block(s, Free, 0) && p !in DvSet(dv, dvsize)
      requires Sparing()
      modifies bins
      ensures Valid()
      ensures Sparing()
    {
      hide HeapOk, Tagged, BinsOk, Spare, Untouched, Keeps, TagWrites, OnlyLinks, LinksOk, DirectOk;
      InsertFree(p, s, DvSet(dv, dvsize) + {p});
      assert DvSet(dv, dvsize) + {p} - {p} == DvSet(dv, dvsize);
    }

    // ----- memory back to the system

    /** After a large chunk was put into its bin: now and then look for segments that are not used. */
    method CountDown(s: nat, sys: System)
      requires Valid() && Sparing()
      modifies this`dv, this`dvsize, this`segs, this`links, this`blocks, this`releaseChecks, bins
      ensures Valid() && Sparing() && Lent() == old(Lent()) && Shrank(old(segs), segs)
    {
      hide HeapOk, BinsOk, Tagged, Spare, Lives, Untouched, Keeps, LinksOk, Shrank, DirectOk;
      ShrankSame(segs);
      if !IsSmall(s) {
        releaseChecks := Sub(releaseChecks, 1);
        if releaseChecks == 0 {
          var _ := ReleaseUnused(sys);
        }
      }
    }

    lemma ReadsFirst(i: nat)
      requires Valid() && 0 < i < |segs|
      ensures var p := segs[i].base;
        && p in blocks && blocks[p].kind != Top && p > 0 && SegOk(segs[i])
        && ChunkSize(At(bins.mem.head, p)) == blocks[p].size && (Cinuse(At(bins.mem.head, p)) <==> Used(blocks[p].kind))
      ensures Unused(blocks, segs, i) ==> blocks[segs[i].base].gap == 0 && blocks[segs[i].base].size >= 256
    {
      hide HeapOk, Tagged, BinsOk, DvOk, Unused, LinksOk, DirectOk;
      var p := segs[i].base;
      FirstOfOther(blocks, segs, top, i);
      Bounds(blocks, segs, top, p);
      TagAt(blocks, bins.mem.head, bins.mem.foot, p);
      HeadFields(blocks[p].size, Used(blocks[p].kind), blocks[p].gap == 0);
    }

    /** One step of `release_unused_segments`. */
    method TryRelease(i: nat, sys: System) returns (gone: bool)
      requires Valid() && Sparing() && 0 < i < |segs|
      modifies this`dv, this`dvsize, this`segs, this`links, this`blocks, bins
      ensures Valid() && Sparing() && Lent() == old(Lent())
      ensures gone <==> old(Unused(blocks, segs, i)) && old(segs[i]).base in sys.unmaps
      ensures gone ==> segs == Dropped(old(segs), i) && blocks == Released(old(blocks), old(segs[i]))
      ensures !gone ==> segs == old(segs) && blocks == old(blocks)
    {
      hide HeapOk, BinsOk, Tagged, Spare, Lives, Untouched, Keeps, OnlyLinks, LinksOk, DirectOk;
      ReadsFirst(i);
      ghost var off := DvSet(dv, dvsize);
      var p := segs[i].base;
      var psize := ChunkSize(At(bins.mem.head, p));
      if Cinuse(At(bins.mem.head, p)) || p + psize < End(segs[i]) - TOP_FOOT_SIZE { return false; }
      if p == dv {
        dv, dvsize := 0, 0;
        assert DvSet(dv, dvsize) + {p} == off;
      } else {
        ghost var m := bins.mem;
        TakesOut(off, p);
        bins.UnlinkLarge(p, Spare(blocks, off));
        LinksSpare(off, m);
      }
      assert Consistent(DvSet(dv, dvsize) + {p});
      if p in sys.unmaps {
        DropSegment(i, p);
        return true;
      }
      InsertFree(p, psize, DvSet(dv, dvsize) + {p});
      assert DvSet(dv, dvsize) + {p} - {p} == DvSet(dv, dvsize);
      gone := false;
    }

    lemma TakesOut(off: set<int>, p: int)
      requires p in blocks && blocks[p].kind == Free && p !in off
      ensures p in Spare(blocks, off) && Spare(blocks, off)[p] == blocks[p].size
        && Spare(blocks, off + {p}) == Spare(blocks, off) - {p}
    {
    }

    /** The segment is no longer in the list, nor are its chunks. */
    method DropSegment(i: nat, ghost p: int)
      requires Consistent(DvSet(dv, dvsize) + {p}) && DvOk(blocks, dv, dvsize) && Sparing()
      requires Unused(blocks, segs, i) && p == segs[i].base && p != dv
      modifies this`segs, this`links, this`blocks
      ensures Valid() && Sparing() && Lent() == old(Lent())
      ensures segs == Dropped(old(segs), i) && blocks == Released(old(blocks), old(segs[i]))
    {
      hide HeapOk, BinsOk, Tagged, Spare, Lives, Untouched, Keeps, LinksOk, Released, Dropped, DirectOk;
      ReleaseHeap(blocks, segs, top, i);
      ReleaseSpare(blocks, segs, top, i, DvSet(dv, dvsize));
      ReleaseLinks(segs, links, i);
      DirectDropped(direct, segs, bins.mem.head, bins.mem.foot, i);
      TagReleased(blocks, bins.mem.head, bins.mem.foot, segs[i]);
      LinksLength(segs, links);
      blocks := Released(blocks, segs[i]);
      segs, links := Dropped(segs, i), Dropped(links, i);
    }

    /** `release_unused_segments`: those that hold nothing but one free chunk, as far as the system unmaps them. */
    method ReleaseUnused(sys: System) returns (released: nat)
      requires Valid() && Sparing()
      modifies this`dv, this`dvsize, this`segs, this`links, this`blocks, this`releaseChecks, bins
      ensures Valid() && Sparing() && Lent() == old(Lent()) && Shrank(old(segs), segs)
      ensures forall i | 0 < i < |segs| :: segs[i].base in sys.unmaps ==> !Unused(blocks, segs, i)
      ensures released == 0 ==> segs == old(segs)
    {
      hide HeapOk, BinsOk, Tagged, Spare, Lives, Untouched, Keeps, LinksOk, Released, Dropped, Unused, Shrank, DirectOk;
      released := 0;
      var nsegs := 0;
      var i: nat := 1;
      ShrankSame(segs);
      while i < |segs|
        invariant Valid() && Sparing() && Lent() == old(Lent()) && Shrank(old(segs), segs) && i > 0
        invariant forall j | 0 < j < i && j < |segs| :: segs[j].base in sys.unmaps ==> !Unused(blocks, segs, j)
        invariant released == 0 ==> segs == old(segs)
        decreases |segs| - i
      {
        nsegs := nsegs + 1;
        var size := segs[i].size;
        ghost var b, was, were := blocks, segs, links;
        var gone := TryRelease(i, sys);
        if gone {
          released := released + size;
          Gone(b, was, top, were, i);
          ShrankBoth(old(segs), was, segs);
        } else {
          i := i + 1;
        }
      }
      releaseChecks := if nsegs > MAX_RELEASE_CHECK_RATE then nsegs else MAX_RELEASE_CHECK_RATE;
    }

    /** `segment_holding`, for an address that is mapped. */
    method SegmentHolding(a: int) returns (i: nat)
      requires exists k | 0 <= k < |segs| :: Within(segs[k], a)
      ensures i < |segs| && Within(segs[i], a) && forall k | 0 <= k < i :: !Within(segs[k], a)
    {
      i := 0;
      while !Within(segs[i], a)
        invariant i < |segs| && forall k | 0 <= k < i :: !Within(segs[k], a)
        decreases |segs| - i
      {
        i := i + 1;
      }
    }

    /** `has_segment_link` */
    method HasSegmentLink(s: Segment) returns (r: bool)
      ensures r <==> exists k | 0 <= k < |links| :: Within(s, links[k])
    {
      var i := 0;
      while i < |links|
        invariant i <= |links| && forall k | 0 <= k < i :: !Within(s, links[k])
      {
        if Within(s, links[i]) { return true; }
        i := i + 1;
      }
      return false;
    }

    /** `init_top` on what is left of the top chunk after `extra` bytes of its segment went. */
    method CutTop(extra: nat)
      requires Valid() && Sparing() && Trims(blocks, segs, top, extra)
      modifies this`segs, this`topsize, this`blocks, this`trimCheck, bins`mem
      ensures Valid() && Sparing() && Lent() == old(Lent()) && Shrank(old(segs), segs)
      ensures segs == Shorter(old(segs), extra) && topsize == old(topsize) - extra
    {
      hide HeapOk, BinsOk, Tagged, Spare, Lives, Untouched, Keeps, TagWrites, LinksOk, DirectOk;
      ghost var off := DvSet(dv, dvsize);
      BehindTop(blocks, segs, top);
      TrimHeap(blocks, segs, top, extra);
      ghost var b', segs' := Trimmed(blocks, top, extra), Shorter(segs, extra);
      BehindTop(b', segs', top);
      TagTrimmed(blocks, bins.mem.head, bins.mem.foot, top, extra);
      SpareTrimmed(blocks, top, extra, off);
      DvTrimmed(blocks, top, extra, dv, dvsize);
      TrimLinks(segs, links, extra);
      DirectShorter(direct, segs, bins.mem.head, bins.mem.foot, extra);
      segs := segs[0 := Segment(segs[0].base, segs[0].size - extra)];
      topsize := topsize - extra;
      var head := bins.mem.head[top := Head(topsize, false, true)];
      head := head[top + topsize := TOP_FOOT_SIZE];
      trimCheck := DEFAULT_TRIM_THRESHOLD;
      HeadsWritten(b', top, bins.mem, head, top, top + topsize);
      CommitAll(b', segs', top, off, off, head, bins.mem.foot);
    }

    /** `alloc_trim`: the top chunk is cut to at most one unit more than a record needs, unless its segment holds the
        allocator's state; then segments that are not used go. */
    method Trim(sys: System) returns (released: nat)
      requires Valid() && Sparing()
      modifies this`dv, this`dvsize, this`topsize, this`segs, this`links, this`blocks, this`trimCheck,
        this`releaseChecks, bins
      ensures Valid() && Sparing() && Lent() == old(Lent()) && Shrank(old(segs), segs)
      ensures topsize == old(topsize)
        - if sys.shrinks && old(CanTrim(segs, links, topsize)) then TrimExtra(old(topsize)) else 0
      ensures released == 0 ==>
        trimCheck == if topsize > old(trimCheck) then MAX_SIZE_T else old(trimCheck)
      ensures forall i | 0 < i < |segs| :: segs[i].base in sys.unmaps ==> !Unused(blocks, segs, i)
    {
      hide HeapOk, BinsOk, Tagged, Spare, Lives, Untouched, Keeps, LinksOk, Shrank, Unused, SegsApart, TrimExtra,
           DirectOk;
      released := 0;
      ShrankSame(segs);
      if topsize > TOP_FOOT_SIZE {
        var extra := TrimExtra(topsize);
        TrimLeaves(topsize);
        TopSegmentIs(blocks, segs, top);
        LinksLength(segs, links);
        var sp := SegmentHolding(top);
        if segs[sp].size >= extra {
          OwnLinks(segs, links);
          var pinned := HasSegmentLink(segs[sp]);
          if !pinned && sys.shrinks { released := extra; }
        }
        if released != 0 { CutTop(released); }
      }
      ghost var was := segs;
      var more := ReleaseUnused(sys);
      ShrankBoth(old(segs), was, segs);
      released := released + more;
      if released == 0 && topsize > trimCheck { trimCheck := MAX_SIZE_T; }
    }

    // ----- memory from the system

    /** `init_top` after the top segment grew at its end. */
    method AppendTop(i: nat, tsize: nat)
      requires Valid() && i < |segs| && segs[i].base <= top < End(segs[i])
        && Unmapped(segs, Segment(End(segs[i]), tsize)) && Away(direct, Segment(End(segs[i]), tsize))
      requires Sparing()
      modifies this`segs, this`trimCheck, this`topsize, this`blocks, bins`mem
      ensures Valid() && Lent() == old(Lent()) && segs == Longer(old(segs), i, tsize)
        && topsize == old(topsize) + tsize
      ensures Sparing()
    {
      hide HeapOk, BinsOk, Tagged, Spare, Lives, Unmapped, Untouched, Keeps, TagWrites, OnlyLinks, LinksOk, DirectOk;
      ghost var off := DvSet(dv, dvsize);
      BehindTop(blocks, segs, top);
      AppendHeap(blocks, segs, top, i, tsize);
      ghost var b', segs' := Appended(blocks, top, tsize), Longer(segs, i, tsize);
      BehindTop(b', segs', top);
      TagAppended(blocks, bins.mem.head, bins.mem.foot, top, tsize);
      SpareAppended(blocks, top, tsize, off);
      DvAppended(blocks, top, tsize, dv, dvsize);
      LongerLinks(segs, links, i, tsize);
      DirectLonger(direct, segs, bins.mem.head, bins.mem.foot, i, tsize);
      segs := segs[i := Segment(segs[i].base, segs[i].size + tsize)];
      topsize := topsize + tsize;
      trimCheck := DEFAULT_TRIM_THRESHOLD;
      var head := bins.mem.head[top := Head(topsize, false, true)];
      head := head[top + topsize := TOP_FOOT_SIZE];
      HeadsWritten(b', top, bins.mem, head, top, top + topsize);
      CommitAll(b', segs', top, off, off, head, bins.mem.foot);
    }

    /** `prepend_alloc`: the chunk at the front of the new pages, the rest joined with what follows. */
    method PrependAlloc(i: nat, nb: nat, tsize: nat) returns (p: int)
      requires Valid() && Prepends(segs, i, nb, tsize) && Unmapped(segs, Segment(segs[i].base - tsize, tsize))
        && Away(direct, Segment(segs[i].base - tsize, tsize))
      requires Sparing()
      modifies this`dv, this`dvsize, this`top, this`topsize, this`segs, this`blocks, bins
      ensures Valid() && Gained(old(Lent()), Lent(), p, nb, false) && segs == Earlier(old(segs), i, tsize)
      ensures Sparing()
    {
      hide HeapOk, BinsOk, Tagged, TaggedBut, Spare, Lives, Unmapped, Reading, OffFor, Untouched, Keeps, TagWrites,
           OnlyLinks, LinksOk, DirectOk;
      ghost var off, live := DvSet(dv, dvsize), Lent();
      PrependHeap(blocks, segs, top, i, nb, tsize);
      p := segs[i].base - tsize;
      UnmappedSize(segs, Segment(p, tsize));
      var oldfirst := segs[i].base;
      var q, qsize := p + nb, tsize - nb;
      TagPrepended(blocks, bins.mem.head, bins.mem.foot, p, nb, tsize);
      SparePrepended(blocks, p, nb, tsize, off);
      DvPrepended(blocks, p, nb, tsize, dv, dvsize);
      ghost var b', segs' := Prepended(blocks, p, nb, tsize), Earlier(segs, i, tsize);
      TopThere(blocks, segs, top);
      EarlierLinks(segs, links, i, tsize);
      DirectEarlier(direct, segs, bins.mem.head, bins.mem.foot, i, tsize);
      segs := segs[i := Segment(p, segs[i].size + tsize)];
      KeepsMore(kept, live, p, nb);
      KeepsMore(kept, live[p := nb], q, qsize);
      var head := bins.mem.head[p := Head(nb, true, true)];
      HeadsWritten(b', top, bins.mem, head, p, p);
      CommitHeads(b', off, head, q);
      LivesPlus(live, p, nb, q, qsize);
      NotKept(kept, live, q);
      JoinRest(q, qsize, oldfirst);
    }

    /** The rest of the new pages: joined with the old first chunk if that is free, and put into a bin. */
    method JoinRest(q: int, qsize: nat, oldfirst: int)
      requires Nearly(DvSet(dv, dvsize), q) && DvOk(blocks, dv, dvsize) && q in blocks
        && blocks[q] == Block(qsize, Live, 0) && q + qsize == oldfirst
      requires Sparing() && q !in kept
      modifies this`dv, this`dvsize, this`top, this`topsize, this`blocks, bins
      ensures Valid() && Lent() == old(Lent()) - {q}
      ensures Sparing()
    {
      hide HeapOk, Tagged, TaggedBut, BinsOk, Spare, Lives, Untouched, Keeps, TagWrites, OnlyLinks, LinksOk, DirectOk;
      ghost var off := DvSet(dv, dvsize);
      ReadsNext(off, q);
      if oldfirst != dv { DvFreed(blocks, q, dv, dvsize); }
      if oldfirst == top {
        SettleTop(q, q, topsize + qsize, off, off);
      } else if oldfirst == dv {
        SettleJoined(q, q, dvsize + qsize, off, {q});
        dvsize := dvsize + qsize;
        dv := q;
      } else if !Cinuse(At(bins.mem.head, oldfirst)) {
        var nsize := ChunkSize(At(bins.mem.head, oldfirst));
        UnlinkNearly(oldfirst, nsize, off, q);
        SettleJoined(q, q, qsize + nsize, off + {oldfirst}, off + {q});
        Rebin(q, qsize + nsize);
      } else {
        SettleAlone(q, q, qsize, oldfirst, off, off + {q});
        Rebin(q, qsize);
      }
    }

    lemma ReadsNext(off: set<int>, q: int)
      requires Nearly(off, q) && q in blocks && blocks[q].kind == Live && blocks[q].gap == 0
      ensures Follows(blocks, bins.mem.head, top, q)
    {
      hide HeapOk, TaggedBut, BinsOk, LinksOk, DirectOk;
      LiveFields(blocks, segs, top, q);
      var n := Next(blocks, q);
      Bounds(blocks, segs, top, n);
      Bounds(blocks, segs, top, q);
      TagButAt(blocks, bins.mem.head, bins.mem.foot, q, n);
      HeadFields(blocks[n].size, Used(blocks[n].kind), blocks[n].gap == 0);
      OnlyTop(blocks, segs, top, n);
      if blocks[n].kind == Free { AfterFreeHeap(blocks, segs, top, n); }
    }

    method UnlinkNearly(x: int, s: nat, ghost off: set<int>, ghost q: int)
      requires Nearly(off, q) && x !in off && x in blocks && blocks[x] == Block(s, Free, 0)
      requires Sparing()
      modifies bins
      ensures Nearly(off + {x}, q)
      ensures Sparing()
    {
      hide HeapOk, BinsOk, TaggedBut, Untouched, Keeps, TagWrites, OnlyLinks, LinksOk, DirectOk;
      ghost var m := bins.mem;
      bins.Unlink(x, s, Spare(blocks, off));
      assert Spare(blocks, off + {x}) == Spare(blocks, off) - {x};
      LinksSpare(off, m);
    }

    /** The headers of the fenceposts, from `lo` up to the last that fits below `end`. */
    method WriteFences(head: Words, lo: int, end: int) returns (h: Words)
      requires lo % 8 == 0 && end % 8 == 0 && lo + 2 * SIZE_T_SIZE <= end
      ensures forall a :: At(h, a) == if FenceAddr(lo, end - SIZE_T_SIZE, a) then FENCEPOST_HEAD else At(head, a)
    {
      hide FenceAddr;
      h := head;
      var p := lo;
      NoFence(lo);
      while true
        invariant lo <= p <= end - 2 * SIZE_T_SIZE && p % 8 == 0
        invariant forall a :: At(h, a) == if FenceAddr(lo, p, a) then FENCEPOST_HEAD else At(head, a)
        decreases end - p
      {
        var nextp := p + SIZE_T_SIZE;
        forall a ensures FenceAddr(lo, nextp, a) <==> FenceAddr(lo, p, a) || a == p { NextFence(lo, p, a); }
        h := h[p := FENCEPOST_HEAD];
        if nextp + SIZE_T_SIZE < end {
          p := nextp;
        } else {
          LastFence(p, end);
          break;
        }
      }
    }

    /** What is left of the old top chunk in front of the segment record is freed. */
    method SpareOldTop(p: int, s: nat, csp: int)
      requires Nearly(DvSet(dv, dvsize), p) && DvOk(blocks, dv, dvsize) && dv != p && dv != csp && csp != p
      requires p in blocks && blocks[p] == Block(s, Live, 0) && Next(blocks, p) == csp && csp in blocks
        && Used(blocks[csp].kind)
      requires Sparing() && p !in kept
      modifies this`blocks, bins
      ensures Valid() && Lent() == old(Lent()) - {p}
      ensures Sparing()
    {
      hide HeapOk, BinsOk, Tagged, TaggedBut, Spare, Lives, Untouched, Keeps, TagWrites, OnlyLinks, LinksOk, DirectOk;
      ghost var off := DvSet(dv, dvsize);
      DvFreed(blocks, p, dv, dvsize);
      SettleAlone(p, p, s, csp, off, off + {p});
      Rebin(p, s);
    }

    /** `add_segment`: the top chunk moves to new pages, and what was the top chunk becomes an ordinary free chunk. */
    method AddSegment(tbase: int, tsize: nat)
      requires Valid() && Unmapped(segs, Segment(tbase, tsize)) && tsize > TOP_FOOT_SIZE
        && Away(direct, Segment(tbase, tsize))
      requires Sparing()
      modifies this`top, this`topsize, this`segs, this`links, this`trimCheck, this`blocks, bins
      ensures Valid() && Lent() == old(Lent()) && segs == [Segment(tbase, tsize)] + old(segs)
        && topsize == tsize - TOP_FOOT_SIZE
      ensures Sparing()
    {
      hide HeapOk, BinsOk, Tagged, TaggedBut, Spare, Lives, Unmapped, Moved, Untouched, Keeps, LinksOk,
           DirectOk;
      ghost var live := Lent();
      var oldTop, oldSize := top, topsize;
      MoveFacts(Segment(tbase, tsize));
      NotKept(kept, live, oldTop);
      var csp := MoveTop(tbase, tsize);
      if csp != oldTop {
        SpareOldTop(oldTop, oldSize, csp);
        LivesBack(live, oldTop, oldSize);
      } else {
        NullFree(blocks, segs, top);
        AllButNone(blocks, bins.mem.head, bins.mem.foot, 0);
      }
    }

    /** The headers of the new top chunk, of the record and of the fenceposts. */
    method MoveHeads(ghost b: Blocks, head0: Words, oldTop: int, oldEnd: int, csp: int, s: Segment)
      returns (head: Words)
      requires oldTop in b && s.size > TOP_FOOT_SIZE && csp == RecordAt(b, oldTop)
        && oldEnd == Next(b, oldTop) + TOP_FOOT_SIZE && csp % 8 == 0 && oldEnd % 8 == 0
      ensures FenceWords(b, head0, head, oldTop, s)
    {
      head := head0[s.base := Head(s.size - TOP_FOOT_SIZE, false, true)];
      head := head[End(s) - TOP_FOOT_SIZE := TOP_FOOT_SIZE];
      head := head[csp := Head(SEGMENT_RECORD_SIZE, true, true)];
      head := WriteFences(head, csp + SEGMENT_RECORD_SIZE, oldEnd);
      FenceWordsAre(b, head0, head, oldTop, s);
    }

    /** What the heap is like after the top chunk moved to `s`. */
    lemma MoveFacts(s: Segment)
      requires Valid() && Unmapped(segs, s) && s.size > TOP_FOOT_SIZE
      ensures top in blocks && blocks[top].size == topsize && topsize % 8 == 0 && s.base !in Retired(blocks, top)
      ensures top % 8 == 0 && Retires(blocks, top) && 0 < topsize
      ensures var b', off := Moved(blocks, top, s), DvSet(dv, dvsize);
        && HeapOk(b', [s] + segs, s.base) && s.base in b' && b'[s.base].size == s.size - TOP_FOOT_SIZE
        && DvOk(b', dv, dvsize) && dv != top && Spare(b', off) == Spare(blocks, off)
        && Lives(b') == (if RecordAt(blocks, top) == top then Lives(blocks) else Lives(blocks)[top := topsize])
        && top !in Lives(blocks) && top !in Spare(blocks, off)
      ensures RecordAt(blocks, top) != top ==>
        var b', csp := Moved(blocks, top, s), RecordAt(blocks, top);
        top in b' && b'[top] == Block(topsize, Live, 0) && csp == Next(blocks, top) && csp in b'
          && b'[csp] == Block(SEGMENT_RECORD_SIZE, Own, 0) && dv != csp
    {
      hide HeapOk, BinsOk, Tagged, Spare, Lives, Unmapped, Moved, Retires, Retired, LinksOk, DirectOk;
      BehindTop(blocks, segs, top);
      Bounds(blocks, segs, top, top);
      CanRetire(blocks, segs, top);
      AddSegmentHeap(blocks, segs, top, s);
      SpareMoved(blocks, top, s, DvSet(dv, dvsize));
      MovedTop(blocks, top, s);
      DvMoved(blocks, top, s, dv, dvsize);
      if RecordAt(blocks, top) != top { OldTop(blocks, top, s); }
    }

    /** The new top chunk, the record of the old segment and the fenceposts behind it. */
    method MoveTop(tbase: int, tsize: nat) returns (csp: int)
      requires Valid() && Unmapped(segs, Segment(tbase, tsize)) && tsize > TOP_FOOT_SIZE
        && Away(direct, Segment(tbase, tsize))
      requires Sparing()
      modifies this`top, this`topsize, this`segs, this`links, this`trimCheck, this`blocks, bins
      ensures segs == [Segment(tbase, tsize)] + old(segs) && topsize == tsize - TOP_FOOT_SIZE
      ensures blocks == Moved(old(blocks), old(top), Segment(tbase, tsize)) && csp == RecordAt(old(blocks), old(top))
      ensures Nearly(DvSet(dv, dvsize), if csp == old(top) then 0 else old(top))
      ensures Sparing()
    {
      hide HeapOk, BinsOk, Tagged, TaggedBut, Spare, Lives, Unmapped, Moved, FenceWords, Retires, Retired, Untouched,
           Keeps, TagWrites, OnlyLinks, LinksOk, DirectOk;
      ghost var off, b0 := DvSet(dv, dvsize), blocks;
      var s := Segment(tbase, tsize);
      MoveFacts(s);
      var oldTop, oldEnd, oldSize := top, top + topsize + TOP_FOOT_SIZE, topsize;
      csp := if topsize < MIN_CHUNK_SIZE then oldTop else oldEnd - TOP_FOOT_SIZE;
      var head0 := bins.mem.head;
      MovedLinks(b0, segs, oldTop, links, s);
      LinksLength(segs, links);
      DirectCons(direct, segs, bins.mem.head, bins.mem.foot, s);
      top, topsize := tbase, tsize - TOP_FOOT_SIZE;
      segs, links := [Segment(tbase, tsize)] + segs, [links[0], csp + 16] + links[1..];
      trimCheck := DEFAULT_TRIM_THRESHOLD;
      var head := MoveHeads(b0, head0, oldTop, oldEnd, csp, s);
      TagMoved(b0, old(segs), head0, head, bins.mem.foot, oldTop, s);
      MovedWrites(b0, oldTop, s, bins.mem, head);
      KeepsMore(kept, Lives(b0), oldTop, oldSize);
      NotKept(kept, Lives(b0), oldTop);
      ghost var loose := if csp == oldTop then 0 else oldTop;
      AllButNone(b0, head0, bins.mem.foot, loose);
      NullFree(b0, old(segs), oldTop);
      NotSpare(b0, off, 0);
      CommitHeads(Moved(b0, oldTop, s), off, head, loose);
    }

    /** The segment that ends at `a`, or one past the last. */
    method SegmentEnding(a: int) returns (i: nat)
      ensures i <= |segs| && (i < |segs| ==> End(segs[i]) == a) && forall j | 0 <= j < i :: End(segs[j]) != a
    {
      i := 0;
      while i < |segs| && a != End(segs[i])
        invariant i <= |segs| && forall j | 0 <= j < i :: End(segs[j]) != a
      {
        i := i + 1;
      }
    }

    /** The segment that begins at `a`, or one past the last. */
    method SegmentBeginning(a: int) returns (i: nat)
      ensures i <= |segs| && (i < |segs| ==> segs[i].base == a) && forall j | 0 <= j < i :: segs[j].base != a
    {
      i := 0;
      while i < |segs| && segs[i].base != a
        invariant i <= |segs| && forall j | 0 <= j < i :: segs[j].base != a
      {
        i := i + 1;
      }
    }

    /** `alloc_sys`: a large chunk in a region of its own, if the system maps one; otherwise new pages for a segment. */
    method AllocSys(nb: nat, sys: System) returns (p: int)
      requires Valid() && topsize <= nb <= MAX_SIZE_T && MIN_CHUNK_SIZE <= nb && (nb % 8 == 0 || nb == MAX_SIZE_T)
        && SysOk(segs, direct, sys, nb)
      requires Sparing()
      modifies this`dv, this`dvsize, this`top, this`topsize, this`segs, this`links, this`trimCheck, this`blocks,
        this`direct, bins
      ensures Valid() && p >= 0 && (p == 0 <==> NoGrant(sys, nb))
      ensures p == 0 ==> Lent() == old(Lent()) && segs == old(segs)
      ensures NoRegion(sys, nb) ==> direct == old(direct)
      ensures p != 0 && NoRegion(sys, nb) ==>
        Gained(old(Lent()), Lent(), p, nb, false) && Grew(old(segs), segs, Segment(sys.pages, SysSize(nb)))
        && nb < MAX_SIZE_T
      ensures !NoRegion(sys, nb) ==>
        NewRegion(old(direct), direct, p, nb) && Lent() == old(Lent()) && segs == old(segs) && nb < MAX_SIZE_T
      ensures Sparing()
    {
      hide HeapOk, BinsOk, Tagged, Spare, Lives, Unmapped, SysSize, Grew, Untouched, Keeps, TagWrites, OnlyLinks,
           LinksOk, DirectOk, Sparing, Consistent, MapSize;
      if nb >= DEFAULT_MMAP_THRESHOLD {
        p := DirectAlloc(nb, sys.region);
        if p != 0 { return; }
      }
      p := AllocPages(nb, sys.pages);
    }

    /** New pages for a segment: behind the top chunk, in front of a segment, or as a segment of their own. `pages` is
        where the system maps them, or 0 if it does not. */
    method AllocPages(nb: nat, pages: int) returns (p: int)
      requires Valid() && topsize <= nb <= MAX_SIZE_T && MIN_CHUNK_SIZE <= nb && (nb % 8 == 0 || nb == MAX_SIZE_T)
        && GrantOk(segs, direct, pages, SysSize(nb), nb)
      requires Sparing()
      modifies this`dv, this`dvsize, this`top, this`topsize, this`segs, this`links, this`trimCheck, this`blocks, bins
      ensures Valid() && p >= 0 && (p == 0 <==> pages == 0 || SysSize(nb) <= nb)
      ensures p == 0 ==> Lent() == old(Lent()) && segs == old(segs)
      ensures p != 0 ==>
        Gained(old(Lent()), Lent(), p, nb, false) && Grew(old(segs), segs, Segment(pages, SysSize(nb)))
        && nb < MAX_SIZE_T
      ensures Sparing()
    {
      hide HeapOk, BinsOk, Tagged, Spare, Lives, Unmapped, SysSize, Grew, Untouched, Keeps, TagWrites, OnlyLinks,
           LinksOk, DirectOk, Away;
      p := 0;
      var tbase, tsize := 0, 0;
      var rsize := SysSize(nb);
      if rsize > nb && pages != 0 {
        tbase, tsize := pages, rsize;
      }
      if tbase != 0 {
        SysSizeFits(nb);
        WholePages(tsize);
        WordTooLarge(segs, Segment(pages, tsize), nb);
        var i := SegmentEnding(tbase);
        if i < |segs| && segs[i].base <= top < End(segs[i]) {
          LongerGrew(segs, i, tsize);
          AppendTop(i, tsize);
        } else {
          i := SegmentBeginning(tbase + tsize);
          if i < |segs| {
            EarlierGrew(segs, i, tsize);
            p := PrependAlloc(i, nb, tsize);
            return;
          } else {
            ConsGrew(segs, Segment(tbase, tsize));
            AddSegment(tbase, tsize);
          }
        }
        if nb < topsize {
          p := MallocTop(nb);
        }
      }
    }

    // ----- chunks that the system maps

    /** The words of a chunk of `z` bytes in a region at `p`. */
    method SetRegion(p: int, z: nat, first: bool)
      requires Valid() && Sparing() && Unmapped(segs, Region(p, z)) && Away(direct - {p}, Region(p, z))
      requires z % 8 == 0 && z >= 8 && (p in mapped ==> mapped[p] + 8 <= z) && (first || p in direct)
      modifies this`direct, bins`mem
      ensures Valid() && Sparing() && direct == old(direct)[p := z]
    {
      hide HeapOk, BinsOk, Tagged, TaggedBut, Spare, Lives, Untouched, Keeps, LinksOk, DirectOk, Unmapped, Away, Tiled;
      var head := bins.mem.head[p := Head(z, true, false)];
      head := head[p + z := FENCEPOST_HEAD];
      head := head[p + z + SIZE_T_SIZE := 0];
      var foot := if first then bins.mem.foot[p := IS_DIRECT_BIT] else bins.mem.foot;
      ghost var mem' := bins.mem.(head := head, foot := foot);
      RegionWrites(direct, segs, bins.mem, head, foot, p, z);
      ghost var f := Spare(blocks, DvSet(dv, dvsize));
      MapTags(blocks, segs, top, bins.mem, head, foot, p, z);
      MapUntouched(blocks, segs, top, direct, kept, mapped, bins.mem, head, foot, p, z);
      UntouchedBoth(kept, mark, bins.mem, mem');
      UntouchedBoth(mapped, mark, bins.mem, mem');
      DirectSet(direct, segs, bins.mem, head, foot, p, z);
      KeepsRegion(mapped, direct, p, z);
      NullFree(blocks, segs, top);
      NotSpare(blocks, DvSet(dv, dvsize), 0);
      SpareSizes(blocks, DvSet(dv, dvsize));
      AllButNone(blocks, bins.mem.head, bins.mem.foot, 0);
      AllButNone(blocks, head, foot, 0);
      TiledOf(blocks, segs, top);
      Retag(bins.trees, bins.small, bins.mem, bins.roots, bins.treemap, bins.smallmap, f, blocks, blocks, head, foot,
        0);
      bins.mem := bins.mem.(head := head, foot := foot);
      direct := direct[p := z];
    }

    /** `direct_alloc`; `base` is where the system maps the region, or 0. */
    method DirectAlloc(nb: nat, base: int) returns (p: int)
      requires Valid() && Sparing() && nb <= MAX_SIZE_T && nb >= DEFAULT_MMAP_THRESHOLD
        && GrantOk(segs, direct, base, MapSize(nb), nb)
      modifies this`direct, bins`mem
      ensures Valid() && Sparing()
      ensures p == if base != 0 && MapSize(nb) > nb then base else 0
      ensures p == 0 ==> direct == old(direct)
      ensures p != 0 ==> NewRegion(old(direct), direct, p, nb) && nb < MAX_SIZE_T
    {
      hide HeapOk, BinsOk, Tagged, Spare, Lives, Unmapped, Untouched, Keeps, LinksOk, DirectOk, Away, MapSize,
           Region, Consistent, DvOk;
      var mmsize := MapSize(nb);
      if mmsize > nb && base != 0 {
        MapRegion(base, nb);
        FreshRegion(segs, direct, mapped, Segment(base, mmsize));
        SetRegion(base, mmsize - DIRECT_FOOT_PAD, true);
        return base;
      }
      p := 0;
    }

    /** `direct_resize`: the chunk stays as it is if it is large enough and not much too large; otherwise the region is
        resized, if the system can do that in place. */
    method DirectResize(p: int, nb: nat, sys: System) returns (r: int)
      requires Valid() && Sparing() && p in direct && nb + 55 < WORD && nb >= MIN_CHUNK_SIZE
        && ResizeOk(segs, direct, sys, p, nb)
      requires p in mapped && (!KeepsRegionSize(direct[p], nb) && sys.resizes ==> mapped[p] + 40 <= MapSize(nb))
      modifies this`direct, bins`mem
      ensures Valid() && Sparing() && (r == 0 || r == p) && (r == 0 ==> bins.mem == old(bins.mem))
      ensures r == p <==> !IsSmall(nb) && (KeepsRegionSize(old(direct)[p], nb) || sys.resizes)
      ensures direct == if r == 0 || KeepsRegionSize(old(direct)[p], nb) then old(direct)
        else old(direct)[p := MapSize(nb) - DIRECT_FOOT_PAD]
    {
      hide HeapOk, BinsOk, Tagged, Spare, Lives, Unmapped, Untouched, Keeps, LinksOk, DirectOk, Away, MapSize,
           Region, Sparing, Consistent, DvOk;
      DirectAt(direct, segs, bins.mem.head, bins.mem.foot, p);
      var oldsize := ChunkSize(At(bins.mem.head, p));
      if IsSmall(nb) { return 0; }
      if oldsize >= nb + SIZE_T_SIZE && oldsize - nb <= DEFAULT_GRANULARITY / 2 { return p; }
      if sys.resizes {
        MapRegion(p, nb);
        SetRegion(p, MapSize(nb) - DIRECT_FOOT_PAD, false);
        return p;
      }
      r := 0;
    }

    lemma NothingSmall(idx: nat, nb: nat)
      requires Valid() && dvsize < nb && idx == nb / 8 && bins.treemap == {}
        && (forall j | idx <= j < NSMALLBINS :: j !in bins.smallmap)
      ensures NoneFits(blocks, nb)
    {
      hide HeapOk, Tagged, BinsOk, LinksOk, DirectOk;
      forall x | x in blocks && blocks[x].kind == Free ensures blocks[x].size < nb {
        if x != dv || dvsize == 0 {
          assert x in Spare(blocks, DvSet(dv, dvsize));
          Bounds(blocks, segs, top, x);
          Marks(bins.trees, bins.small, bins.mem, bins.roots, bins.treemap, bins.smallmap,
            Spare(blocks, DvSet(dv, dvsize)), x);
        }
      }
    }

    lemma NothingLarge(nb: nat)
      requires Valid() && nb >= 256 && bins.treemap == {}
      ensures (nb <= dvsize ==> BestFit(blocks, dv, nb)) && (dvsize < nb ==> NoneFits(blocks, nb))
    {
      hide HeapOk, Tagged, BinsOk, LinksOk, DirectOk;
      forall x | x in blocks && blocks[x].kind == Free && (x != dv || dvsize == 0) ensures blocks[x].size < 256 {
        assert x in Spare(blocks, DvSet(dv, dvsize));
        Bounds(blocks, segs, top, x);
        Marks(bins.trees, bins.small, bins.mem, bins.roots, bins.treemap, bins.smallmap,
          Spare(blocks, DvSet(dv, dvsize)), x);
      }
    }

    lemma TooLargeForAll(nb: nat)
      requires Valid() && nb >= TERA
      ensures dvsize < nb && topsize < nb && NoneFits(blocks, nb)
    {
      hide HeapOk, Tagged, BinsOk, LinksOk, DirectOk;
      DvBounds(blocks, segs, top, dv, dvsize);
      Bounds(blocks, segs, top, top);
      forall x | x in blocks ensures blocks[x].size < nb { Bounds(blocks, segs, top, x); }
    }

    /** `lj_alloc_malloc`: a chunk for `nsize` bytes, or 0. */
    method Malloc(nsize: nat, sys: System) returns (mem: int)
      requires Valid() && nsize <= MAX_SIZE_T && SysOk(segs, direct, sys, ChunkFor(nsize))
      modifies this`dv, this`dvsize, this`top, this`topsize, this`segs, this`links, this`trimCheck, this`blocks,
        this`direct, this`kept, this`mapped, this`mark, bins
      ensures Valid() && mem >= 0 && Untouched(old(InUse()), old(bins.mem), bins.mem)
      ensures mem == 0 ==> InUse() == old(InUse()) && segs == old(segs) && NoGrant(sys, ChunkFor(nsize))
      ensures mem == 0 ==> NoneFits(old(blocks), ChunkFor(nsize)) && old(topsize) <= ChunkFor(nsize)
      ensures mem != 0 ==>
        nsize < MAX_REQUEST && Gained(old(InUse()), InUse(), mem - 16, ChunkFor(nsize), mem - 16 in direct)
      ensures mem != 0 && mem - 16 in direct ==> NewRegion(old(direct), direct, mem - 16, ChunkFor(nsize))
      ensures segs == old(segs) || Grew(old(segs), segs, Segment(sys.pages, SysSize(ChunkFor(nsize))))
      ensures mem != 0 && nsize > MAX_SMALL_REQUEST && !NoneFits(old(blocks), ChunkFor(nsize)) ==>
        BestFit(old(blocks), mem - 16, ChunkFor(nsize))
    {
      hide HeapOk, BinsOk, Tagged, Spare, Lives, Unmapped, SysSize, MapSize, Grew, NoneFits, BestFit, Untouched, Keeps,
           TagWrites, OnlyLinks, LinksOk, DirectOk, Directs, SysOk;
      ghost var live, was := Lent(), direct;
      KeepsAll(live);
      KeepsAll(Directs(direct));
      Watch(live, Directs(direct));
      mem := Obtain(nsize, sys);
      UntouchedUnion(live, Directs(was), old(bins.mem), bins.mem);
      if mem != 0 {
        if direct == was {
          LentIs(mem - 16);
          NotMapped(mem - 16);
          UseMore(live, Lent(), direct, mem - 16, ChunkFor(nsize));
        } else {
          UseMapped(live, was, direct, mem - 16, ChunkFor(nsize)) by {
            if mem - 16 in live { LentIs(mem - 16); NotMapped(mem - 16); }
          }
        }
      }
    }

    lemma LentIs(p: int)
      requires p in Lent()
      ensures p in blocks
    {
    }

    /** The search of `lj_alloc_malloc`. */
    method Obtain(nsize: nat, sys: System) returns (mem: int)
      requires Valid() && nsize <= MAX_SIZE_T && SysOk(segs, direct, sys, ChunkFor(nsize)) && Sparing()
      modifies this`dv, this`dvsize, this`top, this`topsize, this`segs, this`links, this`trimCheck, this`blocks,
        this`direct, bins
      ensures Valid() && Sparing() && mem >= 0
      ensures mem == 0 ==>
        Lent() == old(Lent()) && direct == old(direct) && segs == old(segs) && NoGrant(sys, ChunkFor(nsize))
      ensures mem == 0 ==> NoneFits(old(blocks), ChunkFor(nsize)) && old(topsize) <= ChunkFor(nsize)
      ensures mem != 0 ==>
        nsize < MAX_REQUEST
        && if direct == old(direct) then Gained(old(Lent()), Lent(), mem - 16, ChunkFor(nsize), false)
          else Lent() == old(Lent()) && NewRegion(old(direct), direct, mem - 16, ChunkFor(nsize))
      ensures segs == old(segs) || Grew(old(segs), segs, Segment(sys.pages, SysSize(ChunkFor(nsize))))
      ensures mem != 0 && nsize > MAX_SMALL_REQUEST && !NoneFits(old(blocks), ChunkFor(nsize)) ==>
        BestFit(old(blocks), mem - 16, ChunkFor(nsize))
    {
      hide HeapOk, BinsOk, Tagged, Spare, Lives, Unmapped, SysSize, MapSize, Grew, NoneFits, BestFit, Untouched, Keeps,
           TagWrites, OnlyLinks, LinksOk, DirectOk, SysOk, Sparing;
      var nb := ChunkFor(nsize);
      ChunkForOk(nsize);
      DvBounds(blocks, segs, top, dv, dvsize);
      if nsize <= MAX_SMALL_REQUEST {
        var idx := SmallIndex(nb);
        if idx in bins.smallmap || idx + 1 in bins.smallmap {
          var i := if idx in bins.smallmap then idx else idx + 1;
          var p := MallocSmall(i, nb);
          return p + 16;
        } else if nb > dvsize {
          var i := LowestBit(bins.smallmap, idx + 1);
          if i < NSMALLBINS {
            var p := MallocSmall(i, nb);
            return p + 16;
          } else if bins.treemap != {} {
            var p := TmallocSmall(nb);
            return p + 16;
          }
          NothingSmall(idx, nb);
        }
      } else if nsize < MAX_REQUEST {
        if bins.treemap != {} {
          var p := TmallocLarge(nb);
          if p != 0 { return p + 16; }
        } else {
          NothingLarge(nb);
        }
      } else {
        TooLargeForAll(nb);
      }
      var p;
      if nb <= dvsize {
        p := MallocDv(nb);
      } else if nb < topsize {
        p := MallocTop(nb);
      } else {
        p := AllocSys(nb, sys);
        if p == 0 { return 0; }
      }
      mem := p + 16;
    }

    // ----- realloc

    /** `lj_alloc_realloc` on a chunk in use; 0 if it must move and there is no memory. */
    method Realloc(mem: int, nsize: nat, sys: System) returns (r: int)
      requires Valid() && mem - 16 in InUse() && nsize <= MAX_SIZE_T && SysOk(segs, direct, sys, ChunkFor(nsize))
        && ResizeOk(segs, direct, sys, mem - 16, ChunkFor(nsize))
      modifies this, bins
      ensures Valid() && Reallocated(old(InUse()), InUse(), mem, r, nsize, r - 16 in direct)
      ensures BytesKept(old(InUse()), old(bytes), bytes) && (r == 0 || r == mem ==> bytes == old(bytes))
      ensures Untouched(Both(old(InUse()), InUse()), old(bins.mem), bins.mem)
      ensures r != 0 && r != mem ==> BytesMoved(old(InUse()), old(bytes), bytes, mem, r, nsize)
      ensures r == mem <==> nsize < MAX_REQUEST && old(StaysInPlace(mem - 16, ChunkFor(nsize), sys))
      ensures r == 0 && nsize < MAX_REQUEST ==>
        NoneFits(old(blocks), ChunkFor(nsize)) && old(topsize) <= ChunkFor(nsize) && NoGrant(sys, ChunkFor(nsize))
    {
      hide HeapOk, BinsOk, Tagged, Spare, Lives, Directs, Unmapped, SysSize, Grew, NoneFits, BestFit, Untouched, Keeps,
           TagWrites, OnlyLinks, BytesMoved, Both, LinksOk, DirectOk, MapSize, NoGrant, SysOk, Resized, Relocated;
      var p := mem - 16;
      Known(p);
      if nsize >= MAX_REQUEST {
        NothingWritten(InUse(), bins.mem);
        UntouchedTwice(InUse(), InUse(), bins.mem, bins.mem, bins.mem);
        return 0;
      }
      var oldsize := ChunkSize(At(bins.mem.head, p));
      var nb := RequestToSize(nsize);
      ChunkForOk(nsize);
      var isDirect, stays := IsDirect(p), false;
      if isDirect {
        stays := ResizeRegion(p, nb, sys);
      } else {
        stays := ResizeLent(p, nb, sys);
      }
      if stays { return mem; }
      r := Relocate(mem, nsize, oldsize - (if isDirect then DIRECT_CHUNK_OVERHEAD else SIZE_T_SIZE), sys);
    }

    /** A chunk of a segment is cut, or left as it is, or grows into the top chunk, if one of that is enough. */
    method ResizeLent(p: int, nb: nat, sys: System) returns (ok: bool)
      requires Valid() && p in Lent() && p in InUse() && nb % 8 == 0 && nb >= MIN_CHUNK_SIZE
      modifies this`dv, this`dvsize, this`top, this`topsize, this`segs, this`links, this`blocks, this`trimCheck,
        this`releaseChecks, this`direct, this`kept, this`mapped, this`mark, bins
      ensures Valid() && (ok <==> old(StaysInPlace(p, nb, sys))) && direct == old(direct)
      ensures !ok ==>
        blocks == old(blocks) && segs == old(segs) && topsize == old(topsize) && bins.mem == old(bins.mem)
      ensures ok ==>
        Resized(old(InUse()), InUse(), p, nb, false) && Untouched(Both(old(InUse()), InUse()), old(bins.mem), bins.mem)
    {
      hide HeapOk, BinsOk, Tagged, Spare, Lives, Directs, Untouched, Keeps, TagWrites, OnlyLinks, Both, LinksOk,
           DirectOk;
      ghost var live, m0 := Lent(), bins.mem;
      LiveAt(blocks, p);
      LiveTags(p);
      NotMapped(p);
      var oldsize := ChunkSize(At(bins.mem.head, p));
      var next := p + oldsize;
      ok := oldsize >= nb || (next == top && oldsize + topsize > nb);
      if oldsize >= nb {
        var rsize := oldsize - nb;
        if rsize >= MIN_CHUNK_SIZE {
          Shrink(p, nb, sys);
        } else {
          NothingWritten(InUse(), m0);
        }
      } else if ok {
        KeepsAll(live);
        KeepsAll(Directs(direct));
        Watch(live, Directs(direct));
        ExpandIntoTop(p, nb);
        UntouchedUnion(live, Directs(direct), m0, bins.mem);
      }
      if ok {
        UseResized(live, Lent(), direct, p, nb);
        EitherTwice(old(InUse()), InUse(), m0, bins.mem);
      }
    }

    /** A chunk in a region of its own is left as it is, or the region is resized. */
    method ResizeRegion(p: int, nb: nat, sys: System) returns (ok: bool)
      requires Valid() && p in direct && p in InUse() && nb % 8 == 0 && nb >= MIN_CHUNK_SIZE && nb + 55 < WORD
        && ResizeOk(segs, direct, sys, p, nb)
      modifies this`direct, this`kept, this`mapped, this`mark, bins`mem
      ensures Valid() && (ok <==> old(StaysInPlace(p, nb, sys)))
      ensures !ok ==> direct == old(direct) && bins.mem == old(bins.mem)
      ensures ok ==>
        p in direct && Resized(old(InUse()), InUse(), p, nb, true)
        && Untouched(Both(old(InUse()), InUse()), old(bins.mem), bins.mem)
    {
      hide HeapOk, BinsOk, Tagged, Spare, Lives, Untouched, Keeps, TagWrites, OnlyLinks, Both, LinksOk, DirectOk,
           MapSize,
           Unmapped, Away;
      Known(p);
      ghost var live, was, m0 := Lent(), direct, bins.mem;
      MapSizeFits(nb);
      ghost var least := SmallerRegion(direct[p], nb, sys.resizes);
      KeepsAll(live);
      KeepsPart(Directs(direct), p, least);
      Watch(live, Directs(direct)[p := least]);
      var r := DirectResize(p, nb, sys);
      ok := r != 0;
      if ok {
        UseRemapped(live, was, direct, p, nb, sys.resizes);
        UntouchedUnion(live, Directs(was)[p := least], m0, bins.mem);
        LeastOfBoth(live, was, direct, p, least);
        FewerUntouched(live + Directs(was)[p := least], Both(old(InUse()), InUse()), m0, bins.mem);
      }
    }

    /** What is behind the first `nb` bytes of a chunk in use is cut off and freed. */
    method Shrink(p: int, nb: nat, sys: System)
      requires Valid() && p in Lent() && Carves(blocks, p, nb)
      modifies this`dv, this`dvsize, this`top, this`topsize, this`segs, this`links, this`blocks, this`trimCheck,
        this`releaseChecks, this`kept, this`mapped, this`mark, bins
      ensures Valid() && Lent() == old(Lent())[p := nb] && Untouched(InUse(), old(bins.mem), bins.mem)
    {
      hide HeapOk, BinsOk, Tagged, Spare, Lives, Directs, Untouched, Keeps, OnlyLinks, LinksOk, DirectOk;
      ghost var live, m0, rsize := Lent(), bins.mem, blocks[p].size - nb;
      LiveAt(blocks, p);
      LiveTags(p);
      KeepsPart(live, p, nb);
      KeepsAll(Directs(direct));
      Watch(live[p := nb], Directs(direct));
      CutOff(p, nb);
      LivesCut(live, p, nb, rsize);
      NotKept(kept, live, p + nb) by { KeepsPart(live, p, nb); }
      FreeLent(p + nb, sys);
      UntouchedUnion(live[p := nb], Directs(direct), m0, bins.mem);
    }

    /** The first `n` bytes go to a chunk that was not in use before; nothing else changes. */
    method CopyPayload(dst: int, src: int, n: nat, ghost live: map<int, nat>)
      requires Valid() && src - 16 in live && n + 8 <= live[src - 16]
      requires dst - 16 in InUse() && dst - 16 !in live && n + 8 <= InUse()[dst - 16]
        && InUse() == live[dst - 16 := InUse()[dst - 16]]
      modifies this`bytes
      ensures BytesKept(live, old(bytes), bytes)
      ensures forall k | 0 <= k < n :: ByteAt(bytes, dst, k) == ByteAt(old(bytes), src, k)
    {
      hide Valid, Lives, Directs;
      forall c | c in live ensures InUse()[c] == live[c] && (dst + n <= c + 16 || c + live[c] + 8 <= dst) {
        PayloadsApart(dst - 16, c);
      }
      MoveBytes(dst, src, n);
    }

    /** A new chunk, with what fits of the old one's bytes, in place of the old one; 0 if there is none. */
    method Relocate(mem: int, nsize: nat, oc: nat, sys: System) returns (r: int)
      requires mem - 16 in InUse() && oc + 8 == InUse()[mem - 16]
      requires Valid() && nsize < MAX_REQUEST && SysOk(segs, direct, sys, ChunkFor(nsize))
      modifies this, bins
      ensures Valid() && Reallocated(old(InUse()), InUse(), mem, r, nsize, r - 16 in direct) && r != mem
      ensures BytesKept(old(InUse()), old(bytes), bytes) && (r == 0 ==> bytes == old(bytes))
      ensures Untouched(Both(old(InUse()), InUse()), old(bins.mem), bins.mem)
      ensures r != 0 ==> BytesMoved(old(InUse()), old(bytes), bytes, mem, r, nsize)
      ensures r == 0 ==>
        NoneFits(old(blocks), ChunkFor(nsize)) && old(topsize) <= ChunkFor(nsize) && NoGrant(sys, ChunkFor(nsize))
    {
      hide HeapOk, BinsOk, Tagged, Spare, Lives, Directs, Unmapped, SysSize, Grew, NoneFits, BestFit, Untouched, Both,
           LinksOk, DirectOk, MapSize, NoGrant, SysOk, NewRegion, Shrank;
      var p := mem - 16;
      ghost var live, m0 := InUse(), bins.mem;
      Known(p);
      var newmem := Malloc(nsize, sys);
      ghost var m1 := bins.mem;
      if newmem == 0 {
        NothingWritten(live, m1);
        UntouchedTwice(live, live, m0, m1, m1);
        return 0;
      }
      r := newmem;
      CopyPayload(newmem, mem, if oc < nsize then oc else nsize, live);
      LivesSwap(live, p, newmem - 16, InUse()[newmem - 16]);
      ghost var isDirect := newmem - 16 in direct;
      FreeChunk(mem, sys);
      UntouchedTwice(live, InUse(), m0, m1, bins.mem);
    }

    /** A chunk of a segment is large enough, or the top chunk is right behind it and together they are larger than
        `nb`; a region keeps its size, or the system resizes it where it is. */
    ghost predicate StaysInPlace(p: int, nb: nat, sys: System)
      reads this`blocks, this`top, this`topsize, this`direct
    {
      if p in direct then !IsSmall(nb) && (KeepsRegionSize(direct[p], nb) || sys.resizes)
      else p in blocks && (blocks[p].size >= nb || (Next(blocks, p) == top && blocks[p].size + topsize > nb))
    }

    lemma LiveTags(p: int)
      requires Valid() && p in blocks && blocks[p].kind == Live
      ensures ChunkSize(At(bins.mem.head, p)) == blocks[p].size >= MIN_CHUNK_SIZE && blocks[p].size % 8 == 0 && p > 0
      ensures p + blocks[p].size in blocks && (p + blocks[p].size == top ==> blocks[top].kind == Top)
    {
      hide HeapOk, BinsOk, Tagged, LinksOk, DirectOk;
      Reads(DvSet(dv, dvsize), p);
      LiveFields(blocks, segs, top, p);
    }

    /** Chunks in use do not overlap, nor does what they hold. */
    lemma PayloadsApart(a: int, c: int)
      requires Valid() && a in InUse() && c in InUse() && a != c
      ensures a + InUse()[a] <= c || c + InUse()[c] <= a
    {
      hide HeapOk, Tagged, BinsOk, DirectOk, LinksOk;
      Known(a);
      Known(c);
      if a in direct && c in direct {
        RegionsApart(direct, segs, bins.mem.head, bins.mem.foot, a, c);
      } else if a in direct {
        FarFrom(blocks, segs, top, direct, bins.mem.head, bins.mem.foot, a, c);
      } else if c in direct {
        FarFrom(blocks, segs, top, direct, bins.mem.head, bins.mem.foot, c, a);
      } else {
        ChunksApart(blocks, segs, top, a, c);
      }
    }

    /** The chunk is cut to `nb`; the rest is a chunk in use, too. */
    method CutOff(p: int, nb: nat)
      requires Valid() && p in blocks && Carves(blocks, p, nb)
      requires Sparing() && (p in kept ==> kept[p] <= nb)
      modifies this`blocks, bins`mem
      ensures Valid() && p + nb !in old(Lent()) && Lent() == old(Lent())[p := nb][p + nb := old(blocks)[p].size - nb]
      ensures Sparing()
    {
      hide HeapOk, BinsOk, Tagged, Spare, Lives, SetPinuse, Pinuse, Head, Untouched, Keeps, TagWrites, OnlyLinks,
           LinksOk, DirectOk;
      ghost var off := DvSet(dv, dvsize);
      LiveFields(blocks, segs, top, p);
      LiveTags(p);
      Bounds(blocks, segs, top, Next(blocks, p));
      CarveHeap(blocks, segs, top, p, nb);
      LivesCarve(blocks, p, nb);
      TagCarve(blocks, bins.mem.head, bins.mem.foot, p, nb);
      TopThere(blocks, segs, top);
      DvCarved(blocks, p, nb, dv, dvsize);
      var s := ChunkSize(At(bins.mem.head, p));
      var rem := p + nb;
      var head := bins.mem.head[p := Head(nb, true, Pinuse(At(bins.mem.head, p)))];
      head := head[rem := SetPinuse(At(head, rem))];
      head := head[rem := Head(s - nb, true, Pinuse(At(head, rem)))];
      head := head[p + s := SetPinuse(At(head, p + s))];
      CarveWrites(blocks, top, bins.mem, head, p, nb);
      KeepsMore(kept, Lent(), p + nb, s - nb);
      KeepsMore(kept, Lent()[p + nb := s - nb], p, nb);
      assert Lent()[p := nb][p + nb := s - nb] == Lent()[p + nb := s - nb][p := nb];
      CommitAll(Carve(blocks, p, nb), segs, top, off, off, head, bins.mem.foot);
    }

    /** The chunk grows into the top chunk behind it. */
    method ExpandIntoTop(p: int, nb: nat)
      requires Valid() && p in blocks && Moves(blocks, p, nb)
      requires Sparing()
      modifies this`blocks, this`top, this`topsize, bins`mem
      ensures Valid() && Lent() == old(Lent())[p := nb]
      ensures Sparing()
    {
      hide HeapOk, BinsOk, Tagged, Spare, Lives, SetPinuse, Pinuse, Head, Untouched, Keeps, TagWrites, OnlyLinks,
           LinksOk, DirectOk;
      ghost var off := DvSet(dv, dvsize);
      LiveFields(blocks, segs, top, p);
      LiveTags(p);
      OnlyTop(blocks, segs, top, Next(blocks, p));
      TopMoveHeap(blocks, segs, top, p, nb);
      LivesMove(blocks, p, nb);
      TagMove(blocks, bins.mem.head, bins.mem.foot, p, nb);
      DvMovedTop(blocks, p, nb, dv, dvsize);
      ghost var b' := TopMove(blocks, p, nb);
      var newtopsize := ChunkSize(At(bins.mem.head, p)) + topsize - nb;
      var newtop := p + nb;
      var head := bins.mem.head[p := Head(nb, true, Pinuse(At(bins.mem.head, p)))];
      head := head[newtop := SetPinuse(At(head, newtop))];
      head := head[newtop := Head(newtopsize, false, true)];
      top := newtop;
      topsize := newtopsize;
      HeadsWritten(b', top, bins.mem, head, p, newtop);
      LiveThere(blocks, p);
      KeepsGrown(kept, Lent(), p, nb);
      CommitAll(b', segs, top, off, off, head, bins.mem.foot);
    }

    /** `memcpy` between two chunks in use. */
    method MoveBytes(dst: int, src: int, n: nat)
      requires src + n <= dst || dst + n <= src
      modifies this`bytes
      ensures forall k | 0 <= k < n :: ByteAt(bytes, dst, k) == ByteAt(old(bytes), src, k)
      ensures forall a | !(dst <= a < dst + n) :: At(bytes, a) == At(old(bytes), a)
    {
      ghost var was := bytes;
      var i := 0;
      while i < n
        invariant i <= n
        invariant forall k | 0 <= k < i :: ByteAt(bytes, dst, k) == ByteAt(was, src, k)
        invariant forall a | !(dst <= a < dst + i) :: At(bytes, a) == At(was, a)
      {
        assert At(bytes, src + i) == ByteAt(was, src, i);
        bytes := bytes[dst + i := At(bytes, src + i)];
        i := i + 1;
      }
    }

    /** Writes headers and footers that go with a new tiling. */
    method CommitAll(ghost b': Blocks, ghost segs': seq<Segment>, ghost top': int, ghost off: set<int>,
                     ghost off': set<int>, head: Words, foot: Words)
      requires HeapOk(b', segs', top') && Tagged(b', head, foot)
      requires Tagged(blocks, bins.mem.head, bins.mem.foot) && bins.Holds(Spare(blocks, off))
      requires Spare(b', off') == Spare(blocks, off)
      requires Sparing() && segs' == segs && top' in b' && Keeps(kept, Lives(b'))
        && TagWrites(b', top', bins.mem, head, foot)
      modifies this`blocks, bins`mem
      ensures blocks == b' && bins.mem == old(bins.mem).(head := head, foot := foot) && bins.Holds(Spare(b', off'))
      ensures Sparing()
    {
      hide HeapOk, BinsOk, Tagged, TaggedBut, Sparing, TagWrites, Keeps, Lives, LinksOk, DirectOk;
      assert 0 !in b' by { NullFree(b', segs', top'); }
      assert 0 !in Spare(blocks, off) by { assert 0 !in Spare(b', off'); }
      AllButNone(blocks, bins.mem.head, bins.mem.foot, 0);
      AllButNone(b', head, foot, 0);
      Commit(b', segs', top', off, off', head, foot, 0);
    }

    lemma TagsSpare(b': Blocks, segs': seq<Segment>, top': int, head: Words, foot: Words)
      requires HeapOk(b', segs', top') && top' in b' && Keeps(kept, Lives(b')) && Sparing() && segs' == segs
        && TagWrites(b', top', bins.mem, head, foot)
      ensures var mem' := bins.mem.(head := head, foot := foot);
        Untouched(kept, mark, mem') && Untouched(mapped, mark, mem') && DirectOk(direct, segs, head, foot)
    {
      hide Untouched, TagWrites, Keeps, DirectOk, Tiled, SegsOk;
      BehindTop(b', segs', top');
      TagsUntouched(b', top', kept, bins.mem, head, foot);
      UntouchedBoth(kept, mark, bins.mem, bins.mem.(head := head, foot := foot));
      DirectTags(b', segs', top', direct, mapped, bins.mem, head, foot);
      UntouchedBoth(mapped, mark, bins.mem, bins.mem.(head := head, foot := foot));
    }

    /** The same for headers only, when the top chunk and the segments have been set. */
    method CommitHeads(ghost b': Blocks, ghost off: set<int>, head: Words, ghost loose: int)
      requires HeapOk(b', segs, top) && LinksOk(segs, links) && top in b' && topsize == b'[top].size
        && TaggedBut(b', head, bins.mem.foot, loose)
      requires TaggedBut(blocks, bins.mem.head, bins.mem.foot, loose) && bins.Holds(Spare(blocks, off))
        && loose !in Spare(blocks, off)
      requires Spare(b', off) == Spare(blocks, off)
      requires Sparing() && Keeps(kept, Lives(b')) && TagWrites(b', top, bins.mem, head, bins.mem.foot)
      modifies this`blocks, bins`mem
      ensures blocks == b' && Nearly(off, loose) && Sparing()
    {
      hide HeapOk, BinsOk, TaggedBut, Untouched, TagWrites, Keeps, Lives, Spare, LinksOk, DirectOk;
      Commit(b', segs, top, off, off, head, bins.mem.foot, loose);
    }

    /** Writes headers and footers that go with a new tiling; those of `loose` are not settled yet. */
    method Commit(ghost b': Blocks, ghost segs': seq<Segment>, ghost top': int, ghost off: set<int>,
                  ghost off': set<int>, head: Words, foot: Words, ghost loose: int)
      requires HeapOk(b', segs', top') && TaggedBut(b', head, foot, loose)
      requires TaggedBut(blocks, bins.mem.head, bins.mem.foot, loose) && bins.Holds(Spare(blocks, off))
        && loose !in Spare(blocks, off)
      requires Spare(b', off') == Spare(blocks, off)
      requires Sparing() && segs' == segs && top' in b' && Keeps(kept, Lives(b'))
        && TagWrites(b', top', bins.mem, head, foot)
      modifies this`blocks, bins`mem
      ensures blocks == b' && bins.mem == old(bins.mem).(head := head, foot := foot) && bins.Holds(Spare(b', off'))
      ensures Sparing()
    {
      hide HeapOk, BinsOk, Tiled, TaggedBut, Untouched, TagWrites, Keeps, Lives, Spare, LinksOk, DirectOk;
      ghost var f := Spare(blocks, off);
      SpareSizes(blocks, off);
      SpareSizes(b', off');
      TiledOf(b', segs', top');
      Retag(bins.trees, bins.small, bins.mem, bins.roots, bins.treemap, bins.smallmap, f, blocks, b', head, foot,
        loose);
      TagsSpare(b', segs', top', head, foot);
      bins.mem := bins.mem.(head := head, foot := foot);
      blocks := b';
    }
  }

  lemma ChunksApart(b: Blocks, segs: seq<Segment>, top: int, a: int, c: int)
    requires HeapOk(b, segs, top) && a in b && c in b && a != c
    ensures Next(b, a) <= c || Next(b, c) <= a
  {
    hide BlockOk, SegsOk;
    if a < c { EndsDiffer(b, a, c); } else { EndsDiffer(b, c, a); }
  }

  lemma TiledOf(b: Blocks, segs: seq<Segment>, top: int)
    requires HeapOk(b, segs, top)
    ensures Tiled(b)
  {
    hide Tiled, SegsOk;
  }
}
