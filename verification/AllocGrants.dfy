/** The words, the bins and the chunks handed out when memory comes in from the system. */
module AllocGrants {
  import opened Numbers
  import opened AllocSizes
  import opened AllocRings
  import opened AllocHeap
  import opened AllocSegments
  import opened AllocMapping
  import opened AllocTags

  /** How much is asked of the system for a chunk of `nb` bytes; wraps around for the largest requests. */
  function SysSize(nb: nat): nat { GranularityAlign((nb + TOP_FOOT_SIZE + 1) % WORD) }

  /** When the size did not wrap, there is room for the chunk, a top chunk and the record of the segment. */
  lemma SysSizeFits(nb: nat)
    requires nb <= MAX_SIZE_T && SysSize(nb) > nb
    ensures SysSize(nb) >= nb + TOP_FOOT_SIZE + 1 && SysSize(nb) % DEFAULT_GRANULARITY == 0
  {
    var req := (nb + TOP_FOOT_SIZE + 1) % WORD;
    AlignUp(req);
    if nb + TOP_FOOT_SIZE + 1 >= WORD {
      DivUnique(nb + TOP_FOOT_SIZE + 1, WORD, 1, nb + TOP_FOOT_SIZE + 1 - WORD);
    } else {
      DivUnique(nb + TOP_FOOT_SIZE + 1, WORD, 0, nb + TOP_FOOT_SIZE + 1);
    }
  }

  lemma AlignUp(s: nat)
    requires s < WORD
    ensures GranularityAlign(s) % DEFAULT_GRANULARITY == 0
    ensures s + DEFAULT_GRANULARITY - 1 < WORD ==> s <= GranularityAlign(s) < s + DEFAULT_GRANULARITY
    ensures s + DEFAULT_GRANULARITY - 1 >= WORD ==> GranularityAlign(s) == 0
  {
    var x := s + DEFAULT_GRANULARITY - 1;
    if x < WORD { DivUnique(x, WORD, 0, x); } else { DivUnique(x, WORD, 1, x - WORD); }
    var k := x % WORD / DEFAULT_GRANULARITY;
    DivUnique(k * DEFAULT_GRANULARITY, DEFAULT_GRANULARITY, k, 0);
  }

  /** The addresses that belong to the heap. */
  ghost predicate Covered(segs: seq<Segment>, a: int) { exists i | 0 <= i < |segs| :: segs[i].base <= a < End(segs[i]) }

  /** The heap grew by exactly the pages granted. */
  ghost predicate Grew(segs: seq<Segment>, segs': seq<Segment>, s: Segment)
  {
    forall a :: Covered(segs', a) <==> Covered(segs, a) || s.base <= a < End(s)
  }

  lemma LongerGrew(segs: seq<Segment>, i: nat, extra: nat)
    requires i < |segs|
    ensures Grew(segs, Longer(segs, i, extra), Segment(End(segs[i]), extra))
  {
    var segs', s := Longer(segs, i, extra), Segment(End(segs[i]), extra);
    forall a ensures Covered(segs', a) <==> Covered(segs, a) || s.base <= a < End(s) {
      if Covered(segs', a) {
        var j: nat :| j < |segs'| && segs'[j].base <= a < End(segs'[j]);
        if a < End(segs[j]) { CoveredBy(segs, j, a); }
      }
      if Covered(segs, a) {
        var j: nat :| j < |segs| && segs[j].base <= a < End(segs[j]);
        CoveredBy(segs', j, a);
      }
      if s.base <= a < End(s) && a >= segs[i].base { CoveredBy(segs', i, a); }
      if s.base <= a < End(s) { CoveredBy(segs', i, a); }
    }
  }

  lemma CoveredBy(segs: seq<Segment>, i: nat, a: int)
    requires i < |segs| && segs[i].base <= a < End(segs[i])
    ensures Covered(segs, a)
  {
  }

  lemma EarlierGrew(segs: seq<Segment>, i: nat, extra: nat)
    requires i < |segs|
    ensures Grew(segs, Earlier(segs, i, extra), Segment(segs[i].base - extra, extra))
  {
    var segs', s := Earlier(segs, i, extra), Segment(segs[i].base - extra, extra);
    forall a ensures Covered(segs', a) <==> Covered(segs, a) || s.base <= a < End(s) {
      if Covered(segs', a) {
        var j: nat :| j < |segs'| && segs'[j].base <= a < End(segs'[j]);
        if a >= segs[j].base { CoveredBy(segs, j, a); }
      }
      if Covered(segs, a) {
        var j: nat :| j < |segs| && segs[j].base <= a < End(segs[j]);
        CoveredBy(segs', j, a);
      }
      if s.base <= a < End(s) { CoveredBy(segs', i, a); }
    }
  }

  lemma ConsGrew(segs: seq<Segment>, s: Segment)
    ensures Grew(segs, [s] + segs, s)
  {
    var segs' := [s] + segs;
    forall a ensures Covered(segs', a) <==> Covered(segs, a) || s.base <= a < End(s) {
      if Covered(segs', a) {
        var j: nat :| j < |segs'| && segs'[j].base <= a < End(segs'[j]);
        if j > 0 { CoveredBy(segs, j - 1, a); }
      }
      if Covered(segs, a) {
        var j: nat :| j < |segs| && segs[j].base <= a < End(segs[j]);
        CoveredBy(segs', j + 1, a);
      }
      if s.base <= a < End(s) { CoveredBy(segs', 0, a); }
    }
  }

  // ----- behind the top segment

  /** `init_top` on the longer top chunk. */
  lemma TagAppended(b: Blocks, head: Words, foot: Words, top: int, extra: nat)
    requires Tagged(b, head, foot) && top in b && b[top].kind == Top && b[top].gap == 0
      && top + b[top].size + extra !in b && b[top].size > 0
    ensures var z := b[top].size + extra;
      Tagged(Appended(b, top, extra), head[top := Head(z, false, true)][top + z := TOP_FOOT_SIZE], foot)
  {
  }

  lemma SpareAppended(b: Blocks, top: int, extra: nat, off: set<int>)
    requires top in b && b[top].kind == Top
    ensures Spare(Appended(b, top, extra), off) == Spare(b, off) && Lives(Appended(b, top, extra)) == Lives(b)
  {
  }

  /** Behind the top chunk nothing begins. */
  lemma BehindTop(b: Blocks, segs: seq<Segment>, top: int)
    requires HeapOk(b, segs, top)
    ensures top in b && b[top].kind == Top && b[top].gap == 0 && b[top].size > 0 && Next(b, top) !in b && top > 0
  {
    hide HeapOk;
    TopThere(b, segs, top);
    TopNoGap(b, segs, top);
    Bounds(b, segs, top, top);
    if Next(b, top) in b { TopAfter(b, segs, top, Next(b, top)); }
  }

  lemma TopNoGap(b: Blocks, segs: seq<Segment>, top: int)
    requires HeapOk(b, segs, top) && top in b && b[top].kind == Top
    ensures b[top].gap == 0
  {
    hide BlockOk, SegsOk;
    EndsDiffer(b, top, top);
    BlockFields(b, top);
  }

  // ----- in front of a segment

  lemma TagPrepended(b: Blocks, head: Words, foot: Words, base: int, nb: nat, extra: nat)
    requires Tagged(b, head, foot) && base !in b && base + nb !in b && 0 < nb <= extra
    ensures TaggedBut(Prepended(b, base, nb, extra), head[base := Head(nb, true, true)], foot, base + nb)
    ensures TaggedBut(b, head, foot, base + nb)
  {
  }

  lemma SparePrepended(b: Blocks, base: int, nb: nat, extra: nat, off: set<int>)
    requires base !in b && base + nb !in b && 0 < nb <= extra
    ensures Spare(Prepended(b, base, nb, extra), off) == Spare(b, off) && base + nb !in Spare(b, off)
    ensures Lives(Prepended(b, base, nb, extra)) == Lives(b)[base := nb][base + nb := extra - nb] && base !in Lives(b)
      && base + nb !in Lives(b)
  {
  }

  // ----- a segment of its own

  predicate FenceAddr(lo: int, hi: int, a: int) { lo <= a < hi && a % 8 == 0 }

  lemma NextFence(lo: int, p: int, a: int)
    requires lo <= p && p % 8 == 0
    ensures FenceAddr(lo, p + SIZE_T_SIZE, a) <==> FenceAddr(lo, p, a) || a == p
  {
    if p <= a < p + 8 && a % 8 == 0 {
      DivUnique(a, 8, p / 8, a - p);
    }
  }

  /** The record's header, the fenceposts' and the new top chunk's; the old top chunk keeps its own for now. */
  ghost predicate FenceWords(b: Blocks, head: Words, head': Words, top: int, s: Segment)
    requires top in b && s.size >= TOP_FOOT_SIZE
  {
    var csp, e := RecordAt(b, top), Next(b, top) + TOP_FOOT_SIZE;
    forall a :: At(head', a) ==
      if FenceAddr(csp + SEGMENT_RECORD_SIZE, e - SIZE_T_SIZE, a) then FENCEPOST_HEAD
      else if a == csp then Head(SEGMENT_RECORD_SIZE, true, true)
      else if a == End(s) - TOP_FOOT_SIZE then TOP_FOOT_SIZE
      else if a == s.base then Head(s.size - TOP_FOOT_SIZE, false, true)
      else At(head, a)
  }

  const FENCEPOST_HEAD := 11

  lemma BeyondTop(b: Blocks, top: int, a: int)
    requires Retires(b, top) && a in b && a != top
    ensures a < top || a >= Next(b, top) + TOP_FOOT_SIZE
  {
    hide BlockOk;
  }

  lemma TagMovedAt(b: Blocks, segs: seq<Segment>, head: Words, head': Words, foot: Words, top: int, s: Segment, a: int)
    requires Tagged(b, head, foot) && Retires(b, top) && s.size > TOP_FOOT_SIZE && FenceWords(b, head, head', top, s)
    requires s.base !in Retired(b, top) && End(s) - TOP_FOOT_SIZE !in Retired(b, top)
    requires a in Moved(b, top, s) && (RecordAt(b, top) == top || a != top)
    ensures TagOk(Moved(b, top, s)[a], At(head', a), At(foot, a))
  {
    hide Retired, BlockOk, Retires;
    RetiredAt(b, top, a) by { RetiresAt(b, top); }
    if a in b && a != top { TagAt(b, head, foot, a); BeyondTop(b, top, a); }
  }

  lemma TagMoved(b: Blocks, segs: seq<Segment>, head: Words, head': Words, foot: Words, top: int, s: Segment)
    requires HeapOk(b, segs, top) && Tagged(b, head, foot) && Unmapped(segs, s) && s.size > TOP_FOOT_SIZE && top in b
      && FenceWords(b, head, head', top, s)
    ensures TaggedBut(Moved(b, top, s), head', foot, if RecordAt(b, top) == top then 0 else top)
  {
    hide HeapOk, Tagged, Unmapped, Retires, FenceWords, Retired, NewTop;
    CanRetire(b, segs, top);
    AddSegmentHeap(b, segs, top, s);
    var b' := Moved(b, top, s);
    NewTopThere(Retired(b, top), s);
    BehindTop(b', [s] + segs, s.base);
    NullFree(b', [s] + segs, s.base);
    assert End(s) - TOP_FOOT_SIZE !in Retired(b, top) by { NewTopKeeps(Retired(b, top), s, End(s) - TOP_FOOT_SIZE); }
    forall a | a in b' && a != (if RecordAt(b, top) == top then 0 else top)
      ensures TagOk(b'[a], At(head', a), At(foot, a))
    {
      TagMovedAt(b, segs, head, head', foot, top, s, a);
    }
  }

  lemma NewTopThere(b: Blocks, s: Segment)
    requires s.size >= TOP_FOOT_SIZE
    ensures s.base in NewTop(b, s) && NewTop(b, s)[s.base] == Block(s.size - TOP_FOOT_SIZE, Top, 0)
  {
  }

  lemma NewTopKeeps(b: Blocks, s: Segment, a: int)
    requires s.size >= TOP_FOOT_SIZE && a !in NewTop(b, s)
    ensures a !in b
  {
  }

  lemma NullFree(b: Blocks, segs: seq<Segment>, top: int)
    requires HeapOk(b, segs, top)
    ensures 0 !in b
  {
    hide HeapOk;
    if 0 in b { Bounds(b, segs, top, 0); }
  }

  /** The old top chunk, unless the record covers it, is the only chunk that is live besides. */
  lemma SpareMoved(b: Blocks, top: int, s: Segment, off: set<int>)
    requires Retires(b, top) && s.size > TOP_FOOT_SIZE && s.base !in Retired(b, top)
    ensures Spare(Moved(b, top, s), off) == Spare(b, off) && top !in Lives(b) && top !in Spare(b, off)
    ensures Lives(Moved(b, top, s)) == if RecordAt(b, top) == top then Lives(b) else Lives(b)[top := b[top].size]
  {
    hide Retired, Retires, BlockOk;
    RetiresAt(b, top);
    var b' := Moved(b, top, s);
    forall a ensures a in b' <==> a in Retired(b, top) || a == s.base { }
    forall a ensures (a in Spare(b', off) <==> a in Spare(b, off)) && (a in Spare(b, off) ==> b'[a] == b[a])
      && (a in Lives(b') <==> a in Lives(b) || (a == top && RecordAt(b, top) != top))
      && (a in Lives(b) ==> b'[a] == b[a]) && (a == top && RecordAt(b, top) != top ==> b'[a].size == b[top].size)
    {
      RetiredAt(b, top, a);
    }
  }

  /** The old top chunk is followed by the record. */
  lemma OldTop(b: Blocks, top: int, s: Segment)
    requires Retires(b, top) && s.size > TOP_FOOT_SIZE && s.base !in Retired(b, top) && RecordAt(b, top) != top
    ensures var b', csp := Moved(b, top, s), RecordAt(b, top);
      top in b' && b'[top] == Block(b[top].size, Live, 0) && csp == Next(b, top) && csp in b'
        && b'[csp] == Block(SEGMENT_RECORD_SIZE, Own, 0)
  {
    hide Retired, Retires, BlockOk;
    RetiresAt(b, top);
    RetiredAt(b, top, top);
    RetiredAt(b, top, RecordAt(b, top));
  }
}
