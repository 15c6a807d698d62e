/** Where the words of chunks lie, and that writing them spares the bytes of the chunks handed out. */
module AllocPayloads {
  import opened AllocSizes
  import opened AllocRings
  import opened AllocHeap
  import opened AllocSegments
  import opened AllocMapping
  import opened AllocTags
  import opened AllocIndex
  import opened AllocGrants

  /** The bytes a chunk in use offers: behind its header, up to and including the foot of its successor. */
  predicate InPayload(a: int, z: nat, x: int) { a + 16 <= x < a + z + 8 }

  /** None of the `n` bytes from `x` on belongs to what the chunks of `kept` offer. */
  ghost predicate Beside(kept: map<int, nat>, x: int, n: nat)
  {
    forall c, y | c in kept && x <= y < x + n :: !InPayload(c, kept[c], y)
  }

  /** Every word of a chunk that differs lies beside what the chunks of `kept` offer. The foot of a chunk comes first,
      then its header, its two links in a ring, and its children, parent and bin. */
  ghost predicate Untouched(kept: map<int, nat>, mem: Mem, mem': Mem)
  {
    && (forall a | At(mem'.head, a) != At(mem.head, a) :: Beside(kept, a + 8, 8))
    && (forall a | At(mem'.foot, a) != At(mem.foot, a) :: Beside(kept, a, 8))
    && (forall a | a > 0 && (At(mem'.fd, a) != At(mem.fd, a) || At(mem'.bk, a) != At(mem.bk, a)) ::
      Beside(kept, a + 16, 16))
    && (forall a | a > 0 && !SameBranch(mem, mem', a) :: Beside(kept, a + 32, 32))
  }

  /** The chunks that are in both, as far as they are. */
  function Both(l: map<int, nat>, l': map<int, nat>): map<int, nat>
  {
    map c | c in l && c in l' :: if l[c] <= l'[c] then l[c] else l'[c]
  }

  ghost predicate Keeps(kept: map<int, nat>, l: map<int, nat>) { forall c | c in kept :: c in l && kept[c] <= l[c] }

  lemma UntouchedBoth(kept: map<int, nat>, m0: Mem, m1: Mem, m2: Mem)
    requires Untouched(kept, m0, m1) && Untouched(kept, m1, m2)
    ensures Untouched(kept, m0, m2)
  {
    hide Beside;
    forall a | a > 0 && !SameBranch(m0, m2, a) ensures Beside(kept, a + 32, 32) {
      assert !SameBranch(m0, m1, a) || !SameBranch(m1, m2, a);
    }
  }

  lemma FewerBeside(kept: map<int, nat>, kept': map<int, nat>, x: int, n: nat)
    requires Beside(kept, x, n) && Keeps(kept', kept)
    ensures Beside(kept', x, n)
  {
    forall c, y | c in kept' && x <= y < x + n ensures !InPayload(c, kept'[c], y) {
      assert !InPayload(c, kept[c], y);
    }
  }

  lemma FewerUntouched(kept: map<int, nat>, kept': map<int, nat>, mem: Mem, mem': Mem)
    requires Untouched(kept, mem, mem') && Keeps(kept', kept)
    ensures Untouched(kept', mem, mem')
  {
    hide Beside, SameBranch, Keeps;
    forall x, n | Beside(kept, x, n) ensures Beside(kept', x, n) { FewerBeside(kept, kept', x, n); }
  }

  /** What two calls leave alone, each for its own chunks. */
  lemma UntouchedTwice(l: map<int, nat>, l': map<int, nat>, m0: Mem, m1: Mem, m2: Mem)
    requires Untouched(l, m0, m1) && Untouched(l', m1, m2)
    ensures Untouched(Both(l, l'), m0, m2)
  {
    hide Untouched;
    FewerUntouched(l, Both(l, l'), m0, m1);
    FewerUntouched(l', Both(l, l'), m1, m2);
    UntouchedBoth(Both(l, l'), m0, m1, m2);
  }

  /** One call that leaves alone what is in use before, or after. */
  lemma EitherTwice(l: map<int, nat>, l': map<int, nat>, m0: Mem, m1: Mem)
    requires Untouched(l, m0, m1) || Untouched(l', m0, m1)
    ensures Untouched(Both(l, l'), m0, m1)
  {
    hide Untouched;
    if Untouched(l, m0, m1) {
      FewerUntouched(l, Both(l, l'), m0, m1);
    } else {
      FewerUntouched(l', Both(l, l'), m0, m1);
    }
  }

  lemma UntouchedUnion(k: map<int, nat>, m: map<int, nat>, m0: Mem, m1: Mem)
    requires Untouched(k, m0, m1) && Untouched(m, m0, m1)
    ensures Untouched(k + m, m0, m1)
  {
    hide Beside, SameBranch;
    forall x, n | Beside(k, x, n) && Beside(m, x, n) ensures Beside(k + m, x, n) { BesideUnion(k, m, x, n); }
  }

  lemma BesideUnion(k: map<int, nat>, m: map<int, nat>, x: int, n: nat)
    requires Beside(k, x, n) && Beside(m, x, n)
    ensures Beside(k + m, x, n)
  {
    hide InPayload;
  }

  // ----- headers and feet

  /** Only headers at chunk boundaries and feet of free chunks differ. */
  ghost predicate TagWrites(b: Blocks, top: int, mem: Mem, head: Words, foot: Words)
    requires top in b
  {
    && (forall a | At(head, a) != At(mem.head, a) :: a in b || a == Next(b, top))
    && (forall a | At(foot, a) != At(mem.foot, a) :: a in b && b[a].gap > 0)
  }

  lemma HeadsWritten(b: Blocks, top: int, mem: Mem, head: Words, p: int, q: int)
    requires top in b && (p in b || p == Next(b, top)) && (q in b || q == Next(b, top))
    requires forall a | a != p && a != q :: At(head, a) == At(mem.head, a)
    ensures TagWrites(b, top, mem, head, mem.foot)
  {
  }

  lemma FootWritten(b: Blocks, top: int, mem: Mem, head: Words, n: int, v: int)
    requires top in b && TagWrites(b, top, mem, head, mem.foot) && n in b && b[n].gap > 0
    ensures TagWrites(b, top, mem, head, mem.foot[n := v])
  {
  }

  /** The headers that are written when a chunk in use is cut. */
  lemma CarveWrites(b: Blocks, top: int, mem: Mem, head: Words, p: int, nb: nat)
    requires p in b && nb <= b[p].size && top in Carve(b, p, nb) && Next(b, p) in b
    requires forall a | a != p && a != p + nb && a != Next(b, p) :: At(head, a) == At(mem.head, a)
    ensures TagWrites(Carve(b, p, nb), top, mem, head, mem.foot)
  {
  }

  /** The headers that are written when a segment is added. */
  lemma MovedWrites(b: Blocks, top: int, s: Segment, mem: Mem, head: Words)
    requires Retires(b, top) && s.size > TOP_FOOT_SIZE && s.base !in Retired(b, top)
      && FenceWords(b, mem.head, head, top, s)
    ensures s.base in Moved(b, top, s) && TagWrites(Moved(b, top, s), s.base, mem, head, mem.foot)
  {
    hide Retired, BlockOk, Retires;
    RetiresAt(b, top);
    var b' := Moved(b, top, s);
    forall a | At(head, a) != At(mem.head, a) ensures a in b' || a == Next(b', s.base) { RetiredAt(b, top, a); }
  }

  // ----- the chunks that are kept

  lemma NoneKept(l: map<int, nat>)
    ensures Keeps(map[], l)
  {
  }

  lemma KeepsAll(l: map<int, nat>)
    ensures Keeps(l, l)
  {
  }

  lemma KeepsOthers(l: map<int, nat>, p: int)
    ensures Keeps(l - {p}, l) && p !in l - {p}
  {
  }

  lemma NothingWritten(kept: map<int, nat>, mem: Mem)
    ensures Untouched(kept, mem, mem)
  {
  }

  lemma KeepsPart(l: map<int, nat>, p: int, z: nat)
    requires p in l && z <= l[p]
    ensures Keeps(l[p := z], l)
  {
  }

  lemma KeepsGrown(kept: map<int, nat>, l: map<int, nat>, p: int, z: nat)
    requires Keeps(kept, l) && p in l && l[p] <= z
    ensures Keeps(kept, l[p := z])
  {
  }

  lemma NotKept(kept: map<int, nat>, l: map<int, nat>, p: int)
    requires Keeps(kept, l) && p !in l
    ensures p !in kept
  {
  }

  lemma KeepsMore(kept: map<int, nat>, l: map<int, nat>, p: int, z: nat)
    requires Keeps(kept, l) && (p !in l || (p in kept ==> kept[p] <= z))
    ensures Keeps(kept, l[p := z])
  {
  }

  lemma KeepsFewer(kept: map<int, nat>, l: map<int, nat>, p: int)
    requires Keeps(kept, l) && p !in kept
    ensures Keeps(kept, l - {p})
  {
  }

  lemma HeadBeside(b: Blocks, top: int, kept: map<int, nat>, a: int)
    requires Tiled(b) && top in b && b[top].kind == Top && Keeps(kept, Lives(b)) && (a in b || a == Next(b, top))
    ensures Beside(kept, a + 8, 8)
  {
    hide BlockOk;
    forall c, y | c in kept && a + 8 <= y < a + 16 ensures !InPayload(c, kept[c], y) {
      var d := if a in b then a else top;
      EndsDiffer(b, c, d);
      EndsDiffer(b, d, c);
    }
  }

  lemma FootBeside(b: Blocks, kept: map<int, nat>, a: int)
    requires Tiled(b) && Keeps(kept, Lives(b)) && a in b && b[a].gap > 0
    ensures Beside(kept, a, 8)
  {
    forall c, y | c in kept && a <= y < a + 8 ensures !InPayload(c, kept[c], y) {
      BeforeGap(b, a, c);
    }
  }

  /** A chunk in use does not reach up to a chunk whose predecessor is free. */
  lemma BeforeGap(b: Blocks, a: int, c: int)
    requires Tiled(b) && a in b && b[a].gap > 0 && c in b && b[c].kind == Live
    ensures c < a ==> Next(b, c) + 8 <= a
  {
    hide BlockOk;
    BlockFields(b, a);
    EndsDiffer(b, c, a);
    EndsDiffer(b, c, a - b[a].gap);
  }

  lemma TagsUntouched(b: Blocks, top: int, kept: map<int, nat>, mem: Mem, head: Words, foot: Words)
    requires Tiled(b) && top in b && b[top].kind == Top && Keeps(kept, Lives(b)) && TagWrites(b, top, mem, head, foot)
    ensures Untouched(kept, mem, mem.(head := head, foot := foot))
  {
    hide Beside, Keeps, Tiled, Lives;
    forall a | At(head, a) != At(mem.head, a) ensures Beside(kept, a + 8, 8) { HeadBeside(b, top, kept, a); }
    forall a | At(foot, a) != At(mem.foot, a) ensures Beside(kept, a, 8) { FootBeside(b, kept, a); }
    forall a ensures SameBranch(mem, mem.(head := head, foot := foot), a) { }
  }

  // ----- links

  lemma LinksBeside(b: Blocks, kept: map<int, nat>, a: int)
    requires Tiled(b) && Keeps(kept, Lives(b)) && a in b && b[a].kind == Free
    ensures Beside(kept, a + 16, 16) && (b[a].size >= 64 ==> Beside(kept, a + 32, 32))
  {
    hide BlockOk;
    AfterFree(b, a);
    forall c, y | c in kept && a + 16 <= y < a + b[a].size ensures !InPayload(c, kept[c], y) {
      EndsDiffer(b, c, a);
      EndsDiffer(b, a, c);
    }
  }

  /** The bins write into the chunks they hold. */
  lemma LinksUntouched(b: Blocks, off: set<int>, kept: map<int, nat>, mem: Mem, mem': Mem)
    requires Tiled(b) && Keeps(kept, Lives(b)) && OnlyLinks(Spare(b, off), mem, mem')
    ensures Untouched(kept, mem, mem')
  {
    hide Beside, Keeps, Tiled, Lives, SameBranch;
    forall a | a in Spare(b, off)
      ensures Beside(kept, a + 16, 16) && (Spare(b, off)[a] >= 256 ==> Beside(kept, a + 32, 32))
    {
      LinksBeside(b, kept, a);
    }
  }
}
