/** What all bins together hold, and that the tree bins and the small bins do not get into each other's way. */
module AllocIndex {
  import opened AllocSizes
  import opened AllocRings
  import opened AllocTrees
  import opened AllocTries
  import opened AllocUnlink
  import opened AllocMembers
  import opened AllocSmall

  /** The chunks and their sizes: small ones in the small bin of their size, large ones in the trees. */
  ghost predicate Indexed(t: Trees, small: seq<seq<int>>, free: map<int, nat>)
  {
    && |small| == NSMALLBINS
    && (forall x :: x in t.node <==> x in free && free[x] >= 256)
    && (forall i, x {:trigger x in small[i]} | 0 <= i < NSMALLBINS :: x in small[i] <==> x in free && free[x] == 8 * i)
  }

  ghost predicate Sized(mem: Mem, free: map<int, nat>)
  {
    forall x | x in free :: x > 0 && SizeOf(mem, x) == free[x] && 32 <= free[x] < TERA && free[x] % 8 == 0
  }

  /** The bins hold exactly the chunks of `free`. */
  ghost predicate BinsOk(t: Trees, small: seq<seq<int>>, mem: Mem, roots: seq<int>, treemap: set<nat>,
                         smallmap: set<nat>, free: map<int, nat>)
  {
    TreesOk(t, mem, roots, treemap) && SmallOk(small, mem, smallmap) && Indexed(t, small, free) && Sized(mem, free)
  }

  /** The fields that only chunks in trees have agree. */
  predicate SameBranch(mem: Mem, mem': Mem, z: int)
  {
    SameNode(mem, mem', z) && At(mem'.index, z) == At(mem.index, z)
  }

  /** All fields of a chunk in a tree agree. */
  predicate SameFields(mem: Mem, mem': Mem, z: int)
  {
    SizeOf(mem', z) == SizeOf(mem, z) && SameBranch(mem, mem', z) && At(mem'.fd, z) == At(mem.fd, z)
      && At(mem'.bk, z) == At(mem.bk, z)
  }

  lemma NodeFields(tr: Trie, i: nat, q: Path, mem: Mem, mem': Mem, n: int)
    requires NodeAt(tr, i, q, mem, n) && SameFields(mem, mem', n)
    ensures NodeAt(tr, i, q, mem', n)
  {
    hide Covers, TreeIndex, SizeOf;
  }

  lemma FieldsNodes(t: Trees, mem: Mem, mem': Mem)
    requires Placed(t) && NodesOk(t, mem) && forall z | z in t.place :: SameFields(mem, mem', z)
    ensures NodesOk(t, mem')
  {
    hide NodeAt, Placed;
    forall n | n in t.place ensures NodeOk(t, mem', n) {
      assert NodeOk(t, mem, n);
      PlaceFacts(t, n);
      NodeFields(t.tries[t.place[n].0], t.place[n].0, t.place[n].1, mem, mem', n);
    }
  }

  lemma FieldsMembers(t: Trees, mem: Mem, mem': Mem)
    requires Placed(t) && RingsOk(t, mem) && forall z | z in t.node :: SameFields(mem, mem', z)
    ensures RingsOk(t, mem')
  {
    hide Ring, Placed, SizeOf, Kid;
    NodesAreMembers(t, mem);
    forall n | n in t.ring ensures Ring(mem'.fd, mem'.bk, t.ring[n]) {
      forall x | x in t.ring[n] ensures SameFields(mem, mem', x) { assert x in t.node; }
      RingFrame(mem.fd, mem.bk, t.ring[n], mem'.fd, mem'.bk);
    }
    forall x | x in t.node ensures MemberOk(t, mem', x) {
      assert MemberOk(t, mem, x);
    }
  }

  lemma TreesFrame(t: Trees, mem: Mem, roots: seq<int>, map_: set<nat>, mem': Mem)
    requires TreesOk(t, mem, roots, map_) && forall z | z in t.node :: SameFields(mem, mem', z)
    ensures TreesOk(t, mem', roots, map_)
  {
    hide Placed, NodesOk, RingsOk, RootsOk, SameFields;
    NodesAreMembers(t, mem);
    FieldsNodes(t, mem, mem');
    FieldsMembers(t, mem, mem');
  }

  /** Headers of chunks in no bin, and their boundary tags, do not matter. */
  lemma HeadsFrame(t: Trees, small: seq<seq<int>>, mem: Mem, roots: seq<int>, treemap: set<nat>, smallmap: set<nat>,
                   free: map<int, nat>, head: Words, foot: Words)
    requires BinsOk(t, small, mem, roots, treemap, smallmap, free)
      && forall z | z in free :: At(head, z) / 4 == At(mem.head, z) / 4
    ensures BinsOk(t, small, mem.(head := head, foot := foot), roots, treemap, smallmap, free)
  {
    hide TreesOk, SmallOk, Closed;
    TreesFrame(t, mem, roots, treemap, mem.(head := head, foot := foot));
    SmallFrame(small, mem, smallmap, mem.(head := head, foot := foot));
  }

  /** The trees changed, and only the links of chunks in them and of `x`. */
  ghost predicate TreeLinks(t: Trees, mem: Mem, mem': Mem, x: int)
  {
    && mem'.head == mem.head && mem'.foot == mem.foot
    && (forall z | z !in t.node && z != x :: At(mem'.fd, z) == At(mem.fd, z) && At(mem'.bk, z) == At(mem.bk, z))
    && (forall z | z > 0 && z !in t.node && z != x :: SameBranch(mem, mem', z))
  }

  /** Of the words of chunks, only links of those of `free` changed; a small chunk has no links but two. */
  ghost predicate OnlyLinks(free: map<int, nat>, mem: Mem, mem': Mem)
  {
    && mem'.head == mem.head && mem'.foot == mem.foot
    && (forall z | z > 0 && z !in free :: At(mem'.fd, z) == At(mem.fd, z) && At(mem'.bk, z) == At(mem.bk, z))
    && (forall z | z > 0 && !(z in free && free[z] >= 256) :: SameBranch(mem, mem', z))
  }

  lemma TreeLinksOnly(t: Trees, small: seq<seq<int>>, free: map<int, nat>, mem: Mem, mem': Mem, x: int, s: nat)
    requires Indexed(t, small, free) && TreeLinks(t, mem, mem', x) && s >= 256
    ensures OnlyLinks(free[x := s], mem, mem')
  {
    hide SameBranch;
  }

  lemma SmallLinksOnly(t: Trees, small: seq<seq<int>>, free: map<int, nat>, mem: Mem, mem': Mem, i: nat, x: int, s: nat)
    requires Indexed(t, small, free) && i < NSMALLBINS && OtherLinks(mem, mem', i, small[i], x)
    requires mem'.head == mem.head && mem'.foot == mem.foot && mem'.child == mem.child && mem'.parent == mem.parent
      && mem'.index == mem.index
    ensures OnlyLinks(free[x := s], mem, mem')
  {
  }

  lemma TreesSpareSmall(t: Trees, small: seq<seq<int>>, mem: Mem, roots: seq<int>, treemap: set<nat>,
                        smallmap: set<nat>, free: map<int, nat>, mem': Mem, x: int)
    requires BinsOk(t, small, mem, roots, treemap, smallmap, free) && TreeLinks(t, mem, mem', x) && x > 0
      && (x !in free || free[x] >= 256)
    ensures SmallOk(small, mem', smallmap)
  {
    hide TreesOk, Closed;
    forall i, z | 0 <= i < NSMALLBINS && z in Closed(i, small[i])
      ensures At(mem'.fd, z) == At(mem.fd, z) && At(mem'.bk, z) == At(mem.bk, z)
    {
      ClosedHas(i, small[i], z);
      assert z in small[i] ==> z in free && free[z] == 8 * i;
    }
    hide SmallOk;
    SmallFrame(small, mem, smallmap, mem');
  }

  lemma ClosedHas(i: nat, r: seq<int>, z: int)
    requires z in Closed(i, r)
    ensures z in r || z < 0
  {
  }

  lemma SizedSame(mem: Mem, free: map<int, nat>, mem': Mem)
    requires Sized(mem, free) && mem'.head == mem.head
    ensures Sized(mem', free)
  {
  }

  lemma SizedIn(mem: Mem, free: map<int, nat>, x: int, s: nat)
    requires Sized(mem, free) && x > 0 && SizeOf(mem, x) == s && 32 <= s < TERA && s % 8 == 0
    ensures Sized(mem, free[x := s])
  {
  }

  lemma SizedOut(mem: Mem, free: map<int, nat>, x: int)
    requires Sized(mem, free)
    ensures Sized(mem, free - {x})
  {
    hide SizeOf;
  }

  lemma IndexedWithout(t: Trees, small: seq<seq<int>>, free: map<int, nat>, i: nat, k: nat)
    requires Indexed(t, small, free) && i < NSMALLBINS && k < |small[i]| && Distinct(small[i])
    ensures small[i][k] in free && small[i][k] !in t.node
    ensures Indexed(t, small[i := small[i][..k] + small[i][k + 1..]], free - {small[i][k]})
  {
    hide Distinct;
    var x, r := small[i][k], small[i][..k] + small[i][k + 1..];
    var small', free' := small[i := r], free - {x};
    assert x in small[i];
    forall z ensures z in t.node <==> z in free' && free'[z] >= 256 { }
    forall j, z {:trigger z in small'[j]} | 0 <= j < NSMALLBINS
      ensures z in small'[j] <==> z in free' && free'[z] == 8 * j
    {
      if j == i { WithoutOne(small[i], k, z); }
      assert z in small[j] <==> z in free && free[z] == 8 * j;
    }
  }

  lemma IndexedIn(t: Trees, small: seq<seq<int>>, free: map<int, nat>, t': Trees, x: int, s: nat)
    requires Indexed(t, small, free) && x !in free && s >= 256 && t'.node.Keys == t.node.Keys + {x}
    ensures Indexed(t', small, free[x := s])
  {
    forall z
      ensures z in t'.node <==> z in free[x := s] && free[x := s][z] >= 256
    {
      assert z in t'.node <==> z in t'.node.Keys;
    }
  }

  lemma IndexedOut(t: Trees, small: seq<seq<int>>, free: map<int, nat>, t': Trees, x: int)
    requires Indexed(t, small, free) && x in free && free[x] >= 256 && t'.node.Keys == t.node.Keys - {x}
    ensures Indexed(t', small, free - {x})
  {
    forall z
      ensures z in t'.node <==> z in free - {x} && (free - {x})[z] >= 256
    {
      assert z in t'.node <==> z in t'.node.Keys;
    }
  }

  /** A large chunk is put into a tree. */
  lemma LargeIn(t: Trees, small: seq<seq<int>>, mem: Mem, roots: seq<int>, treemap: set<nat>, smallmap: set<nat>,
                free: map<int, nat>,
                t': Trees, mem': Mem, roots': seq<int>, treemap': set<nat>, x: int, s: nat)
    requires BinsOk(t, small, mem, roots, treemap, smallmap, free) && TreeLinks(t, mem, mem', x) && x > 0 && x !in free
    requires TreesOk(t', mem', roots', treemap') && t'.node.Keys == t.node.Keys + {x} && 256 <= s < TERA && s % 8 == 0
      && SizeOf(mem, x) == s
    ensures BinsOk(t', small, mem', roots', treemap', smallmap, free[x := s]) && OnlyLinks(free[x := s], mem, mem')
  {
    TreeLinksOnly(t, small, free, mem, mem', x, s);
    TreesSpareSmall(t, small, mem, roots, treemap, smallmap, free, mem', x);
    hide TreesOk, SmallOk, Indexed, Sized, SizeOf;
    IndexedIn(t, small, free, t', x, s);
    SizedIn(mem, free, x, s);
    SizedSame(mem, free[x := s], mem');
  }

  /** A large chunk is taken out of its tree. */
  lemma LargeOut(t: Trees, small: seq<seq<int>>, mem: Mem, roots: seq<int>, treemap: set<nat>, smallmap: set<nat>,
                 free: map<int, nat>,
                 t': Trees, mem': Mem, roots': seq<int>, treemap': set<nat>, x: int)
    requires BinsOk(t, small, mem, roots, treemap, smallmap, free) && TreeLinks(t, mem, mem', x) && x in free
      && free[x] >= 256
    requires TreesOk(t', mem', roots', treemap') && t'.node.Keys == t.node.Keys - {x}
    ensures BinsOk(t', small, mem', roots', treemap', smallmap, free - {x}) && OnlyLinks(free, mem, mem')
  {
    hide OnlyLinks, Ring;
    assert x > 0;
    assert free[x := free[x]] == free;
    TreeLinksOnly(t, small, free, mem, mem', x, free[x]);
    TreesSpareSmall(t, small, mem, roots, treemap, smallmap, free, mem', x);
    hide TreesOk, SmallOk, Indexed, Sized;
    IndexedOut(t, small, free, t', x);
    SizedSame(mem, free, mem');
    SizedOut(mem', free, x);
  }

  lemma SmallSparesTrees(t: Trees, small: seq<seq<int>>, mem: Mem, roots: seq<int>, treemap: set<nat>,
                         smallmap: set<nat>, free: map<int, nat>, mem': Mem, i: nat, x: int)
    requires BinsOk(t, small, mem, roots, treemap, smallmap, free) && i < NSMALLBINS
      && OtherLinks(mem, mem', i, small[i], x) && x !in t.node
    requires mem'.head == mem.head && mem'.child == mem.child && mem'.parent == mem.parent && mem'.index == mem.index
    ensures TreesOk(t, mem', roots, treemap)
  {
    hide TreesOk, SmallOk;
    forall z | z in t.node ensures SameFields(mem, mem', z) {
      assert z in free && free[z] >= 256 && z > 0;
      assert z !in small[i];
    }
    TreesFrame(t, mem, roots, treemap, mem');
  }

  /** A chunk is put into a small bin. */
  lemma SmallIn(t: Trees, small: seq<seq<int>>, mem: Mem, roots: seq<int>, treemap: set<nat>, smallmap: set<nat>,
                free: map<int, nat>, i: nat, x: int)
    requires BinsOk(t, small, mem, roots, treemap, smallmap, free) && x > 0 && x !in free && 4 <= i < NSMALLBINS
      && SizeOf(mem, x) == 8 * i
    ensures var m := LinkMem(mem, SmallHdr(i), if i in smallmap then At(mem.fd, SmallHdr(i)) else SmallHdr(i), x);
      BinsOk(t, small[i := [x] + small[i]], m, roots, treemap, smallmap + {i}, free[x := 8 * i])
        && OnlyLinks(free[x := 8 * i], mem, m)
  {
    var m := LinkMem(mem, SmallHdr(i), if i in smallmap then At(mem.fd, SmallHdr(i)) else SmallHdr(i), x);
    assert x !in small[i] && x !in t.node;
    hide TreesOk, SizeOf, OnlyLinks, Ring;
    LinkSmall(small, mem, smallmap, i, x);
    hide SmallOk, OtherLinks;
    SmallLinksOnly(t, small, free, mem, m, i, x, 8 * i);
    SmallSparesTrees(t, small, mem, roots, treemap, smallmap, free, m, i, x);
    SizedIn(mem, free, x, 8 * i);
    SizedSame(mem, free[x := 8 * i], m);
  }

  /** A chunk is taken out of its small bin. */
  lemma SmallOut(t: Trees, small: seq<seq<int>>, mem: Mem, roots: seq<int>, treemap: set<nat>, smallmap: set<nat>,
                 free: map<int, nat>, i: nat, k: nat)
    requires BinsOk(t, small, mem, roots, treemap, smallmap, free) && i < NSMALLBINS && k < |small[i]|
    ensures var x, r := small[i][k], small[i][..k] + small[i][k + 1..];
      var m := if small[i] == [x] then mem else UnringMem(mem, x);
      BinsOk(t, small[i := r], m, roots, treemap, if small[i] == [x] then smallmap - {i} else smallmap, free - {x})
        && OnlyLinks(free, mem, m)
  {
    var x, r := small[i][k], small[i][..k] + small[i][k + 1..];
    var m := if small[i] == [x] then mem else UnringMem(mem, x);
    hide TreesOk, SmallOk, OtherLinks, Distinct, Indexed, Sized, SizeOf;
    UnlinkSmall(small, mem, smallmap, i, k);
    SmallLinks(small, mem, smallmap, i, k);
    IndexedWithout(t, small, free, i, k);
    assert free[x := free[x]] == free;
    SmallLinksOnly(t, small, free, mem, m, i, x, free[x]);
    SmallSparesTrees(t, small, mem, roots, treemap, smallmap, free, m, i, x);
    SizedOut(mem, free, x);
    SizedSame(mem, free - {x}, m);
  }

  lemma SmallShape(t: Trees, small: seq<seq<int>>, mem: Mem, roots: seq<int>, treemap: set<nat>, smallmap: set<nat>,
                   free: map<int, nat>)
    requires BinsOk(t, small, mem, roots, treemap, smallmap, free)
    ensures |small| == NSMALLBINS
  {
  }

  /** Where a small chunk is, and what the source reads there. */
  lemma SmallThere(t: Trees, small: seq<seq<int>>, mem: Mem, roots: seq<int>, treemap: set<nat>, smallmap: set<nat>,
                   free: map<int, nat>, x: int) returns (k: nat)
    requires BinsOk(t, small, mem, roots, treemap, smallmap, free) && x in free && free[x] < 256
    ensures var i := SmallIndex(free[x]);
      && i < NSMALLBINS && |small| == NSMALLBINS && k < |small[i]| && small[i][k] == x
      && (At(mem.fd, x) == At(mem.bk, x) <==> small[i] == [x])
  {
    hide TreesOk;
    var i := SmallIndex(free[x]);
    assert x in small[i];
    k :| 0 <= k < |small[i]| && small[i][k] == x;
    hide SmallOk;
    SmallLinks(small, mem, smallmap, i, k);
  }

  /** The first chunk of a small bin that is marked. */
  lemma SmallFirst(t: Trees, small: seq<seq<int>>, mem: Mem, roots: seq<int>, treemap: set<nat>, smallmap: set<nat>,
                   free: map<int, nat>, i: nat)
    requires BinsOk(t, small, mem, roots, treemap, smallmap, free) && i in smallmap
    ensures i < NSMALLBINS && |small| == NSMALLBINS && small[i] != []
    ensures var x := At(mem.fd, SmallHdr(i));
      && x == small[i][0] && x in free && free[x] == 8 * i && At(mem.bk, x) == SmallHdr(i)
      && (At(mem.fd, x) == SmallHdr(i) <==> small[i] == [x])
  {
    hide TreesOk;
    SmallLinks(small, mem, smallmap, i, 0);
    assert small[i][0] in small[i];
  }

  ghost predicate Empty(t: Trees, small: seq<seq<int>>, roots: seq<int>)
  {
    && t.place == map[] && t.ring == map[] && t.node == map[] && |t.tries| == NTREEBINS && |roots| == NTREEBINS
    && |small| == NSMALLBINS
    && (forall i | 0 <= i < NTREEBINS :: t.tries[i] == map[] && roots[i] == 0)
    && forall i | 0 <= i < NSMALLBINS :: small[i] == []
  }

  lemma EmptyTrees(t: Trees, small: seq<seq<int>>, mem: Mem, roots: seq<int>)
    requires Empty(t, small, roots)
    ensures TreesOk(t, mem, roots, {})
  {
    assert Placed(t);
  }

  lemma EmptySmall(t: Trees, small: seq<seq<int>>, mem: Mem, roots: seq<int>)
    requires Empty(t, small, roots)
    ensures SmallOk(small, mem, {}) && Indexed(t, small, map[])
  {
    hide Ring, SizeOf;
  }

  lemma EmptyOk(t: Trees, small: seq<seq<int>>, mem: Mem, roots: seq<int>)
    requires Empty(t, small, roots)
    ensures BinsOk(t, small, mem, roots, {}, {}, map[])
  {
    hide TreesOk, SmallOk, Indexed;
    EmptyTrees(t, small, mem, roots);
    EmptySmall(t, small, mem, roots);
  }

  /** The bin of a chunk is marked. */
  lemma Marks(t: Trees, small: seq<seq<int>>, mem: Mem, roots: seq<int>, treemap: set<nat>, smallmap: set<nat>,
              free: map<int, nat>, x: int)
    requires BinsOk(t, small, mem, roots, treemap, smallmap, free) && x in free
    ensures if free[x] < 256 then SmallIndex(free[x]) < NSMALLBINS && SmallIndex(free[x]) in smallmap else treemap != {}
  {
    hide NodesOk, SizeOf, Ring;
    if free[x] < 256 {
      assert x in small[SmallIndex(free[x])];
    } else {
      assert x in t.node;
      RingsOf(t, mem, x);
      var n := t.node[x];
      assert n in t.place;
      PlaceFacts(t, n);
      assert t.place[n].0 in treemap;
    }
  }
}
