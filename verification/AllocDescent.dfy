/** Walking down a tree bin to insert a chunk. */
module AllocDescent {
  import opened Numbers
  import opened AllocSizes
  import opened AllocRings
  import opened AllocTrees
  import opened AllocTries
  import opened AllocUnlink
  import opened AllocMembers
  import opened AllocSmall
  import opened AllocIndex

  lemma BlankFields(mem: Mem, i: nat, x: int, z: int)
    ensures var m := BlankMem(mem, i, x);
      Blank(m, i, x) && m.head == mem.head && m.foot == mem.foot && m.fd == mem.fd && m.bk == mem.bk
    ensures z != x ==> SameFields(mem, BlankMem(mem, i, x), z)
  {
  }

  lemma BlankKeeps(t: Trees, mem: Mem, roots: seq<int>, map_: set<nat>, i: nat, x: int)
    requires TreesOk(t, mem, roots, map_) && x !in t.node
    ensures TreesOk(t, BlankMem(mem, i, x), roots, map_) && Blank(BlankMem(mem, i, x), i, x)
  {
    hide TreesOk, SameFields, BlankMem, Blank;
    forall z | z in t.node ensures SameFields(mem, BlankMem(mem, i, x), z) { BlankFields(mem, i, x, z); }
    BlankFields(mem, i, x, x);
    TreesFrame(t, mem, roots, map_, BlankMem(mem, i, x));
  }

  /** No node on the way to `q` has size `s`. */
  ghost predicate Above(tr: Trie, i: nat, mem: Mem, q: Path, s: nat)
  {
    forall r | r in tr && |r| < |q| && Covers(i, r, s) :: SizeOf(mem, tr[r]) != s
  }

  lemma StepDown(tr: Trie, i: nat, mem: Mem, q: Path, d: bool, s: nat)
    requires Above(tr, i, mem, q, s) && Covers(i, q, s) && q in tr && SizeOf(mem, tr[q]) != s
    ensures Above(tr, i, mem, q + [d], s)
  {
    hide Covers, SizeOf;
    forall r | r in tr && |r| < |q + [d]| && Covers(i, r, s) ensures SizeOf(mem, tr[r]) != s {
      if |r| == |q| {
        CoverChain(i, r, q, s);
        assert q[..|r|] == q;
      }
    }
  }

  lemma NodeOfBin(t: Trees, mem: Mem, i: nat, q: Path)
    requires Placed(t) && NodesOk(t, mem) && i < NTREEBINS && |t.tries| == NTREEBINS && q in t.tries[i]
    ensures NodeAt(t.tries[i], i, q, mem, t.tries[i][q]) && t.tries[i][q] > 0 && t.tries[i][q] in t.place
      && t.place[t.tries[i][q]] == (i, q)
  {
    hide NodeAt, SizeOf;
    assert NodeOk(t, mem, t.tries[i][q]);
  }

  /** Where the way of size `s` ends without having met it, no node has that size. */
  lemma SizeIsNew(t: Trees, mem: Mem, i: nat, q: Path, d: bool, s: nat)
    requires Placed(t) && NodesOk(t, mem) && i < NTREEBINS && |t.tries| == NTREEBINS && TreeIndex(s) == i
    requires Above(t.tries[i], i, mem, q + [d], s) && Covers(i, q + [d], s) && q + [d] !in t.tries[i]
    ensures forall n | n in t.place :: SizeOf(mem, n) != s
  {
    hide Covers, NodesOk, Placed, Above, SizeOf;
    forall n | n in t.place ensures SizeOf(mem, n) != s {
      if SizeOf(mem, n) == s { MetBefore(t, mem, i, q + [d], s, n); }
    }
  }

  lemma MetBefore(t: Trees, mem: Mem, i: nat, p: Path, s: nat, n: int)
    requires Placed(t) && NodesOk(t, mem) && i < NTREEBINS && |t.tries| == NTREEBINS && TreeIndex(s) == i
    requires Above(t.tries[i], i, mem, p, s) && Covers(i, p, s) && p !in t.tries[i] && n in t.place
    ensures SizeOf(mem, n) != s
  {
    hide Covers, TreeIndex, SizeOf;
    PlaceFacts(t, n);
    assert NodeOk(t, mem, n);
    var j, r := t.place[n].0, t.place[n].1;
    if SizeOf(mem, n) == s {
      assert j == i && Covers(i, r, s);
      if |r| >= |p| {
        CoverChain(i, p, r, s);
        PrefixThere(t, i, r, |p|);
      }
    }
  }

  /** A node is on the way of `s` but has another size: the way goes on. */
  lemma MoreBits(i: nat, q: Path, s: nat, z: nat)
    requires Covers(i, q, s) && Covers(i, q, z) && z != s
    ensures |q| < Bits(i)
  {
    if |q| == Bits(i) { FullPath(i, q, s, z); }
  }

  lemma NewIsFresh(t: Trees, mem: Mem, x: int, i: nat, q: Path, d: bool, s: nat)
    requires Placed(t) && i < NTREEBINS && x > 0 && x !in t.place && Blank(mem, i, x) && SizeOf(mem, x) == s
      && 256 <= s < TERA && TreeIndex(s) == i
    requires Covers(i, q + [d], s) && q + [d] !in t.tries[i] && q in t.tries[i]
    ensures Fresh(t, mem, x, i, q + [d])
  {
    hide Covers, TreeIndex, SizeOf, Blank;
    assert (q + [d])[..|q + [d]| - 1] == q;
  }

  lemma NewLinks(t: Trees, mem: Mem, p: Path, x: int, par: int)
    requires p != [] ==> par != x && par in t.node
    ensures TreeLinks(t, mem, NewNodeMem(mem, p, x, par), x)
  {
    hide NewNodeMem, Kid;
    var mem' := NewNodeMem(mem, p, x, par);
    forall z
      ensures z != x ==> At(mem'.fd, z) == At(mem.fd, z) && At(mem'.bk, z) == At(mem.bk, z)
      ensures z !in t.node && z != x ==> SameBranch(mem, mem', z)
    {
      NewFields(mem, p, x, par, z);
    }
    NewFields(mem, p, x, par, x);
  }

  lemma JoinLinks(t: Trees, mem: Mem, n: int, x: int)
    requires Placed(t) && RingsOk(t, mem) && n in t.place && x !in t.node && x > 0
    ensures TreeLinks(t, mem, JoinMem(mem, n, x), x)
  {
    hide MemberOk, Placed, SameBranch, JoinMem;
    JoinRing(t, mem, n, x);
    JoinBranches(mem, n, x);
  }

  lemma JoinBranches(mem: Mem, n: int, x: int)
    ensures var m := JoinMem(mem, n, x);
      m.head == mem.head && m.foot == mem.foot && forall z | z != x :: SameBranch(mem, m, z)
  {
    hide JoinMem, SameNode;
    JoinFields(mem, n, x, x);
    forall z | z != x ensures SameBranch(mem, JoinMem(mem, n, x), z) {
      JoinSame(mem, n, x, z);
      JoinFields(mem, n, x, z);
    }
  }

  lemma LinksFromBlank(t: Trees, mem: Mem, mem': Mem, i: nat, x: int)
    requires TreeLinks(t, BlankMem(mem, i, x), mem', x)
    ensures TreeLinks(t, mem, mem', x)
  {
    hide BlankMem, SizeOf, Kid;
    BlankFields(mem, i, x, x);
    forall z | z > 0 && z !in t.node && z != x ensures SameBranch(mem, mem', z) {
      BlankFields(mem, i, x, z);
      assert SameBranch(BlankMem(mem, i, x), mem', z);
    }
  }

  lemma RootIsFresh(t: Trees, mem: Mem, roots: seq<int>, map_: set<nat>, x: int, i: nat, s: nat)
    requires TreesOk(t, mem, roots, map_) && i < NTREEBINS && i !in map_
    requires x > 0 && x !in t.place && Blank(mem, i, x) && SizeOf(mem, x) == s && 256 <= s < TERA && TreeIndex(s) == i
    ensures |t.tries| == NTREEBINS && Fresh(t, mem, x, i, []) && ParentOf(t.tries[i], i, []) == TreeHdr(i)
      && forall n | n in t.place :: SizeOf(mem, n) != SizeOf(mem, x)
  {
    hide Covers, TreeIndex, SizeOf, Blank;
    RootCovers(s);
    EmptyBin(t, i);
    forall n | n in t.place ensures SizeOf(mem, n) != SizeOf(mem, x) { assert NodeOk(t, mem, n); }
  }

  lemma KeyOfRoot(i: nat, s: nat)
    requires i < NTREEBINS
    ensures s * Pow2(LeftShift(i)) % WORD == Key(i, [], s)
  {
  }

  lemma NoneAbove(tr: Trie, i: nat, mem: Mem, s: nat)
    ensures Above(tr, i, mem, [], s)
  {
  }

  /** At a node of another size, the top bit of the key is the next bit of the size. */
  lemma KeySays(tr: Trie, i: nat, q: Path, mem: Mem, s: nat)
    requires i < NTREEBINS && q in tr && NodeAt(tr, i, q, mem, tr[q]) && Covers(i, q, s) && SizeOf(mem, tr[q]) != s
    ensures |q| < Bits(i)
    ensures (Key(i, q, s) / TOP_BIT % 2 == 1) == Goes(i, q, s)
      && Key(i, q + [Goes(i, q, s)], s) == Key(i, q, s) * 2 % WORD
    ensures Covers(i, q + [Goes(i, q, s)], s) && |q + [Goes(i, q, s)]| <= Bits(i)
  {
    hide Covers, Goes, Key;
    MoreBits(i, q, s, SizeOf(mem, tr[q]));
    KeyBit(i, q, s);
    CoversChild(i, q, s, Goes(i, q, s));
  }

  lemma KidsAre(tr: Trie, i: nat, q: Path, mem: Mem, n: int)
    requires NodeAt(tr, i, q, mem, n)
    ensures forall d :: Kid(mem, d, n) == Look(tr, q + [d])
  {
  }

  lemma LookZero(t: Trees, i: nat, p: Path)
    requires Placed(t) && i < NTREEBINS && Look(t.tries[i], p) == 0
    ensures p !in t.tries[i]
  {
  }

  lemma Marked(t: Trees, roots: seq<int>, map_: set<nat>, i: nat, q: Path)
    requires Placed(t) && RootsOk(t, roots, map_) && i < NTREEBINS && q in t.tries[i]
    ensures map_ + {i} == map_
  {
  }

  // ----- unlinking

  /** A node where no child can be found is a leaf. */
  lemma NoKids(tr: Trie, i: nat, mem: Mem, q: Path)
    requires TrieAt(tr, i, mem) && q in tr && Kid(mem, false, tr[q]) == 0 && Kid(mem, true, tr[q]) == 0
    ensures IsLeaf(tr, q)
  {
    hide Covers, TreeIndex, SizeOf, Kid;
    assert NodeAt(tr, i, q, mem, tr[q]);
  }

  lemma KidThere(tr: Trie, i: nat, mem: Mem, q: Path, d: bool)
    requires TrieAt(tr, i, mem) && q in tr && Kid(mem, d, tr[q]) != 0
    ensures q + [d] in tr && tr[q + [d]] == Kid(mem, d, tr[q]) && |q + [d]| <= Bits(i) && (q + [d])[..|q|] == q
  {
    hide TreeIndex, SizeOf, Kid;
    assert NodeAt(tr, i, q, mem, tr[q]);
    assert NodeAt(tr, i, q + [d], mem, tr[q + [d]]);
  }

  /** What the source reads at a node; the root, and only the root, is the chunk its bin points to. */
  lemma NodeLinks(t: Trees, mem: Mem, roots: seq<int>, map_: set<nat>, x: int)
    requires TreesOk(t, mem, roots, map_) && x in t.place
    ensures var i, p := t.place[x].0, t.place[x].1;
      && i < NTREEBINS && |roots| == NTREEBINS && |t.tries| == NTREEBINS && p in t.tries[i] && t.tries[i][p] == x
      && TrieAt(t.tries[i], i, mem)
      && At(mem.index, x) == i && (roots[i] == x <==> p == []) && At(mem.parent, x) == ParentOf(t.tries[i], i, p) != 0
      && x in t.ring && x > 0
      && (t.ring[x] == [x] <==> At(mem.bk, x) == x) && |t.ring[x]| > 0
      && (t.ring[x] != [x] ==> |t.ring[x]| > 1 && At(mem.bk, x) > 0)
      && (p != [] ==> Kid(mem, p[|p| - 1], At(mem.parent, x)) == x && Kid(mem, !p[|p| - 1], At(mem.parent, x)) != x)
  {
    hide Covers, TreeIndex, SizeOf, Kid, Ring;
    PlaceFacts(t, x);
    TrieOfBin(t, mem, t.place[x].0);
    ParentKid(t.tries[t.place[x].0], t.place[x].0, mem, t.place[x].1);
    LastOfRing(t, mem, x);
    NodesAreMembers(t, mem);
    RingsOf(t, mem, x);
    assert NodeOk(t, mem, x);
    if |t.ring[x]| == 1 { assert t.ring[x] == [x]; }
  }

  lemma EqualLinks(t: Trees, mem: Mem, roots: seq<int>, map_: set<nat>, x: int) returns (k: nat)
    requires TreesOk(t, mem, roots, map_) && x in t.node && x !in t.place
    ensures t.node[x] in t.ring && 1 <= k < |t.ring[t.node[x]]| && t.ring[t.node[x]][k] == x
    ensures At(mem.bk, x) != x && At(mem.parent, x) == 0
  {
    hide Placed, NodesOk, RingsOk, RootsOk, Distinct;
    k := MemberInRing(t, mem, x);
  }

  lemma EqualUnlinked(t: Trees, mem: Mem, roots: seq<int>, map_: set<nat>, x: int, k: nat)
    requires TreesOk(t, mem, roots, map_) && x in t.node && x !in t.place
    requires t.node[x] in t.ring && 1 <= k < |t.ring[t.node[x]]| && t.ring[t.node[x]][k] == x
    ensures var t', mem' := WithoutMember(t, t.node[x], k, x), UnringMem(mem, x);
      TreesOk(t', mem', roots, map_) && t'.node.Keys == t.node.Keys - {x} && TreeLinks(t, mem, mem', x)
  {
    hide Placed, NodesOk, RingsOk, RootsOk;
    UnlinkMember(t, mem, roots, map_, t.node[x], k, x);
    UnringLinks(t, mem, x);
  }

  lemma ShiftUnlinked(t: Trees, mem: Mem, roots: seq<int>, map_: set<nat>, x: int)
    requires TreesOk(t, mem, roots, map_) && x in t.place && At(mem.bk, x) != x
    ensures var i, p, r := t.place[x].0, t.place[x].1, At(mem.bk, x);
      && i < |t.tries| && x in t.ring && |t.ring[x]| > 1
      && var t', mem' := Shifted(t, i, p, x, r), ReplaceMem(UnringMem(mem, x), p, x, r, At(mem.parent, x));
      TreesOk(t', mem', if p == [] then roots[i := r] else roots, map_) && t'.node.Keys == t.node.Keys - {x}
        && TreeLinks(t, mem, mem', x)
  {
    hide Placed, NodesOk, RingsOk, RootsOk, ReplaceMem, NodeAt, TrieAt, SameNode;
    NodeLinks(t, mem, roots, map_, x);
    var i, p, r := t.place[x].0, t.place[x].1, At(mem.bk, x);
    UnlinkShift(t, mem, roots, map_, x, i, p, r);
    ShiftLinks(t, mem, x, i, p, r);
    NodesAreMembers(t, mem);
    UnringLinks(t, mem, x);
    forall z | z > 0 && z !in t.node ensures SameBranch(mem, ShiftMem(t.tries[i], i, mem, p, x, r), z) {
      ShiftedBranch(t, mem, x, i, p, r, z);
    }
  }

  lemma ShiftedBranch(t: Trees, mem: Mem, x: int, i: nat, p: Path, y: int, z: int)
    requires Placed(t) && NodesOk(t, mem) && RingsOk(t, mem) && x in t.place && t.place[x] == (i, p) && i < NTREEBINS
      && |t.tries| == NTREEBINS
    requires |t.ring[x]| > 1 && y == At(mem.bk, x) && p in t.tries[i] && z > 0 && z !in t.node
    ensures SameBranch(mem, ShiftMem(t.tries[i], i, mem, p, x, y), z)
  {
    hide NodesOk, RingsOk, ShiftMem, SameNode;
    LastOfRing(t, mem, x);
    NotInTrie(t, mem, i, z);
    ShiftedNode(t, mem, x, i, p, y, z);
    ShiftLinks(t, mem, x, i, p, y);
  }

  lemma NotInTrie(t: Trees, mem: Mem, i: nat, z: int)
    requires Placed(t) && RingsOk(t, mem) && i < NTREEBINS && |t.tries| == NTREEBINS && z !in t.node
    ensures forall r | r in t.tries[i] :: t.tries[i][r] != z
  {
    hide RingsOk;
    NodesAreMembers(t, mem);
  }

  lemma LeafUnlinked(t: Trees, mem: Mem, roots: seq<int>, map_: set<nat>, x: int)
    requires TreesOk(t, mem, roots, map_) && x in t.place && At(mem.bk, x) == x && t.place[x].0 < |t.tries|
      && IsLeaf(t.tries[t.place[x].0], t.place[x].1)
    ensures var i, p := t.place[x].0, t.place[x].1;
      var t', mem' := WithoutLeaf(t, i, p, x), if p == [] then mem else SetKid(mem, p[|p| - 1], At(mem.parent, x), 0);
      && TreesOk(t', mem', if p == [] then roots[i := 0] else roots, if p == [] then map_ - {i} else map_)
      && t'.node.Keys == t.node.Keys - {x} && TreeLinks(t, mem, mem', x)
  {
    hide Placed, NodesOk, RingsOk, RootsOk, SetKid, NodeAt, TrieAt, IsLeaf, Kid;
    NodeLinks(t, mem, roots, map_, x);
    var i, p := t.place[x].0, t.place[x].1;
    UnlinkLeaf(t, mem, roots, map_, x, i, p);
    if p != [] {
      var d, xp := p[|p| - 1], At(mem.parent, x);
      KidFields(mem, d, xp, 0, false, 0);
      PlaceFacts(t, x);
      NodesAreMembers(t, mem);
      forall z | z !in t.node ensures SameBranch(mem, SetKid(mem, d, xp, 0), z) {
        KidFields(mem, d, xp, 0, false, z);
        KidFields(mem, d, xp, 0, true, z);
      }
    }
  }

  lemma PromoteUnlinked(t: Trees, mem: Mem, roots: seq<int>, map_: set<nat>, x: int, q: Path)
    requires TreesOk(t, mem, roots, map_) && x in t.place && At(mem.bk, x) == x && t.place[x].0 < |t.tries|
      && LeafBelow(t.tries[t.place[x].0], t.place[x].1, q)
    ensures var i, p, tr := t.place[x].0, t.place[x].1, t.tries[t.place[x].0];
      && q[..|q| - 1] in tr
      && var t', mem' := Promoted(t, i, p, q, x),
        ReplaceMem(SetKid(mem, q[|q| - 1], tr[q[..|q| - 1]], 0), p, x, tr[q], At(mem.parent, x));
      TreesOk(t', mem', if p == [] then roots[i := tr[q]] else roots, map_) && t'.node.Keys == t.node.Keys - {x}
        && TreeLinks(t, mem, mem', x)
  {
    hide Placed, NodesOk, RingsOk, RootsOk, SetKid, NodeAt, TrieAt, LeafBelow, Kid, ReplaceMem;
    NodeLinks(t, mem, roots, map_, x);
    var i, p := t.place[x].0, t.place[x].1;
    UnlinkPromote(t, mem, roots, map_, x, i, p, q);
    NoZero(t, i);
    PlaceFacts(t, x);
    PromoteFields(t.tries[i], i, mem, p, q, false, 0);
    LongerThan(t.tries[i], p, q);
    forall z | z > 0 && z !in t.node ensures SameBranch(mem, PromoteMem(t.tries[i], i, mem, p, q, x), z) {
      PromotedBranch(t, mem, x, i, p, q, z);
    }
  }

  lemma PromotedBranch(t: Trees, mem: Mem, x: int, i: nat, p: Path, q: Path, z: int)
    requires Placed(t) && NodesOk(t, mem) && RingsOk(t, mem) && x in t.place && t.place[x] == (i, p) && i < NTREEBINS
      && |t.tries| == NTREEBINS
    requires LeafBelow(t.tries[i], p, q) && q[..|q| - 1] in t.tries[i] && z > 0 && z !in t.node
    ensures SameBranch(mem, PromoteMem(t.tries[i], i, mem, p, q, x), z)
  {
    hide NodesOk, RingsOk, PromoteMem, TrieAt, Kid, LeafBelow, Placed;
    TrieOfBin(t, mem, i);
    PlaceFacts(t, x);
    NotInTrie(t, mem, i, z);
    LongerThan(t.tries[i], p, q);
    PromoteFields(t.tries[i], i, mem, p, q, false, z);
    PromoteFields(t.tries[i], i, mem, p, q, true, z);
  }

  lemma LongerThan(tr: Trie, p: Path, q: Path)
    requires LeafBelow(tr, p, q)
    ensures q != [] && q in tr
  {
  }

  /** Before a leaf replaces a node, the leaf has been cut off; the node still hangs where it was. */
  lemma StillHangs(tr: Trie, i: nat, mem: Mem, p: Path, q: Path)
    requires TrieAt(tr, i, mem) && LeafBelow(tr, p, q) && q[..|q| - 1] in tr
    ensures var m, x, xp := SetKid(mem, q[|q| - 1], tr[q[..|q| - 1]], 0), tr[p], ParentOf(tr, i, p);
      xp != x && xp != 0 && m.index == mem.index && m.fd == mem.fd && m.bk == mem.bk && m.head == mem.head
        && m.foot == mem.foot && m.parent == mem.parent
      && (p != [] ==> Kid(m, p[|p| - 1], xp) == x && Kid(m, !p[|p| - 1], xp) != x)
  {
    hide Covers, TreeIndex, SizeOf, Kid, SetKid, NodeAt;
    LeafGone(tr, i, mem, q);
    KidFields(mem, q[|q| - 1], tr[q[..|q| - 1]], 0, false, 0);
    var m := SetKid(mem, q[|q| - 1], tr[q[..|q| - 1]], 0);
    ParentKid(tr - {q}, i, m, p);
    if p != [] { assert p[..|p| - 1] != q; }
  }

  lemma UnringLinks(t: Trees, mem: Mem, x: int)
    requires Placed(t) && RingsOk(t, mem) && x in t.node
    ensures TreeLinks(t, mem, UnringMem(mem, x), x)
  {
    hide Placed, MemberOk, Ring;
    RingsOf(t, mem, x);
    var r := t.ring[t.node[x]];
    var k :| 0 <= k < |r| && r[k] == x;
    UnringFrame(mem, r, k);
    assert forall z | z in r :: z in t.node;
    hide RingsOk;
  }

  lemma UnringFields(mem: Mem, x: int)
    ensures var m := UnringMem(mem, x);
      m.child == mem.child && m.index == mem.index && m.parent == mem.parent && m.head == mem.head
        && m.foot == mem.foot && forall d, z :: Kid(m, d, z) == Kid(mem, d, z)
  {
  }

  lemma TagsKept(t: Trees, mem: Mem, mem': Mem, x: int)
    requires TreeLinks(t, mem, mem', x)
    ensures mem'.head == mem.head && mem'.foot == mem.foot
  {
  }
}
