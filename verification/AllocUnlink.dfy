/** Unlinking a chunk from its tree bin, and adding one to a node of the same size. */
module AllocUnlink {
  import opened AllocSizes
  import opened AllocRings
  import opened AllocTrees
  import opened AllocTries

  // ----- one trie

  ghost predicate TrieAt(tr: Trie, i: nat, mem: Mem)
  {
    && (forall q | q in tr :: tr[q] > 0 && NodeAt(tr, i, q, mem, tr[q]))
    && (forall q, r | q in tr && r in tr && tr[q] == tr[r] :: q == r)
    && (forall q | q in tr && q != [] :: q[..|q| - 1] in tr)
  }

  predicate IsLeaf(tr: Trie, p: Path) { p in tr && p + [false] !in tr && p + [true] !in tr }

  lemma KidFields(mem: Mem, d: bool, a: int, v: int, e: bool, y: int)
    ensures Kid(SetKid(mem, d, a, v), e, y) == if e == d && y == a then v else Kid(mem, e, y)
    ensures SetKid(mem, d, a, v).parent == mem.parent && SetKid(mem, d, a, v).head == mem.head
      && SetKid(mem, d, a, v).index == mem.index
    ensures SetKid(mem, d, a, v).fd == mem.fd && SetKid(mem, d, a, v).bk == mem.bk
      && SetKid(mem, d, a, v).foot == mem.foot
  {
  }

  lemma SnocPath(q: Path, e: bool, p: Path)
    ensures q + [e] == p <==> p != [] && q == p[..|p| - 1] && e == p[|p| - 1]
  {
    if q + [e] == p { assert (q + [e])[..|q|] == q && (q + [e])[|q|] == e; }
    if p != [] && q == p[..|p| - 1] && e == p[|p| - 1] { assert p == q + [e]; }
  }

  lemma LeafGoneAt(tr: Trie, i: nat, mem: Mem, p: Path, q: Path)
    requires p != [] && p in tr && p[..|p| - 1] in tr && q in tr && q != p && NodeAt(tr, i, q, mem, tr[q])
    requires tr[q] == tr[p[..|p| - 1]] ==> q == p[..|p| - 1]
    requires q != [] ==> q[..|q| - 1] != p
    ensures NodeAt(tr - {p}, i, q, SetKid(mem, p[|p| - 1], tr[p[..|p| - 1]], 0), tr[q])
  {
    hide Covers, TreeIndex, Kid, SetKid;
    var d, par, n := p[|p| - 1], tr[p[..|p| - 1]], tr[q];
    KidFields(mem, d, par, 0, false, n);
    KidFields(mem, d, par, 0, true, n);
    SnocPath(q, false, p);
    SnocPath(q, true, p);
  }

  /** Clearing the pointer to a leaf takes it out of its trie. */
  lemma LeafGone(tr: Trie, i: nat, mem: Mem, p: Path)
    requires TrieAt(tr, i, mem) && IsLeaf(tr, p) && p != []
    ensures p[..|p| - 1] in tr && TrieAt(tr - {p}, i, SetKid(mem, p[|p| - 1], tr[p[..|p| - 1]], 0))
  {
    hide NodeAt;
    forall q | q in tr - {p}
      ensures NodeAt(tr - {p}, i, q, SetKid(mem, p[|p| - 1], tr[p[..|p| - 1]], 0), tr[q])
      ensures q != [] ==> q[..|q| - 1] in tr - {p}
    {
      if q != [] { LeafHasNoChild(tr, p, q); }
      LeafGoneAt(tr, i, mem, p, q);
    }
  }

  lemma LeafHasNoChild(tr: Trie, p: Path, q: Path)
    requires IsLeaf(tr, p) && q in tr && q != []
    ensures q[..|q| - 1] != p
  {
    SnocPath(p, q[|q| - 1], q);
  }

  /** Child `d` of `x` becomes the one of `y`. */
  function Adopt(mem: Mem, d: bool, x: int, y: int): Mem
  {
    var c := Kid(mem, d, x);
    if c == 0 then mem else SetKid(mem, d, y, c).(parent := mem.parent[c := y])
  }

  lemma AdoptFields(mem: Mem, d: bool, x: int, y: int, e: bool, z: int)
    requires x != y && (Kid(mem, d, x) == 0 ==> Kid(mem, d, y) == 0)
    ensures var m := Adopt(mem, d, x, y);
      && m.head == mem.head && m.foot == mem.foot && m.fd == mem.fd && m.bk == mem.bk && m.index == mem.index
      && Kid(m, e, z) == (if z == y && e == d then Kid(mem, d, x) else Kid(mem, e, z))
      && At(m.parent, z) == (if z != 0 && z == Kid(mem, d, x) then y else At(mem.parent, z))
  {
  }

  function RelinkMem(mem: Mem, p: Path, x: int, y: int, xp: int): Mem
  {
    (if p == [] then mem else SetKid(mem, Kid(mem, false, xp) != x, xp, y)).(parent := mem.parent[y := xp])
  }

  lemma RelinkFields(mem: Mem, p: Path, x: int, y: int, xp: int, e: bool, z: int)
    requires p != [] ==> Kid(mem, p[|p| - 1], xp) == x && Kid(mem, !p[|p| - 1], xp) != x
    ensures var m := RelinkMem(mem, p, x, y, xp);
      && m.head == mem.head && m.foot == mem.foot && m.fd == mem.fd && m.bk == mem.bk && m.index == mem.index
      && Kid(m, e, z) == (if p != [] && z == xp && e == p[|p| - 1] then y else Kid(mem, e, z))
      && At(m.parent, z) == if z == y then xp else At(mem.parent, z)
  {
  }

  /** The memory after `x` at path `p` was replaced with `y`, which has no children of its own. */
  function ReplaceMem(mem: Mem, p: Path, x: int, y: int, xp: int): Mem
  {
    Adopt(Adopt(RelinkMem(mem, p, x, y, xp), false, x, y), true, x, y)
  }

  lemma ReplaceFields(mem: Mem, p: Path, x: int, y: int, xp: int, e: bool, z: int)
    requires x != y && xp != x && xp != y && Kid(mem, false, y) == 0 && Kid(mem, true, y) == 0
    requires Kid(mem, false, x) != y && Kid(mem, true, x) != y
      && (p != [] ==> Kid(mem, p[|p| - 1], xp) == x && Kid(mem, !p[|p| - 1], xp) != x)
    ensures var m := ReplaceMem(mem, p, x, y, xp);
      && m.head == mem.head && m.foot == mem.foot && m.fd == mem.fd && m.bk == mem.bk && m.index == mem.index
      && Kid(m, e, z) == (if z == y then Kid(mem, e, x)
        else if p != [] && z == xp && e == p[|p| - 1] then y else Kid(mem, e, z))
      && At(m.parent, z) == (if z == y then xp
        else if z != 0 && (z == Kid(mem, false, x) || z == Kid(mem, true, x)) then y else At(mem.parent, z))
  {
    hide Adopt, Kid, RelinkMem;
    var m := RelinkMem(mem, p, x, y, xp);
    RelinkFields(mem, p, x, y, xp, false, x);
    RelinkFields(mem, p, x, y, xp, true, x);
    RelinkFields(mem, p, x, y, xp, false, y);
    RelinkFields(mem, p, x, y, xp, true, y);
    RelinkFields(mem, p, x, y, xp, e, z);
    AdoptFields(m, false, x, y, e, z);
    AdoptFields(m, false, x, y, true, x);
    AdoptFields(m, false, x, y, true, y);
    AdoptFields(Adopt(m, false, x, y), true, x, y, e, z);
  }

  lemma ReplacedKid(tr: Trie, i: nat, mem: Mem, p: Path, y: int, q: Path, e: bool)
    requires TrieAt(tr, i, mem) && p in tr && q in tr && q != p && y > 0
    requires (forall r | r in tr :: tr[r] != y) && Kid(mem, false, y) == 0 && Kid(mem, true, y) == 0
    ensures Kid(ReplaceMem(mem, p, tr[p], y, ParentOf(tr, i, p)), e, tr[q]) == Look(tr[p := y], q + [e])
  {
    hide Covers, TreeIndex, Kid, ReplaceMem;
    ParentKids(tr, i, mem, p, y);
    ReplaceFields(mem, p, tr[p], y, ParentOf(tr, i, p), e, tr[q]);
    assert NodeAt(tr, i, q, mem, tr[q]);
    SnocPath(q, e, p);
  }

  lemma ReplacedParent(tr: Trie, i: nat, mem: Mem, p: Path, y: int, q: Path)
    requires TrieAt(tr, i, mem) && p in tr && q in tr && q != p && y > 0
    requires (forall r | r in tr :: tr[r] != y) && Kid(mem, false, y) == 0 && Kid(mem, true, y) == 0
    ensures At(ReplaceMem(mem, p, tr[p], y, ParentOf(tr, i, p)).parent, tr[q]) == ParentOf(tr[p := y], i, q)
  {
    hide Covers, TreeIndex, Kid, ReplaceMem;
    var x, n := tr[p], tr[q];
    ParentKids(tr, i, mem, p, y);
    ReplaceFields(mem, p, x, y, ParentOf(tr, i, p), false, n);
    assert NodeAt(tr, i, q, mem, n) && NodeAt(tr, i, p, mem, x);
    SnocPath(p, false, q);
    SnocPath(p, true, q);
  }

  lemma ReplacedAt(tr: Trie, i: nat, mem: Mem, p: Path, y: int, q: Path)
    requires TrieAt(tr, i, mem) && p in tr && q in tr && q != p && y > 0
    requires (forall r | r in tr :: tr[r] != y) && Kid(mem, false, y) == 0 && Kid(mem, true, y) == 0
    ensures NodeAt(tr[p := y], i, q, ReplaceMem(mem, p, tr[p], y, ParentOf(tr, i, p)), tr[q])
  {
    hide Covers, TreeIndex, Kid, ReplaceMem;
    ReplacedKid(tr, i, mem, p, y, q, false);
    ReplacedKid(tr, i, mem, p, y, q, true);
    ReplacedParent(tr, i, mem, p, y, q);
    ParentKids(tr, i, mem, p, y);
    ReplaceFields(mem, p, tr[p], y, ParentOf(tr, i, p), false, 0);
    assert NodeAt(tr, i, q, mem, tr[q]);
  }

  /** What the parent of a node and the node itself say about each other. */
  lemma ParentKid(tr: Trie, i: nat, mem: Mem, p: Path)
    requires TrieAt(tr, i, mem) && p in tr
    ensures var x, xp := tr[p], ParentOf(tr, i, p);
      xp != x && xp != 0 && (p != [] ==> Kid(mem, p[|p| - 1], xp) == x && Kid(mem, !p[|p| - 1], xp) != x)
  {
    hide NodeAt, Kid;
    if p != [] {
      var r, d := p[..|p| - 1], p[|p| - 1];
      assert r in tr && tr[r] != tr[p];
      KidsOf(tr, i, mem, r);
      assert p == r + [d];
      SnocPath(r, !d, p);
    }
  }

  lemma ParentKids(tr: Trie, i: nat, mem: Mem, p: Path, y: int)
    requires TrieAt(tr, i, mem) && p in tr && y > 0 && (forall r | r in tr :: tr[r] != y)
    ensures var x, xp := tr[p], ParentOf(tr, i, p);
      && x != y && xp != x && xp != y && Kid(mem, false, x) != y && Kid(mem, true, x) != y
      && (p != [] ==> Kid(mem, p[|p| - 1], xp) == x && Kid(mem, !p[|p| - 1], xp) != x)
  {
    hide Covers, TreeIndex, Kid;
    ParentKid(tr, i, mem, p);
    assert NodeAt(tr, i, p, mem, tr[p]);
  }

  /** Another chunk takes the place of a node. */
  lemma Replaced(tr: Trie, i: nat, mem: Mem, p: Path, y: int)
    requires TrieAt(tr, i, mem) && p in tr && y > 0 && (forall r | r in tr :: tr[r] != y)
    requires Kid(mem, false, y) == 0 && Kid(mem, true, y) == 0
    requires 0x100 <= SizeOf(mem, y) < TERA && TreeIndex(SizeOf(mem, y)) == i && Covers(i, p, SizeOf(mem, y))
    ensures TrieAt(tr[p := y], i, ReplaceMem(mem, p, tr[p], y, ParentOf(tr, i, p)))
  {
    hide NodeAt, ReplaceMem, Covers, TreeIndex;
    var tr', mem' := tr[p := y], ReplaceMem(mem, p, tr[p], y, ParentOf(tr, i, p));
    forall q | q in tr' ensures NodeAt(tr', i, q, mem', tr'[q]) {
      if q != p {
        ReplacedAt(tr, i, mem, p, y, q);
      } else {
        ReplacementAt(tr, i, mem, p, y);
      }
    }
  }

  lemma ReplacementAt(tr: Trie, i: nat, mem: Mem, p: Path, y: int)
    requires TrieAt(tr, i, mem) && p in tr && y > 0 && (forall r | r in tr :: tr[r] != y)
    requires Kid(mem, false, y) == 0 && Kid(mem, true, y) == 0
    requires 0x100 <= SizeOf(mem, y) < TERA && TreeIndex(SizeOf(mem, y)) == i && Covers(i, p, SizeOf(mem, y))
    ensures NodeAt(tr[p := y], i, p, ReplaceMem(mem, p, tr[p], y, ParentOf(tr, i, p)), y)
  {
    hide Covers, TreeIndex, Kid, ReplaceMem, SizeOf;
    ParentKids(tr, i, mem, p, y);
    ReplaceFields(mem, p, tr[p], y, ParentOf(tr, i, p), false, y);
    ReplaceFields(mem, p, tr[p], y, ParentOf(tr, i, p), true, y);
    assert NodeAt(tr, i, p, mem, tr[p]);
    SnocPath(p, false, p);
    SnocPath(p, true, p);
    SameSize(mem, ReplaceMem(mem, p, tr[p], y, ParentOf(tr, i, p)), y);
  }

  // ----- all bins together

  lemma TrieOfBin(t: Trees, mem: Mem, i: nat)
    requires Placed(t) && NodesOk(t, mem) && i < NTREEBINS
    ensures TrieAt(t.tries[i], i, mem)
  {
    hide NodeAt;
    forall q | q in t.tries[i] ensures t.tries[i][q] > 0 && NodeAt(t.tries[i], i, q, mem, t.tries[i][q]) {
      assert NodeOk(t, mem, t.tries[i][q]);
    }
  }

  /** The link fields of two memories agree at `n`. */
  predicate SameNode(mem: Mem, mem': Mem, n: int)
  {
    Kid(mem, false, n) == Kid(mem', false, n) && Kid(mem, true, n) == Kid(mem', true, n)
      && At(mem.parent, n) == At(mem'.parent, n)
  }

  lemma NodeFrame(tr: Trie, i: nat, q: Path, mem: Mem, mem': Mem, n: int)
    requires NodeAt(tr, i, q, mem, n) && SameNode(mem, mem', n) && mem'.head == mem.head
    ensures NodeAt(tr, i, q, mem', n)
  {
  }

  /** Bin `i` was changed to `tr`; `gone` is no longer a node, `came` may be one now. */
  function Rebin(t: Trees, i: nat, tr: Trie, gone: int, came: int, p: Path): Trees
    requires i < |t.tries|
  {
    t.(tries := t.tries[i := tr], place := if came > 0 then (t.place - {gone})[came := (i, p)] else t.place - {gone})
  }

  ghost predicate Rebins(t: Trees, mem: Mem, i: nat, tr: Trie, gone: int, came: int, p: Path, mem': Mem)
    requires Placed(t)
  {
    && i < NTREEBINS && mem'.head == mem.head && TrieAt(tr, i, mem') && gone in t.place && t.place[gone].0 == i
    && came != gone
    && Moved(t.tries[i], tr, gone, came, p)
    && (came > 0 ==>
      (came in t.place ==> t.place[came].0 == i) && (came in t.place || SizeOf(mem, came) == SizeOf(mem, gone)))
    && (forall n | n in t.place && t.place[n].0 != i :: SameNode(mem, mem', n))
  }

  lemma RebinPlaced(t: Trees, mem: Mem, i: nat, tr: Trie, gone: int, came: int, p: Path, mem': Mem)
    requires Placed(t) && Rebins(t, mem, i, tr, gone, came, p, mem')
    ensures i < |t.tries| && Placed(Rebin(t, i, tr, gone, came, p))
  {
    hide NodeAt, SameNode, SizeOf;
  }

  lemma RebinNode(t: Trees, mem: Mem, i: nat, tr: Trie, gone: int, came: int, p: Path, mem': Mem, n: int)
    requires Placed(t) && NodesOk(t, mem) && Rebins(t, mem, i, tr, gone, came, p, mem')
    requires i < |t.tries| && Placed(Rebin(t, i, tr, gone, came, p)) && n in Rebin(t, i, tr, gone, came, p).place
    ensures NodeOk(Rebin(t, i, tr, gone, came, p), mem', n)
  {
    hide NodeAt, SameNode, SizeOf, Moved;
    var t' := Rebin(t, i, tr, gone, came, p);
    var j, q := t'.place[n].0, t'.place[n].1;
    if j != i {
      assert NodeOk(t, mem, n);
      NodeFrame(t.tries[j], j, q, mem, mem', n);
    }
  }

  /** The rest of the structure does not notice when a bin is changed consistently. */
  lemma Rebinned(t: Trees, mem: Mem, i: nat, tr: Trie, gone: int, came: int, p: Path, mem': Mem)
    requires Placed(t) && NodesOk(t, mem) && Rebins(t, mem, i, tr, gone, came, p, mem')
    ensures i < |t.tries| && Placed(Rebin(t, i, tr, gone, came, p)) && NodesOk(Rebin(t, i, tr, gone, came, p), mem')
  {
    hide NodeAt, NodeOk, Placed, Moved, TrieAt, SameNode;
    RebinPlaced(t, mem, i, tr, gone, came, p, mem');
    var t' := Rebin(t, i, tr, gone, came, p);
    forall n | n in t'.place ensures NodeOk(t', mem', n) {
      RebinNode(t, mem, i, tr, gone, came, p, mem', n);
    }
    assert forall n :: SizeOf(mem', n) == SizeOf(mem, n);
  }

  /** `tr'` has the nodes of `tr` at their places, but for `gone`, and but for `came`, which is at `p`. */
  ghost predicate Moved(tr: Trie, tr': Trie, gone: int, came: int, p: Path)
  {
    && (forall q | q in tr' ::
      if tr'[q] == came then q == p && came > 0 else tr'[q] != gone && q in tr && tr'[q] == tr[q])
    && (forall q | q in tr && tr[q] != gone && tr[q] != came :: q in tr' && tr'[q] == tr[q])
    && (came > 0 ==> p in tr' && tr'[p] == came)
  }

  lemma RingsOf(t: Trees, mem: Mem, x: int)
    requires Placed(t) && RingsOk(t, mem) && x in t.node
    ensures MemberOk(t, mem, x) && t.node[x] in t.ring && x in t.ring[t.node[x]]
    ensures x in t.place <==> t.node[x] == x
  {
    NodesAreMembers(t, mem);
    assert MemberOk(t, mem, x);
  }

  /** `x` was a node without equals, and leaves together with its ring. */
  ghost predicate LeavesAlone(t: Trees, mem: Mem, x: int, t': Trees, mem': Mem)
    requires Placed(t) && Placed(t')
  {
    && x in t.place && x in t.ring && t.ring[x] == [x]
    && t'.ring == t.ring - {x} && t'.node == t.node - {x} && t'.place.Keys == t.place.Keys - {x}
    && (forall n | n in t'.place :: t'.place[n].0 == t.place[n].0)
    && mem'.fd == mem.fd && mem'.bk == mem.bk && mem'.head == mem.head && mem'.index == mem.index
    && (forall z | z in t.node && t.node[z] != z :: SameNode(mem, mem', z))
  }

  lemma AloneMember(t: Trees, mem: Mem, x: int, t': Trees, mem': Mem, z: int)
    requires Placed(t) && RingsOk(t, mem) && Placed(t') && LeavesAlone(t, mem, x, t', mem') && z in t'.node
    ensures t'.ring.Keys == t'.place.Keys && MemberOk(t', mem', z)
  {
    hide Ring, Placed;
    RingsOf(t, mem, z);
    SameSize(mem, mem', z);
    SameSize(mem, mem', t.node[z]);
  }

  /** A node without equals leaves together with its ring. */
  lemma AloneGone(t: Trees, mem: Mem, x: int, t': Trees, mem': Mem)
    requires Placed(t) && RingsOk(t, mem) && Placed(t') && LeavesAlone(t, mem, x, t', mem')
    ensures RingsOk(t', mem')
  {
    hide Ring, Placed, MemberOk, SameNode;
    NodesAreMembers(t, mem);
    forall z | z in t'.node ensures MemberOk(t', mem', z) {
      AloneMember(t, mem, x, t', mem', z);
    }
  }

  function WithoutLeaf(t: Trees, i: nat, p: Path, x: int): Trees
    requires i < |t.tries|
  {
    Rebin(t, i, t.tries[i] - {p}, x, 0, p).(ring := t.ring - {x}, node := t.node - {x})
  }

  lemma RootLeaf(t: Trees, i: nat)
    requires Placed(t) && i < NTREEBINS && IsLeaf(t.tries[i], [])
    ensures t.tries[i].Keys == {[]}
  {
    forall q | q in t.tries[i] ensures q == [] {
      if q != [] {
        PrefixThere(t, i, q, 1);
        SnocPath([], q[0], q[..1]);
      }
    }
  }

  /** Taking a leaf without equals out. */
  lemma UnlinkLeaf(t: Trees, mem: Mem, roots: seq<int>, map_: set<nat>, x: int, i: nat, p: Path)
    requires TreesOk(t, mem, roots, map_) && x in t.place && t.place[x] == (i, p) && t.ring[x] == [x]
      && IsLeaf(t.tries[i], p)
    ensures i < |t.tries|
    ensures TreesOk(WithoutLeaf(t, i, p, x),
      if p == [] then mem else SetKid(mem, p[|p| - 1], ParentOf(t.tries[i], i, p), 0),
                    if p == [] then roots[i := 0] else roots, if p == [] then map_ - {i} else map_)
  {
    hide NodeAt, SetKid, Kid, Placed, NodesOk, RootsOk, RingsOk, TrieAt, SizeOf, Moved, Rebins, LeavesAlone;
    PlaceFacts(t, x);
    LeafRebins(t, mem, roots, map_, x, i, p);
    var mem' := if p == [] then mem else SetKid(mem, p[|p| - 1], ParentOf(t.tries[i], i, p), 0);
    Rebinned(t, mem, i, t.tries[i] - {p}, x, 0, p, mem');
    var t' := WithoutLeaf(t, i, p, x);
    SamePlaces(Rebin(t, i, t.tries[i] - {p}, x, 0, p), t', mem');
    LeafLeaves(t, mem, roots, map_, x, i, p);
    AloneGone(t, mem, x, t', mem');
    LeafRoots(t, roots, map_, x, i, p);
  }

  lemma SamePlaces(t: Trees, t': Trees, mem: Mem)
    requires Placed(t) && NodesOk(t, mem) && t'.tries == t.tries && t'.place == t.place
    ensures Placed(t') && NodesOk(t', mem)
  {
    hide NodeAt;
    forall n | n in t'.place ensures NodeOk(t', mem, n) { assert NodeOk(t, mem, n); }
  }

  lemma PlaceFacts(t: Trees, x: int)
    requires Placed(t) && x in t.place
    ensures var i, p := t.place[x].0, t.place[x].1;
      && i < NTREEBINS && |t.tries| == NTREEBINS && p in t.tries[i] && t.tries[i][p] == x && x > 0
      && (p != [] ==>
        p[..|p| - 1] in t.tries[i] && ParentOf(t.tries[i], i, p) in t.place
        && t.place[ParentOf(t.tries[i], i, p)].0 == i)
      && (p == [] ==> ParentOf(t.tries[i], i, p) < 0)
  {
  }

  lemma LeafMoved(t: Trees, x: int, i: nat, p: Path)
    requires Placed(t) && x in t.place && t.place[x] == (i, p) && i < NTREEBINS && |t.tries| == NTREEBINS
    ensures Moved(t.tries[i], t.tries[i] - {p}, x, 0, p)
  {
  }

  lemma LeafRebins(t: Trees, mem: Mem, roots: seq<int>, map_: set<nat>, x: int, i: nat, p: Path)
    requires TreesOk(t, mem, roots, map_) && x in t.place && t.place[x] == (i, p) && i < NTREEBINS
      && |t.tries| == NTREEBINS && IsLeaf(t.tries[i], p)
    ensures Rebins(t, mem, i, t.tries[i] - {p}, x, 0, p,
      if p == [] then mem else SetKid(mem, p[|p| - 1], ParentOf(t.tries[i], i, p), 0))
  {
    hide NodeAt, SetKid, Kid, SizeOf, Moved, RingsOk, RootsOk, Placed, NodesOk;
    var tr, xp := t.tries[i], ParentOf(t.tries[i], i, p);
    TrieOfBin(t, mem, i);
    PlaceFacts(t, x);
    LeafMoved(t, x, i, p);
    if p != [] {
      LeafGone(tr, i, mem, p);
      KidFields(mem, p[|p| - 1], xp, 0, false, 0);
      forall z | z in t.place && t.place[z].0 != i ensures SameNode(mem, SetKid(mem, p[|p| - 1], xp, 0), z) {
        KidFields(mem, p[|p| - 1], xp, 0, false, z);
        KidFields(mem, p[|p| - 1], xp, 0, true, z);
      }
    } else {
      RootLeaf(t, i);
    }
  }

  lemma LeafLeaves(t: Trees, mem: Mem, roots: seq<int>, map_: set<nat>, x: int, i: nat, p: Path)
    requires TreesOk(t, mem, roots, map_) && x in t.place && t.place[x] == (i, p) && t.ring[x] == [x] && i < NTREEBINS
      && |t.tries| == NTREEBINS
    requires Placed(WithoutLeaf(t, i, p, x))
    ensures LeavesAlone(t, mem, x, WithoutLeaf(t, i, p, x),
      if p == [] then mem else SetKid(mem, p[|p| - 1], ParentOf(t.tries[i], i, p), 0))
  {
    hide NodeAt, SetKid, Kid, SizeOf, Ring;
    var xp := ParentOf(t.tries[i], i, p);
    NodesAreMembers(t, mem);
    if p != [] {
      KidFields(mem, p[|p| - 1], xp, 0, false, 0);
      forall z | z in t.node && t.node[z] != z ensures SameNode(mem, SetKid(mem, p[|p| - 1], xp, 0), z) {
        KidFields(mem, p[|p| - 1], xp, 0, false, z);
        KidFields(mem, p[|p| - 1], xp, 0, true, z);
      }
    }
  }

  lemma LeafRoots(t: Trees, roots: seq<int>, map_: set<nat>, x: int, i: nat, p: Path)
    requires Placed(t) && RootsOk(t, roots, map_) && x in t.place && t.place[x] == (i, p) && IsLeaf(t.tries[i], p)
    requires Placed(WithoutLeaf(t, i, p, x))
    ensures RootsOk(WithoutLeaf(t, i, p, x),
      if p == [] then roots[i := 0] else roots, if p == [] then map_ - {i} else map_)
  {
    if p != [] { PrefixThere(t, i, p, 0); } else { RootLeaf(t, i); }
    EmptyBin(WithoutLeaf(t, i, p, x), i);
  }

  // ----- a leaf takes the place of a node

  function PromoteMem(tr: Trie, i: nat, mem: Mem, p: Path, q: Path, x: int): Mem
    requires q != [] && q in tr && q[..|q| - 1] in tr
  {
    ReplaceMem(SetKid(mem, q[|q| - 1], tr[q[..|q| - 1]], 0), p, x, tr[q], ParentOf(tr, i, p))
  }

  function Promoted(t: Trees, i: nat, p: Path, q: Path, x: int): Trees
    requires i < |t.tries| && q in t.tries[i]
  {
    Rebin(t, i, (t.tries[i] - {q})[p := t.tries[i][q]], x, t.tries[i][q], p).(ring := t.ring - {x},
      node := t.node - {x})
  }

  /** `q` leads to a leaf somewhere below the node at `p`. */
  predicate LeafBelow(tr: Trie, p: Path, q: Path)
  {
    p in tr && IsLeaf(tr, q) && |p| < |q| && q[..|p|] == p
  }

  lemma PromoteFields(tr: Trie, i: nat, mem: Mem, p: Path, q: Path, e: bool, z: int)
    requires TrieAt(tr, i, mem) && LeafBelow(tr, p, q) && q[..|q| - 1] in tr
    requires forall r | r in tr :: tr[r] != z
    ensures var m := PromoteMem(tr, i, mem, p, q, tr[p]);
      && m.head == mem.head && m.foot == mem.foot && m.fd == mem.fd && m.bk == mem.bk && m.index == mem.index
      && (z != 0 && (p != [] || z != ParentOf(tr, i, p)) ==>
        Kid(m, e, z) == Kid(mem, e, z) && At(m.parent, z) == At(mem.parent, z))
    ensures TrieAt((tr - {q})[p := tr[q]], i, PromoteMem(tr, i, mem, p, q, tr[p]))
  {
    hide Covers, TreeIndex, Kid, SetKid, ReplaceMem, NodeAt, SizeOf;
    var x, y, d, par := tr[p], tr[q], q[|q| - 1], tr[q[..|q| - 1]];
    var tr1, mem1 := tr - {q}, SetKid(mem, d, par, 0);
    LeafGone(tr, i, mem, q);
    LeafFields(tr, i, mem, p, q);
    KidFields(mem, d, par, 0, false, y);
    KidFields(mem, d, par, 0, true, y);
    KidFields(mem, d, par, 0, e, z);
    SameSize(mem, mem1, y);
    assert ParentOf(tr1, i, p) == ParentOf(tr, i, p) by { if p != [] { assert p[..|p| - 1] != q; } }
    Replaced(tr1, i, mem1, p, y);
    ParentKids(tr1, i, mem1, p, y);
    ReplaceFields(mem1, p, x, y, ParentOf(tr1, i, p), e, z);
    KidsOf(tr1, i, mem1, p);
  }

  lemma KidsOf(tr: Trie, i: nat, mem: Mem, p: Path)
    requires TrieAt(tr, i, mem) && p in tr
    ensures Kid(mem, false, tr[p]) == Look(tr, p + [false]) && Kid(mem, true, tr[p]) == Look(tr, p + [true])
  {
    assert NodeAt(tr, i, p, mem, tr[p]);
  }

  lemma LeafFields(tr: Trie, i: nat, mem: Mem, p: Path, q: Path)
    requires TrieAt(tr, i, mem) && LeafBelow(tr, p, q) && q[..|q| - 1] in tr
    ensures var y := tr[q];
      && y > 0 && Kid(mem, false, y) == 0 && Kid(mem, true, y) == 0 && tr[q[..|q| - 1]] != y && tr[p] != y
      && 0x100 <= SizeOf(mem, y) < TERA && TreeIndex(SizeOf(mem, y)) == i && Covers(i, p, SizeOf(mem, y))
  {
    hide TreeIndex, Kid, SizeOf;
    assert NodeAt(tr, i, q, mem, tr[q]);
    CoversUp(i, q, |p|, SizeOf(mem, tr[q]));
    assert q[..|q| - 1] != q;
  }

  lemma PromoteRebins(t: Trees, mem: Mem, x: int, i: nat, p: Path, q: Path)
    requires Placed(t) && NodesOk(t, mem) && x in t.place && t.place[x] == (i, p) && i < NTREEBINS
      && |t.tries| == NTREEBINS
    requires LeafBelow(t.tries[i], p, q)
    ensures q[..|q| - 1] in t.tries[i] && t.tries[i][q] in t.place
    ensures Rebins(t, mem, i, (t.tries[i] - {q})[p := t.tries[i][q]], x, t.tries[i][q], p,
      PromoteMem(t.tries[i], i, mem, p, q, x))
  {
    hide NodeAt, Kid, SizeOf, PromoteMem, TrieAt, Moved;
    var tr := t.tries[i];
    var y := tr[q];
    TrieOfBin(t, mem, i);
    PlaceFacts(t, x);
    PlaceFacts(t, y);
    PrefixThere(t, i, q, |q| - 1);
    PromoteMoved(t, x, i, p, q);
    PromoteFields(tr, i, mem, p, q, false, 0) by { NoZero(t, i); }
    forall z | z in t.place && t.place[z].0 != i ensures SameNode(mem, PromoteMem(tr, i, mem, p, q, x), z) {
      PlaceFacts(t, z);
      PromoteFields(tr, i, mem, p, q, false, z);
      PromoteFields(tr, i, mem, p, q, true, z);
    }
  }

  lemma NoZero(t: Trees, i: nat)
    requires Placed(t) && i < NTREEBINS
    ensures forall r | r in t.tries[i] :: t.tries[i][r] != 0
  {
  }

  lemma PromoteMoved(t: Trees, x: int, i: nat, p: Path, q: Path)
    requires Placed(t) && x in t.place && t.place[x] == (i, p) && i < NTREEBINS && |t.tries| == NTREEBINS
      && LeafBelow(t.tries[i], p, q)
    ensures Moved(t.tries[i], (t.tries[i] - {q})[p := t.tries[i][q]], x, t.tries[i][q], p)
  {
  }

  lemma PromotedPlaces(t: Trees, x: int, i: nat, p: Path, q: Path)
    requires Placed(t) && x in t.place && t.place[x] == (i, p)
    requires i < NTREEBINS && |t.tries| == NTREEBINS && LeafBelow(t.tries[i], p, q)
    ensures var t' := Promoted(t, i, p, q, x);
      && t'.ring == t.ring - {x} && t'.node == t.node - {x} && t'.place.Keys == t.place.Keys - {x}
      && forall n | n in t'.place :: t'.place[n].0 == t.place[n].0
  {
    PlaceFacts(t, x);
  }

  lemma PromotedNode(t: Trees, mem: Mem, x: int, i: nat, p: Path, q: Path, z: int)
    requires Placed(t) && NodesOk(t, mem) && RingsOk(t, mem) && x in t.place && t.place[x] == (i, p)
    requires i < NTREEBINS && |t.tries| == NTREEBINS && LeafBelow(t.tries[i], p, q) && q[..|q| - 1] in t.tries[i]
    requires z in t.node && t.node[z] != z
    ensures SameNode(mem, PromoteMem(t.tries[i], i, mem, p, q, x), z)
  {
    hide NodeAt, Kid, SizeOf, PromoteMem, TrieAt, Ring, LeafBelow, NodesOk;
    TrieOfBin(t, mem, i);
    PlaceFacts(t, x);
    RingsOf(t, mem, z);
    PromoteFields(t.tries[i], i, mem, p, q, false, z);
    PromoteFields(t.tries[i], i, mem, p, q, true, z);
  }

  lemma PromoteLeaves(t: Trees, mem: Mem, x: int, i: nat, p: Path, q: Path)
    requires Placed(t) && NodesOk(t, mem) && RingsOk(t, mem) && x in t.place && t.place[x] == (i, p) && t.ring[x] == [x]
    requires i < NTREEBINS && |t.tries| == NTREEBINS && LeafBelow(t.tries[i], p, q) && q[..|q| - 1] in t.tries[i]
    requires Placed(Promoted(t, i, p, q, x))
    ensures LeavesAlone(t, mem, x, Promoted(t, i, p, q, x), PromoteMem(t.tries[i], i, mem, p, q, x))
  {
    hide Placed, NodesOk, RingsOk, SameNode, PromoteMem, TrieAt, Promoted;
    assert x in t.ring by { LastOfRing(t, mem, x); }
    PlaceFacts(t, x);
    TrieOfBin(t, mem, i);
    PromotedPlaces(t, x, i, p, q);
    PromoteFields(t.tries[i], i, mem, p, q, false, 0) by { NoZero(t, i); }
    forall z | z in t.node && t.node[z] != z ensures SameNode(mem, PromoteMem(t.tries[i], i, mem, p, q, x), z) {
      PromotedNode(t, mem, x, i, p, q, z);
    }
  }

  lemma ReplaceRoots(t: Trees, roots: seq<int>, map_: set<nat>, i: nat, p: Path, t': Trees, y: int)
    requires Placed(t) && RootsOk(t, roots, map_) && Placed(t') && i < NTREEBINS && p in t.tries[i]
    requires forall j | 0 <= j < NTREEBINS && j != i :: t'.tries[j] == t.tries[j]
    requires p in t'.tries[i] && t'.tries[i][p] == y && (p != [] ==> Look(t'.tries[i], []) == Look(t.tries[i], []))
    ensures RootsOk(t', if p == [] then roots[i := y] else roots, map_)
  {
  }

  /** A node without equals but with children: a leaf from below takes its place. */
  lemma UnlinkPromote(t: Trees, mem: Mem, roots: seq<int>, map_: set<nat>, x: int, i: nat, p: Path, q: Path)
    requires TreesOk(t, mem, roots, map_) && x in t.place && t.place[x] == (i, p) && t.ring[x] == [x] && i < NTREEBINS
      && LeafBelow(t.tries[i], p, q)
    ensures q[..|q| - 1] in t.tries[i]
    ensures TreesOk(Promoted(t, i, p, q, x), PromoteMem(t.tries[i], i, mem, p, q, x),
      if p == [] then roots[i := t.tries[i][q]] else roots, map_)
  {
    hide NodeAt, Placed, NodesOk, RootsOk, RingsOk, TrieAt, SizeOf, Moved, Rebins, LeavesAlone, PromoteMem;
    PlaceFacts(t, x);
    PromoteRebins(t, mem, x, i, p, q);
    var y := t.tries[i][q];
    var mem', tr' := PromoteMem(t.tries[i], i, mem, p, q, x), (t.tries[i] - {q})[p := y];
    Rebinned(t, mem, i, tr', x, y, p, mem');
    var t' := Promoted(t, i, p, q, x);
    SamePlaces(Rebin(t, i, tr', x, y, p), t', mem');
    PromoteLeaves(t, mem, x, i, p, q);
    AloneGone(t, mem, x, t', mem');
    ReplaceRoots(t, roots, map_, i, p, t', y);
  }

  // ----- chunks of equal size

  /** Of a node with equals, one of them takes the place. */
  function Shifted(t: Trees, i: nat, p: Path, x: int, y: int): Trees
    requires i < |t.tries| && x in t.ring && |t.ring[x]| > 1
  {
    Rebin(t, i, t.tries[i][p := y], x, y, p).(
      ring := (t.ring - {x})[y := [y] + t.ring[x][1..|t.ring[x]| - 1]],
      node := map z | z in t.node && z != x :: if t.node[z] == x then y else t.node[z])
  }

  function ShiftMem(tr: Trie, i: nat, mem: Mem, p: Path, x: int, y: int): Mem
  {
    ReplaceMem(UnringMem(mem, x), p, x, y, ParentOf(tr, i, p))
  }

  lemma RingOnly(mem: Mem, mem': Mem, tr: Trie, i: nat)
    requires TrieAt(tr, i, mem) && mem'.head == mem.head && mem'.child == mem.child && mem'.parent == mem.parent
    ensures TrieAt(tr, i, mem')
  {
    hide Covers, TreeIndex;
    forall q | q in tr ensures NodeAt(tr, i, q, mem', tr[q]) { assert NodeAt(tr, i, q, mem, tr[q]); }
  }

  lemma ShiftFields(tr: Trie, i: nat, mem: Mem, p: Path, x: int, y: int, e: bool, z: int)
    requires TrieAt(tr, i, mem) && p in tr && tr[p] == x && y > 0 && (forall r | r in tr :: tr[r] != y)
    requires Kid(mem, false, y) == 0 && Kid(mem, true, y) == 0 && SizeOf(mem, y) == SizeOf(mem, x)
    requires z != y && forall r | r in tr :: tr[r] != z
    ensures var m := ShiftMem(tr, i, mem, p, x, y);
      && m.head == mem.head && m.foot == mem.foot && m.index == mem.index
      && m.fd == UnringMem(mem, x).fd && m.bk == UnringMem(mem, x).bk
      && (z != 0 && (p != [] || z != ParentOf(tr, i, p)) ==>
        Kid(m, e, z) == Kid(mem, e, z) && At(m.parent, z) == At(mem.parent, z))
    ensures TrieAt(tr[p := y], i, ShiftMem(tr, i, mem, p, x, y))
  {
    hide Covers, TreeIndex, SetKid, ReplaceMem, NodeAt, SizeOf;
    var mem1 := UnringMem(mem, x);
    RingOnly(mem, mem1, tr, i);
    assert NodeAt(tr, i, p, mem, x);
    SizeFacts(tr, i, p, mem, x);
    SameSize(mem, mem1, y);
    Replaced(tr, i, mem1, p, y);
    ParentKids(tr, i, mem1, p, y);
    ReplaceFields(mem1, p, x, y, ParentOf(tr, i, p), e, z);
    KidsOf(tr, i, mem1, p);
  }

  lemma SizeFacts(tr: Trie, i: nat, p: Path, mem: Mem, x: int)
    requires NodeAt(tr, i, p, mem, x)
    ensures 0x100 <= SizeOf(mem, x) < TERA && TreeIndex(SizeOf(mem, x)) == i && Covers(i, p, SizeOf(mem, x))
  {
  }

  /** The last chunk of the ring, as the source finds it. */
  lemma LastOfRing(t: Trees, mem: Mem, x: int)
    requires Placed(t) && RingsOk(t, mem) && x in t.place
    ensures x in t.ring && |t.ring[x]| > 0 && At(mem.bk, x) == t.ring[x][|t.ring[x]| - 1]
    ensures At(mem.bk, x) == x <==> t.ring[x] == [x]
    ensures |t.ring[x]| > 1 ==>
      var y := At(mem.bk, x); y > 0 && y in t.node && t.node[y] == x && y != x && y !in t.place
  {
    RingBack(mem.fd, mem.bk, t.ring[x], 0);
    var y := At(mem.bk, x);
    if |t.ring[x]| > 1 {
      assert y in t.ring[x];
      RingsOf(t, mem, y);
    }
  }

  /** The last of the ring can take the place of its node. */
  lemma ShiftReady(t: Trees, mem: Mem, x: int, i: nat, p: Path, y: int)
    requires Placed(t) && NodesOk(t, mem) && RingsOk(t, mem) && x in t.place && t.place[x] == (i, p) && i < NTREEBINS
      && |t.tries| == NTREEBINS
    requires |t.ring[x]| > 1 && y == At(mem.bk, x) && p in t.tries[i]
    ensures var tr := t.tries[i];
      && TrieAt(tr, i, mem) && tr[p] == x && y > 0 && (forall r | r in tr :: tr[r] != y)
      && Kid(mem, false, y) == 0 && Kid(mem, true, y) == 0 && SizeOf(mem, y) == SizeOf(mem, x)
  {
    hide NodeAt, NodesOk, Kid, SizeOf, TrieAt, Ring;
    TrieOfBin(t, mem, i);
    PlaceFacts(t, x);
    LastOfRing(t, mem, x);
    RingsOf(t, mem, y);
  }

  lemma ShiftedNode(t: Trees, mem: Mem, x: int, i: nat, p: Path, y: int, z: int)
    requires Placed(t) && NodesOk(t, mem) && RingsOk(t, mem) && x in t.place && t.place[x] == (i, p) && i < NTREEBINS
      && |t.tries| == NTREEBINS
    requires |t.ring[x]| > 1 && y == At(mem.bk, x) && p in t.tries[i]
    requires z > 0 && z != y && (forall r | r in t.tries[i] :: t.tries[i][r] != z)
    ensures SameNode(mem, ShiftMem(t.tries[i], i, mem, p, x, y), z)
  {
    hide NodeAt, Kid, SizeOf, ShiftMem, TrieAt, Ring, NodesOk, RingsOk;
    ShiftReady(t, mem, x, i, p, y);
    PlaceFacts(t, x);
    ShiftFields(t.tries[i], i, mem, p, x, y, false, z);
    ShiftFields(t.tries[i], i, mem, p, x, y, true, z);
  }

  lemma ShiftRebins(t: Trees, mem: Mem, x: int, i: nat, p: Path, y: int)
    requires Placed(t) && NodesOk(t, mem) && RingsOk(t, mem) && x in t.place && t.place[x] == (i, p) && i < NTREEBINS
      && |t.tries| == NTREEBINS
    requires |t.ring[x]| > 1 && y == At(mem.bk, x) && p in t.tries[i]
    ensures Rebins(t, mem, i, t.tries[i][p := y], x, y, p, ShiftMem(t.tries[i], i, mem, p, x, y))
  {
    hide NodeAt, Kid, SizeOf, ShiftMem, TrieAt, Ring, SameNode, RingsOk;
    var tr := t.tries[i];
    ShiftReady(t, mem, x, i, p, y);
    PlaceFacts(t, x);
    ShiftFields(tr, i, mem, p, x, y, false, 0) by { NoZero(t, i); }
    forall z | z in t.place && t.place[z].0 != i ensures SameNode(mem, ShiftMem(tr, i, mem, p, x, y), z) {
      PlaceFacts(t, z);
      ShiftedNode(t, mem, x, i, p, y, z) by { LastOfRing(t, mem, x); }
    }
  }

  /** Where the members of rings belong after the last of the ring of `x` became the node. */
  lemma ShiftedRing(t: Trees, mem: Mem, x: int, i: nat, p: Path, y: int, z: int)
    requires Placed(t) && RingsOk(t, mem) && x in t.place && t.place[x] == (i, p) && i < NTREEBINS
      && |t.tries| == NTREEBINS
    requires |t.ring[x]| > 1 && y == At(mem.bk, x) && z in Shifted(t, i, p, x, y).node
    requires Shifted(t, i, p, x, y).ring.Keys == Shifted(t, i, p, x, y).place.Keys
    ensures z in t.node && z != x && y in t.node && t.node[y] == x && MemberOk(t, mem, z) && MemberOk(t, mem, y)
    ensures var t' := Shifted(t, i, p, x, y); var n := t'.node[z];
      && n in t'.ring && t'.place[n].0 == t.place[t.node[z]].0
      && if t.node[z] == x then n == y else n == t.node[z] && n != y
    ensures t.node[z] != z && z != y ==> forall r | r in t.tries[i] :: t.tries[i][r] != z
  {
    hide Kid, SizeOf, Ring, NodeAt;
    LastOfRing(t, mem, x);
    RingsOf(t, mem, y);
    RingsOf(t, mem, z);
    PlaceFacts(t, x);
  }

  lemma ShiftMember(t: Trees, mem: Mem, x: int, i: nat, p: Path, y: int, z: int)
    requires Placed(t) && NodesOk(t, mem) && RingsOk(t, mem) && x in t.place && t.place[x] == (i, p) && i < NTREEBINS
      && |t.tries| == NTREEBINS
    requires |t.ring[x]| > 1 && y == At(mem.bk, x) && p in t.tries[i]
    requires var t' := Shifted(t, i, p, x, y); Placed(t') && t'.ring.Keys == t'.place.Keys && z in t'.node
    ensures MemberOk(Shifted(t, i, p, x, y), ShiftMem(t.tries[i], i, mem, p, x, y), z)
  {
    hide Placed, NodesOk, RingsOk, Kid, SizeOf, ShiftMem, TrieAt, Shifted;
    assert x in t.ring by { LastOfRing(t, mem, x); }
    var tr := t.tries[i];
    var t', mem' := Shifted(t, i, p, x, y), ShiftMem(tr, i, mem, p, x, y);
    ShiftedRing(t, mem, x, i, p, y, z);
    ShiftReady(t, mem, x, i, p, y);
    ShiftFields(tr, i, mem, p, x, y, false, 0) by { NoZero(t, i); }
    SameSize(mem, mem', z);
    SameSize(mem, mem', t'.node[z]);
    if t.node[z] != z && z != y { ShiftedNode(t, mem, x, i, p, y, z); }
  }

  lemma ShiftRings(t: Trees, mem: Mem, x: int, i: nat, p: Path, y: int, n: int)
    requires Placed(t) && NodesOk(t, mem) && RingsOk(t, mem) && x in t.place && t.place[x] == (i, p) && i < NTREEBINS
      && |t.tries| == NTREEBINS
    requires |t.ring[x]| > 1 && y == At(mem.bk, x) && p in t.tries[i] && n in Shifted(t, i, p, x, y).ring
    ensures var m, r := UnringMem(mem, x), Shifted(t, i, p, x, y).ring[n]; Ring(m.fd, m.bk, r) && |r| > 0 && r[0] == n
  {
    hide Ring, Placed, NodesOk, MembersOk, Rebin;
    LastOfRing(t, mem, x);
    var m := UnringMem(mem, x);
    RingShift(mem.fd, mem.bk, t.ring[x]);
    if n != y {
      UnringFrame(mem, t.ring[x], 0);
      OtherRing(t, mem, x, n, m);
      assert Shifted(t, i, p, x, y).ring[n] == t.ring[n];
    }
  }

  lemma OtherRing(t: Trees, mem: Mem, x: int, n: int, m: Mem)
    requires Placed(t) && RingsOk(t, mem) && x in t.ring && n in t.ring && n != x
    requires forall z | z !in t.ring[x] :: At(m.fd, z) == At(mem.fd, z) && At(m.bk, z) == At(mem.bk, z)
    ensures Ring(m.fd, m.bk, t.ring[n]) && |t.ring[n]| > 0 && t.ring[n][0] == n
  {
    hide MemberOk, Placed;
    forall z | z in t.ring[n] ensures z !in t.ring[x] {
      assert t.node[z] == n;
    }
    RingFrame(mem.fd, mem.bk, t.ring[n], m.fd, m.bk);
  }

  lemma UnringFrame(mem: Mem, r: seq<int>, k: nat)
    requires Ring(mem.fd, mem.bk, r) && k < |r|
    ensures var m := UnringMem(mem, r[k]);
      forall z | z !in r :: At(m.fd, z) == At(mem.fd, z) && At(m.bk, z) == At(mem.bk, z)
  {
    RingBack(mem.fd, mem.bk, r, k);
  }

  /** A node with equals: the last of its ring takes its place. */
  lemma UnlinkShift(t: Trees, mem: Mem, roots: seq<int>, map_: set<nat>, x: int, i: nat, p: Path, y: int)
    requires TreesOk(t, mem, roots, map_) && x in t.place && t.place[x] == (i, p) && i < NTREEBINS && |t.ring[x]| > 1
      && y == At(mem.bk, x)
    ensures TreesOk(Shifted(t, i, p, x, y), ShiftMem(t.tries[i], i, mem, p, x, y),
      if p == [] then roots[i := y] else roots, map_)
  {
    hide NodeAt, Placed, NodesOk, RootsOk, TrieAt, SizeOf, Moved, Rebins, ShiftMem, Ring, MemberOk;
    PlaceFacts(t, x);
    ShiftRebins(t, mem, x, i, p, y);
    var mem', tr' := ShiftMem(t.tries[i], i, mem, p, x, y), t.tries[i][p := y];
    Rebinned(t, mem, i, tr', x, y, p, mem');
    var t' := Shifted(t, i, p, x, y);
    SamePlaces(Rebin(t, i, tr', x, y, p), t', mem');
    LastOfRing(t, mem, x);
    TrieOfBin(t, mem, i);
    RingsOf(t, mem, y);
    ShiftLinks(t, mem, x, i, p, y);
    forall z | z in t'.node ensures MemberOk(t', mem', z) { ShiftMember(t, mem, x, i, p, y, z); }
    forall n | n in t'.ring
      ensures Ring(mem'.fd, mem'.bk, t'.ring[n]) && |t'.ring[n]| > 0 && t'.ring[n][0] == n
    {
      ShiftRings(t, mem, x, i, p, y, n);
    }
    forall n, z | n in t'.ring
      ensures z in t'.ring[n] <==> z in t'.node && t'.node[z] == n
    {
      ShiftContents(t, mem, x, i, p, y, n, z);
    }
    ReplaceRoots(t, roots, map_, i, p, t', y);
  }

  lemma ShiftLinks(t: Trees, mem: Mem, x: int, i: nat, p: Path, y: int)
    requires Placed(t) && NodesOk(t, mem) && RingsOk(t, mem) && x in t.place && t.place[x] == (i, p) && i < NTREEBINS
      && |t.tries| == NTREEBINS
    requires |t.ring[x]| > 1 && y == At(mem.bk, x) && p in t.tries[i]
    ensures var m := ShiftMem(t.tries[i], i, mem, p, x, y);
      m.fd == UnringMem(mem, x).fd && m.bk == UnringMem(mem, x).bk && m.head == mem.head && m.foot == mem.foot
      && m.index == mem.index
  {
    hide NodeAt, Kid, SizeOf, ShiftMem, TrieAt, Ring;
    TrieOfBin(t, mem, i);
    PlaceFacts(t, x);
    LastOfRing(t, mem, x);
    RingsOf(t, mem, y);
    ShiftFields(t.tries[i], i, mem, p, x, y, false, 0) by { NoZero(t, i); }
  }

  lemma InnerOnly(r: seq<int>, z: int)
    requires |r| > 1 && Distinct(r)
    ensures z in r <==> z == r[0] || z in r[1..|r| - 1] || z == r[|r| - 1]
    ensures z in r[1..|r| - 1] ==> z != r[0] && z != r[|r| - 1]
  {
    assert r == [r[0]] + r[1..|r| - 1] + [r[|r| - 1]];
    if z in r[1..|r| - 1] {
      var k :| 0 <= k < |r| - 2 && r[1..|r| - 1][k] == z;
      assert r[k + 1] == z;
    }
  }

  lemma ShiftContents(t: Trees, mem: Mem, x: int, i: nat, p: Path, y: int, n: int, z: int)
    requires Placed(t) && RingsOk(t, mem) && x in t.place && i < |t.tries| && |t.ring[x]| > 1 && y == At(mem.bk, x)
      && n in Shifted(t, i, p, x, y).ring
    ensures var t' := Shifted(t, i, p, x, y); z in t'.ring[n] <==> z in t'.node && t'.node[z] == n
  {
    LastOfRing(t, mem, x);
    var r := t.ring[x];
    NodesAreMembers(t, mem);
    InnerOnly(r, z);
    InnerOnly(r, x);
    if z in t.node { RingsOf(t, mem, z); }
  }
}
