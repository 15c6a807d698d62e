/** The tree bins in memory, and what inserting and unlinking a chunk does to them. */
module AllocTries {
  import opened AllocSizes
  import opened AllocRings
  import opened AllocTrees

  /** The address of the root pointer of bin `i`, which the root has as its parent. */
  function TreeHdr(i: nat): int { -100 - i }

  function SizeOf(mem: Mem, x: int): int { At(mem.head, x) / 4 * 4 }

  lemma SameSize(mem: Mem, mem': Mem, x: int)
    requires mem.head == mem'.head
    ensures SizeOf(mem, x) == SizeOf(mem', x)
  {
  }

  function Look(t: Trie, p: Path): int { if p in t then t[p] else 0 }

  function Kid(mem: Mem, d: bool, x: int): int { if (d, x) in mem.child then mem.child[(d, x)] else 0 }

  function SetKid(mem: Mem, d: bool, x: int, v: int): Mem
  {
    mem.(child := mem.child[(d, x) := v])
  }

  function ParentOf(t: Trie, i: nat, p: Path): int { if p == [] then TreeHdr(i) else Look(t, p[..|p| - 1]) }

  /** Every node is at exactly one place, and the places of a bin reach up to its root. */
  ghost predicate Placed(t: Trees)
  {
    && |t.tries| == NTREEBINS
    && (forall n | n in t.place ::
      n > 0 && t.place[n].0 < NTREEBINS && t.place[n].1 in t.tries[t.place[n].0]
      && t.tries[t.place[n].0][t.place[n].1] == n)
    && (forall i, p | 0 <= i < NTREEBINS && p in t.tries[i] ::
      t.tries[i][p] in t.place && t.place[t.tries[i][p]] == (i, p))
    && (forall i, p | 0 <= i < NTREEBINS && p in t.tries[i] && p != [] :: p[..|p| - 1] in t.tries[i])
  }

  /** The fields of a node at path `p` of a trie. */
  ghost predicate NodeAt(tr: Trie, i: nat, p: Path, mem: Mem, n: int)
  {
    && 0x100 <= SizeOf(mem, n) < TERA && TreeIndex(SizeOf(mem, n)) == i && Covers(i, p, SizeOf(mem, n))
    && Kid(mem, false, n) == Look(tr, p + [false])
    && Kid(mem, true, n) == Look(tr, p + [true])
    && At(mem.parent, n) == ParentOf(tr, i, p)
  }

  ghost predicate NodeOk(t: Trees, mem: Mem, n: int)
    requires Placed(t) && n in t.place
  {
    NodeAt(t.tries[t.place[n].0], t.place[n].0, t.place[n].1, mem, n)
  }

  ghost predicate NodesOk(t: Trees, mem: Mem)
    requires Placed(t)
  {
    && (forall n | n in t.place :: NodeOk(t, mem, n))
    && (forall n, m | n in t.place && m in t.place && SizeOf(mem, n) == SizeOf(mem, m) :: n == m)
  }

  /** The chunks of equal size around each node. Only the node itself is linked into the tree. */
  ghost predicate RingsOk(t: Trees, mem: Mem)
    requires Placed(t)
  {
    && t.ring.Keys == t.place.Keys && MembersOk(t, mem)
    && (forall n | n in t.ring :: Ring(mem.fd, mem.bk, t.ring[n]) && t.ring[n][0] == n)
  }

  ghost predicate RootsOk(t: Trees, roots: seq<int>, map_: set<nat>)
    requires Placed(t)
  {
    && |roots| == NTREEBINS && (forall i | 0 <= i < NTREEBINS :: roots[i] == Look(t.tries[i], []))
    && (forall i: nat :: i in map_ <==> i < NTREEBINS && t.tries[i] != map[])
  }

  ghost predicate TreesOk(t: Trees, mem: Mem, roots: seq<int>, map_: set<nat>)
  {
    Placed(t) && NodesOk(t, mem) && RingsOk(t, mem) && RootsOk(t, roots, map_)
  }

  lemma {:induction false} RootThere(t: Trees, i: nat, p: Path)
    requires Placed(t) && i < NTREEBINS && p in t.tries[i]
    ensures [] in t.tries[i]
    decreases |p|
  {
    if p != [] { RootThere(t, i, p[..|p| - 1]); }
  }

  lemma EmptyBin(t: Trees, i: nat)
    requires Placed(t) && i < NTREEBINS
    ensures t.tries[i] == map[] <==> [] !in t.tries[i]
  {
    if t.tries[i] != map[] {
      var p :| p in t.tries[i];
      RootThere(t, i, p);
    }
  }

  /** All prefixes of a place are places. */
  lemma {:induction false} PrefixThere(t: Trees, i: nat, p: Path, k: nat)
    requires Placed(t) && i < NTREEBINS && p in t.tries[i] && k <= |p|
    ensures p[..k] in t.tries[i]
    decreases |p|
  {
    if k < |p| {
      var q := p[..|p| - 1];
      PrefixThere(t, i, q, k);
      assert q[..k] == p[..k];
    } else {
      assert p[..k] == p;
    }
  }

  // ----- a new node

  function WithNode(t: Trees, i: nat, p: Path, x: int): Trees
    requires i < |t.tries|
  {
    Trees(t.tries[i := t.tries[i][p := x]], t.place[x := (i, p)], t.ring[x := [x]], t.node[x := x])
  }

  /** The fields of a chunk that goes into bin `i`, before it is linked. */
  function BlankMem(mem: Mem, i: nat, x: int): Mem
  {
    mem.(index := mem.index[x := i], child := mem.child[(false, x) := 0][(true, x) := 0])
  }

  predicate Blank(mem: Mem, i: nat, x: int)
  {
    At(mem.index, x) == i && Kid(mem, false, x) == 0 && Kid(mem, true, x) == 0
  }

  /** The memory after such a chunk became a node of its own below `par`. */
  function NewNodeMem(mem: Mem, p: Path, x: int, par: int): Mem
  {
    var m := mem.(parent := mem.parent[x := par], fd := mem.fd[x := x], bk := mem.bk[x := x]);
    if p == [] then m else SetKid(m, p[|p| - 1], par, x)
  }

  lemma NewFields(mem: Mem, p: Path, x: int, par: int, y: int)
    requires p != [] ==> par != x
    ensures var m := NewNodeMem(mem, p, x, par);
      && m.head == mem.head && m.foot == mem.foot && m.index == mem.index
      && Kid(m, false, y) == (if p != [] && y == par && !p[|p| - 1] then x else Kid(mem, false, y))
      && Kid(m, true, y) == (if p != [] && y == par && p[|p| - 1] then x else Kid(mem, true, y))
      && At(m.parent, y) == (if y == x then par else At(mem.parent, y))
      && At(m.fd, y) == (if y == x then x else At(mem.fd, y)) && At(m.bk, y) == (if y == x then x else At(mem.bk, y))
  {
  }

  ghost predicate Fresh(t: Trees, mem: Mem, x: int, i: nat, p: Path)
    requires Placed(t)
  {
    && x > 0 && x !in t.place && Blank(mem, i, x) && i < NTREEBINS && p !in t.tries[i]
    && (p == [] || p[..|p| - 1] in t.tries[i])
    && 0x100 <= SizeOf(mem, x) < TERA && TreeIndex(SizeOf(mem, x)) == i && Covers(i, p, SizeOf(mem, x))
  }

  lemma ParentIsNot(t: Trees, mem: Mem, x: int, i: nat, p: Path)
    requires Placed(t) && Fresh(t, mem, x, i, p)
    ensures ParentOf(t.tries[i], i, p) != x && |t.tries| == NTREEBINS && i < NTREEBINS && p !in t.tries[i]
    ensures p != [] ==> p[..|p| - 1] in t.tries[i] && t.tries[i][p[..|p| - 1]] in t.place
  {
    hide Covers, TreeIndex;
  }

  lemma NewPlaced(t: Trees, mem: Mem, x: int, i: nat, p: Path)
    requires Placed(t) && Fresh(t, mem, x, i, p)
    ensures i < |t.tries| && Placed(WithNode(t, i, p, x))
  {
    hide Covers, TreeIndex;
  }

  lemma NewNodeAt(tr: Trie, i: nat, p: Path, mem: Mem, x: int)
    requires 0x100 <= SizeOf(mem, x) < TERA && TreeIndex(SizeOf(mem, x)) == i && Covers(i, p, SizeOf(mem, x))
    requires p + [false] !in tr && p + [true] !in tr && ParentOf(tr, i, p) != x && Blank(mem, i, x)
    ensures NodeAt(tr[p := x], i, p, NewNodeMem(mem, p, x, ParentOf(tr, i, p)), x)
  {
    hide Covers, TreeIndex, Kid, NewNodeMem;
    NewFields(mem, p, x, ParentOf(tr, i, p), x);
  }

  lemma OldNodeAt(tr: Trie, i: nat, q: Path, mem: Mem, n: int, p: Path, x: int)
    requires NodeAt(tr, i, q, mem, n) && n != x && q != p && p !in tr && ParentOf(tr, i, p) != x && q in tr
      && tr[q] == n
    requires q != [] ==> q[..|q| - 1] in tr
    requires p != [] && p[..|p| - 1] in tr && (n == tr[p[..|p| - 1]] ==> q == p[..|p| - 1])
    ensures NodeAt(tr[p := x], i, q, NewNodeMem(mem, p, x, ParentOf(tr, i, p)), n)
  {
    hide Covers, TreeIndex, Kid, NewNodeMem;
    NewFields(mem, p, x, ParentOf(tr, i, p), n);
    var r, d := p[..|p| - 1], p[|p| - 1];
    assert p == r + [d];
    assert forall e :: q + [e] == p <==> q == r && e == d by {
      forall e | q + [e] == p ensures q == r && e == d { assert (q + [e])[..|q|] == q && (q + [e])[|q|] == e; }
    }
    if q != [] { assert q[..|q| - 1] != p; }
  }

  /** A node of another bin, or any node when the new one is a root. */
  lemma OtherNodeAt(tr: Trie, i: nat, q: Path, mem: Mem, n: int, p: Path, x: int, par: int)
    requires NodeAt(tr, i, q, mem, n) && n != x && (p != [] ==> par != x && n != par)
    ensures NodeAt(tr, i, q, NewNodeMem(mem, p, x, par), n)
  {
    hide Covers, TreeIndex, Kid, NewNodeMem;
    NewFields(mem, p, x, par, n);
  }

  lemma NewNodes(t: Trees, mem: Mem, x: int, i: nat, p: Path, n: int)
    requires Placed(t) && NodesOk(t, mem) && Fresh(t, mem, x, i, p) && (n in t.place || n == x)
    ensures i < |t.tries| && Placed(WithNode(t, i, p, x))
    ensures NodeOk(WithNode(t, i, p, x), NewNodeMem(mem, p, x, ParentOf(t.tries[i], i, p)), n)
  {
    hide NodeAt, Covers, TreeIndex, NewNodeMem, SizeOf;
    NewPlaced(t, mem, x, i, p);
    ParentIsNot(t, mem, x, i, p);
    var tr := t.tries[i];
    var par := ParentOf(tr, i, p);
    if n == x {
      NoKidsOf(t, i, p);
      NewNodeAt(tr, i, p, mem, x);
    } else {
      var j, q := t.place[n].0, t.place[n].1;
      assert NodeOk(t, mem, n);
      if j == i && p != [] {
        OldNodeAt(tr, i, q, mem, n, p, x);
      } else {
        if j == i { EmptyBin(t, i); }
        OtherNodeAt(t.tries[j], j, q, mem, n, p, x, par);
      }
    }
  }

  lemma NoKidsOf(t: Trees, i: nat, p: Path)
    requires Placed(t) && i < NTREEBINS && p !in t.tries[i]
    ensures p + [false] !in t.tries[i] && p + [true] !in t.tries[i]
  {
    assert (p + [false])[..|p|] == p && (p + [true])[..|p|] == p;
  }

  lemma NodesAreMembers(t: Trees, mem: Mem)
    requires Placed(t) && RingsOk(t, mem)
    ensures forall n | n in t.place :: n in t.node && t.node[n] == n
  {
    forall n | n in t.place ensures n in t.node && t.node[n] == n { assert n in t.ring && t.ring[n][0] in t.ring[n]; }
  }

  /** Fields of the chunks of a bin, apart from those of nodes. */
  ghost predicate MembersOk(t: Trees, mem: Mem)
    requires Placed(t) && t.ring.Keys == t.place.Keys
  {
    && (forall n, x | n in t.ring :: x in t.ring[n] <==> x in t.node && t.node[x] == n)
    && (forall x | x in t.node :: MemberOk(t, mem, x))
  }

  ghost predicate MemberOk(t: Trees, mem: Mem, x: int)
    requires Placed(t) && t.ring.Keys == t.place.Keys && x in t.node
  {
    && x > 0 && t.node[x] in t.ring && SizeOf(mem, x) == SizeOf(mem, t.node[x])
    && At(mem.index, x) == t.place[t.node[x]].0
    && (t.node[x] != x ==> At(mem.parent, x) == 0 && Kid(mem, false, x) == 0 && Kid(mem, true, x) == 0)
  }

  lemma NewRing(t: Trees, mem: Mem, x: int, i: nat, p: Path, n: int)
    requires Placed(t) && RingsOk(t, mem) && Fresh(t, mem, x, i, p) && x !in t.node && n in t.ring
    ensures i < |t.tries| && var m := NewNodeMem(mem, p, x, ParentOf(t.tries[i], i, p)); Ring(m.fd, m.bk, t.ring[n])
  {
    hide Covers, TreeIndex, Ring, NewNodeMem, Kid, MemberOk;
    var mem' := NewNodeMem(mem, p, x, ParentOf(t.tries[i], i, p));
    forall y | y in t.ring[n] ensures At(mem'.fd, y) == At(mem.fd, y) && At(mem'.bk, y) == At(mem.bk, y) {
      NewFields(mem, p, x, ParentOf(t.tries[i], i, p), y);
    }
    RingFrame(mem.fd, mem.bk, t.ring[n], mem'.fd, mem'.bk);
  }

  lemma NewMember(t: Trees, mem: Mem, x: int, i: nat, p: Path, y: int)
    requires Placed(t) && RingsOk(t, mem) && Fresh(t, mem, x, i, p) && x !in t.node && y in WithNode(t, i, p, x).node
    requires Placed(WithNode(t, i, p, x)) && WithNode(t, i, p, x).ring.Keys == WithNode(t, i, p, x).place.Keys
    ensures MemberOk(WithNode(t, i, p, x), NewNodeMem(mem, p, x, ParentOf(t.tries[i], i, p)), y)
  {
    hide Covers, TreeIndex, Ring, NewNodeMem, Kid;
    ParentIsNot(t, mem, x, i, p);
    NodesAreMembers(t, mem);
    NewFields(mem, p, x, ParentOf(t.tries[i], i, p), y);
    if y != x { assert MemberOk(t, mem, y); }
  }

  lemma NewRingHas(t: Trees, mem: Mem, x: int, i: nat, p: Path, n: int, y: int)
    requires Placed(t) && RingsOk(t, mem) && i < |t.tries| && x !in t.node && n in WithNode(t, i, p, x).ring
    ensures var t' := WithNode(t, i, p, x); y in t'.ring[n] <==> y in t'.node && t'.node[y] == n
  {
    hide Placed, Ring, Kid, SizeOf;
    NodesAreMembers(t, mem);
    if y in t.node { assert MemberOk(t, mem, y); }
    if n != x { assert y in t.ring[n] <==> y in t.node && t.node[y] == n; }
  }

  lemma NewMembers(t: Trees, mem: Mem, x: int, i: nat, p: Path)
    requires Placed(t) && RingsOk(t, mem) && Fresh(t, mem, x, i, p) && x !in t.node
    ensures i < |t.tries| && Placed(WithNode(t, i, p, x))
      && RingsOk(WithNode(t, i, p, x), NewNodeMem(mem, p, x, ParentOf(t.tries[i], i, p)))
  {
    hide Covers, TreeIndex, Ring, NewNodeMem, Kid, MemberOk;
    NewPlaced(t, mem, x, i, p);
    var par := ParentOf(t.tries[i], i, p);
    var t', mem' := WithNode(t, i, p, x), NewNodeMem(mem, p, x, par);
    hide Placed;
    NewFields(mem, p, x, par, x);
    RingAlone(x, mem'.fd, mem'.bk);
    forall n | n in t.ring ensures Ring(mem'.fd, mem'.bk, t.ring[n]) { NewRing(t, mem, x, i, p, n); }
    forall n, y | n in t'.ring
      ensures y in t'.ring[n] <==> y in t'.node && t'.node[y] == n
    {
      NewRingHas(t, mem, x, i, p, n, y);
    }
    forall y | y in t'.node ensures MemberOk(t', mem', y) { NewMember(t, mem, x, i, p, y); }
  }

  lemma NewRoots(t: Trees, mem: Mem, roots: seq<int>, map_: set<nat>, x: int, i: nat, p: Path)
    requires Placed(t) && RootsOk(t, roots, map_) && Fresh(t, mem, x, i, p)
    ensures i < |t.tries| && Placed(WithNode(t, i, p, x))
    ensures RootsOk(WithNode(t, i, p, x), if p == [] then roots[i := x] else roots, map_ + {i})
  {
    hide Placed, Fresh;
    NewPlaced(t, mem, x, i, p);
    ParentIsNot(t, mem, x, i, p);
    var t', roots', map' := WithNode(t, i, p, x), if p == [] then roots[i := x] else roots, map_ + {i};
    forall j | 0 <= j < NTREEBINS ensures roots'[j] == Look(t'.tries[j], []) {
      assert j != i ==> t'.tries[j] == t.tries[j];
    }
    forall j: nat ensures j in map' <==> j < NTREEBINS && t'.tries[j] != map[] {
      if j == i { assert p in t'.tries[i]; } else { assert j < NTREEBINS ==> t'.tries[j] == t.tries[j]; }
    }
  }

  /** A chunk whose size has no node yet becomes one, below the last node on its way. */
  lemma NewNode(t: Trees, mem: Mem, roots: seq<int>, map_: set<nat>, x: int, i: nat, p: Path)
    requires TreesOk(t, mem, roots, map_) && Fresh(t, mem, x, i, p) && x !in t.node
    requires forall n | n in t.place :: SizeOf(mem, n) != SizeOf(mem, x)
    ensures i < |t.tries|
    ensures TreesOk(WithNode(t, i, p, x), NewNodeMem(mem, p, x, ParentOf(t.tries[i], i, p)),
      if p == [] then roots[i := x] else roots, map_ + {i})
  {
    hide NodeOk, RingsOk, RootsOk, Fresh, Placed, NewNodeMem;
    NewPlaced(t, mem, x, i, p);
    var par := ParentOf(t.tries[i], i, p);
    var t', mem' := WithNode(t, i, p, x), NewNodeMem(mem, p, x, par);
    NewMembers(t, mem, x, i, p);
    NewRoots(t, mem, roots, map_, x, i, p);
    ParentIsNot(t, mem, x, i, p);
    NewFields(mem, p, x, par, x);
    forall n | n in t'.place ensures NodeOk(t', mem', n) {
      NewNodes(t, mem, x, i, p, n);
    }
  }
}
