/** Chunks that share their size with the node of a tree: joining and leaving its ring. */
module AllocMembers {
  import opened AllocSizes
  import opened AllocRings
  import opened AllocTrees
  import opened AllocTries
  import opened AllocUnlink

  lemma SameNodes(t: Trees, mem: Mem, t': Trees, mem': Mem)
    requires Placed(t) && NodesOk(t, mem) && t'.tries == t.tries && t'.place == t.place && mem'.head == mem.head
    requires forall n | n in t.place :: SameNode(mem, mem', n)
    ensures Placed(t') && NodesOk(t', mem')
  {
    hide NodeAt, SameNode;
    forall n | n in t'.place ensures NodeOk(t', mem', n) {
      assert NodeOk(t, mem, n);
      NodeFrame(t.tries[t.place[n].0], t.place[n].0, t.place[n].1, mem, mem', n);
    }
    assert forall n :: SizeOf(mem', n) == SizeOf(mem, n);
  }

  lemma SameRoots(t: Trees, roots: seq<int>, map_: set<nat>, t': Trees)
    requires Placed(t) && RootsOk(t, roots, map_) && t'.tries == t.tries && t'.place == t.place && Placed(t')
    ensures RootsOk(t', roots, map_)
  {
  }

  /** Only the ring of `n` changed, and only `x` joined or left it. */
  ghost predicate RingChanged(t: Trees, mem: Mem, n: int, x: int, t': Trees, mem': Mem)
    requires Placed(t) && n in t.ring
  {
    && t.ring.Keys == t.place.Keys && t'.tries == t.tries && t'.place == t.place && t'.ring.Keys == t.ring.Keys
    && mem'.head == mem.head
    && (forall m | m in t.ring && m != n :: t'.ring[m] == t.ring[m])
    && Ring(mem'.fd, mem'.bk, t'.ring[n]) && |t'.ring[n]| > 0 && t'.ring[n][0] == n
    && (forall z | z !in t.ring[n] && z != x :: At(mem'.fd, z) == At(mem.fd, z) && At(mem'.bk, z) == At(mem.bk, z))
    && (forall z | z != x :: z in t'.ring[n] <==> z in t.ring[n])
    && (forall z | z != x :: z in t'.node <==> z in t.node)
    && (forall z | z != x && z in t.node :: t'.node[z] == t.node[z])
    && (x in t'.ring[n] <==> x in t'.node) && (x in t'.node ==> t'.node[x] == n && MemberOk(t', mem', x))
    && (x in t.node ==> t.node[x] == n)
    && (forall z | z != x :: SameNode(mem, mem', z) && At(mem'.index, z) == At(mem.index, z))
  }

  lemma OldMember(t: Trees, mem: Mem, n: int, x: int, t': Trees, mem': Mem, z: int)
    requires Placed(t) && RingsOk(t, mem) && n in t.ring && RingChanged(t, mem, n, x, t', mem') && z in t'.node
      && z != x
    ensures Placed(t') && t'.ring.Keys == t'.place.Keys && MemberOk(t', mem', z)
  {
    hide Ring;
    RingsOf(t, mem, z);
    SameSize(mem, mem', z);
    SameSize(mem, mem', t.node[z]);
  }

  lemma OldRing(t: Trees, mem: Mem, n: int, x: int, t': Trees, mem': Mem, m: int)
    requires Placed(t) && RingsOk(t, mem) && n in t.ring && RingChanged(t, mem, n, x, t', mem') && m in t.ring && m != n
    ensures Ring(mem'.fd, mem'.bk, t'.ring[m]) && |t'.ring[m]| > 0 && t'.ring[m][0] == m
  {
    hide Placed, MemberOk, SameNode, SizeOf;
    forall z | z in t.ring[m] ensures At(mem'.fd, z) == At(mem.fd, z) && At(mem'.bk, z) == At(mem.bk, z) {
      assert t.node[z] == m;
    }
    RingFrame(mem.fd, mem.bk, t.ring[m], mem'.fd, mem'.bk);
  }

  lemma ChangedContents(t: Trees, mem: Mem, n: int, x: int, t': Trees, mem': Mem, m: int, z: int)
    requires Placed(t) && RingsOk(t, mem) && n in t.ring && RingChanged(t, mem, n, x, t', mem') && m in t.ring
    ensures z in t'.ring[m] <==> z in t'.node && t'.node[z] == m
  {
    hide Placed, Ring, MemberOk, SameNode, SizeOf;
  }

  /** When one ring is changed consistently, the rest of the structure does not notice. */
  lemma Reringed(t: Trees, mem: Mem, roots: seq<int>, map_: set<nat>, n: int, x: int, t': Trees, mem': Mem)
    requires TreesOk(t, mem, roots, map_) && n in t.ring && x !in t.place && RingChanged(t, mem, n, x, t', mem')
    ensures TreesOk(t', mem', roots, map_)
  {
    SameNodes(t, mem, t', mem') by { hide Ring, MemberOk, SameNode, SizeOf, Placed, NodesOk, RootsOk, RingsOk; }
    hide Placed, MemberOk, SameNode, SizeOf, NodesOk, RootsOk, Ring;
    SameRoots(t, roots, map_, t');
    forall z | z in t'.node ensures MemberOk(t', mem', z) {
      if z != x { OldMember(t, mem, n, x, t', mem', z); }
    }
    forall m | m in t'.ring ensures Ring(mem'.fd, mem'.bk, t'.ring[m]) && |t'.ring[m]| > 0 && t'.ring[m][0] == m {
      if m != n { OldRing(t, mem, n, x, t', mem', m); }
    }
    forall m, z | m in t'.ring ensures z in t'.ring[m] <==> z in t'.node && t'.node[z] == m {
      ChangedContents(t, mem, n, x, t', mem', m, z);
    }
  }

  // ----- leaving

  function WithoutMember(t: Trees, n: int, k: nat, x: int): Trees
    requires n in t.ring && k < |t.ring[n]|
  {
    t.(ring := t.ring[n := t.ring[n][..k] + t.ring[n][k + 1..]], node := t.node - {x})
  }

  lemma WithoutOne(r: seq<int>, k: nat, z: int)
    requires Distinct(r) && k < |r|
    ensures z in r[..k] + r[k + 1..] <==> z in r && z != r[k]
  {
    var q := r[..k] + r[k + 1..];
    if z in r && z != r[k] {
      var j :| 0 <= j < |r| && r[j] == z;
      assert q[if j < k then j else j - 1] == z;
    }
    if z in q {
      var j :| 0 <= j < |q| && q[j] == z;
      assert r[if j < k then j else j + 1] == z;
    }
  }

  /** Where a chunk that is not a node is in its ring, and what the source reads there. */
  lemma MemberInRing(t: Trees, mem: Mem, x: int) returns (k: nat)
    requires Placed(t) && RingsOk(t, mem) && x in t.node && x !in t.place
    ensures t.node[x] in t.ring && t.node[x] != x && 1 <= k < |t.ring[t.node[x]]| && t.ring[t.node[x]][k] == x
      && Distinct(t.ring[t.node[x]])
    ensures At(mem.bk, x) == t.ring[t.node[x]][k - 1] != x && At(mem.parent, x) == 0
  {
    RingsOf(t, mem, x);
    var r := t.ring[t.node[x]];
    k :| 0 <= k < |r| && r[k] == x;
    RingBack(mem.fd, mem.bk, r, k);
  }

  lemma LeaveChanges(t: Trees, mem: Mem, n: int, k: nat, x: int)
    requires Placed(t) && RingsOk(t, mem) && n in t.ring && 1 <= k < |t.ring[n]| && t.ring[n][k] == x && x in t.node
      && t.node[x] == n
    ensures RingChanged(t, mem, n, x, WithoutMember(t, n, k, x), UnringMem(mem, x))
  {
    hide MemberOk, SizeOf, Placed;
    var r := t.ring[n];
    RingRemove(mem.fd, mem.bk, r, k);
    UnringFrame(mem, r, k);
    forall z ensures z in r[..k] + r[k + 1..] <==> z in r && z != x { WithoutOne(r, k, z); }
  }

  /** A chunk that is not a node leaves the ring of its size. */
  lemma UnlinkMember(t: Trees, mem: Mem, roots: seq<int>, map_: set<nat>, n: int, k: nat, x: int)
    requires TreesOk(t, mem, roots, map_) && x in t.node && x !in t.place && n in t.ring && t.node[x] == n
      && 1 <= k < |t.ring[n]| && t.ring[n][k] == x
    ensures TreesOk(WithoutMember(t, n, k, x), UnringMem(mem, x), roots, map_)
  {
    hide RingChanged, Placed, NodesOk, RingsOk, RootsOk;
    LeaveChanges(t, mem, n, k, x);
    Reringed(t, mem, roots, map_, n, x, WithoutMember(t, n, k, x), UnringMem(mem, x));
  }

  // ----- joining

  function WithMember(t: Trees, n: int, x: int): Trees
    requires n in t.ring && |t.ring[n]| > 0
  {
    t.(ring := t.ring[n := [n, x] + t.ring[n][1..]], node := t.node[x := n])
  }

  function JoinMem(mem: Mem, n: int, x: int): Mem
  {
    var f := At(mem.fd, n);
    mem.(fd := mem.fd[n := x][x := f], bk := mem.bk[f := x][x := n], parent := mem.parent[x := 0])
  }

  lemma JoinFields(mem: Mem, n: int, x: int, z: int)
    ensures var m := JoinMem(mem, n, x);
      && m.head == mem.head && m.foot == mem.foot && m.index == mem.index && m.child == mem.child
      && At(m.parent, z) == if z == x then 0 else At(mem.parent, z)
  {
  }

  lemma JoinSame(mem: Mem, n: int, x: int, z: int)
    requires z != x
    ensures SameNode(mem, JoinMem(mem, n, x), z)
  {
  }

  lemma SecondIn(r: seq<int>, n: int, x: int, z: int)
    requires |r| > 0 && r[0] == n && z != x
    ensures z in [n, x] + r[1..] <==> z in r
  {
    assert r == [n] + r[1..];
  }

  lemma JoinRing(t: Trees, mem: Mem, n: int, x: int)
    requires Placed(t) && RingsOk(t, mem) && n in t.ring && x !in t.node && x > 0
    ensures var m := JoinMem(mem, n, x);
      n in t.ring && |t.ring[n]| > 0 && t.ring[n][0] == n && Ring(m.fd, m.bk, [n, x] + t.ring[n][1..])
    ensures var m := JoinMem(mem, n, x);
      forall z | z !in t.ring[n] && z != x :: At(m.fd, z) == At(mem.fd, z) && At(m.bk, z) == At(mem.bk, z)
  {
    hide MemberOk, Placed;
    var r := t.ring[n];
    assert x !in r;
    RingInsert(mem.fd, mem.bk, r, x);
    RingBack(mem.fd, mem.bk, r, 0);
  }

  lemma JoinMember(t: Trees, mem: Mem, n: int, x: int)
    requires Placed(t) && RingsOk(t, mem) && n in t.place && x !in t.node && x > 0 && SizeOf(mem, x) == SizeOf(mem, n)
      && Blank(mem, t.place[n].0, x)
    ensures n in t.ring && |t.ring[n]| > 0 && MemberOk(WithMember(t, n, x), JoinMem(mem, n, x), x)
  {
    hide Placed, Ring, JoinMem, MembersOk, SizeOf;
    var mem' := JoinMem(mem, n, x);
    JoinRing(t, mem, n, x);
    JoinFields(mem, n, x, x);
    SameSize(mem, mem', x);
    SameSize(mem, mem', n);
  }

  lemma JoinChanges(t: Trees, mem: Mem, n: int, x: int)
    requires Placed(t) && RingsOk(t, mem) && n in t.place && x !in t.node && x > 0 && SizeOf(mem, x) == SizeOf(mem, n)
      && Blank(mem, t.place[n].0, x)
    ensures n in t.ring && |t.ring[n]| > 0 && RingChanged(t, mem, n, x, WithMember(t, n, x), JoinMem(mem, n, x))
  {
    var t', mem' := WithMember(t, n, x), JoinMem(mem, n, x);
    JoinRing(t, mem, n, x);
    JoinMember(t, mem, n, x);
    hide Placed, Ring, JoinMem, MembersOk, SameNode, Kid, SizeOf, MemberOk, Blank;
    forall z | z != x ensures SameNode(mem, mem', z) { JoinSame(mem, n, x, z); }
    JoinFields(mem, n, x, x);
    var r := [n, x] + t.ring[n][1..];
    forall z | z != x ensures z in r <==> z in t.ring[n] { SecondIn(t.ring[n], n, x, z); }
  }

  /** A chunk whose size has a node joins its ring. */
  lemma LinkMember(t: Trees, mem: Mem, roots: seq<int>, map_: set<nat>, n: int, x: int)
    requires TreesOk(t, mem, roots, map_) && n in t.place && x !in t.node && x > 0 && SizeOf(mem, x) == SizeOf(mem, n)
      && Blank(mem, t.place[n].0, x)
    ensures n in t.ring && |t.ring[n]| > 0 && TreesOk(WithMember(t, n, x), JoinMem(mem, n, x), roots, map_)
  {
    hide RingChanged, Placed, NodesOk, RootsOk, JoinMem, Ring, MemberOk;
    NodesAreMembers(t, mem);
    JoinChanges(t, mem, n, x);
    Reringed(t, mem, roots, map_, n, x, WithMember(t, n, x), JoinMem(mem, n, x));
  }
}
