/** Small bins: one ring for every small size, closed by a header that is part of the allocator's state. */
module AllocSmall {
  import opened AllocSizes
  import opened AllocRings
  import opened AllocTries

  /** The address of the header of small bin `i`. */
  function SmallHdr(i: nat): int { -1 - i }

  function Closed(i: nat, r: seq<int>): seq<int> { [SmallHdr(i)] + r }

  /** `small[i]` lists the chunks of bin `i`. The header of an empty bin may hold stale links. */
  ghost predicate SmallOk(small: seq<seq<int>>, mem: Mem, map_: set<nat>)
  {
    && |small| == NSMALLBINS && (forall i: nat :: i in map_ <==> i < NSMALLBINS && small[i] != [])
    && (forall i | 0 <= i < NSMALLBINS && small[i] != [] :: Ring(mem.fd, mem.bk, Closed(i, small[i])))
    && (forall i, x {:trigger x in small[i]} | 0 <= i < NSMALLBINS && x in small[i] :: x > 0 && SizeOf(mem, x) == 8 * i)
  }

  /** The memory after `x` was put between `h` and `f`. */
  function LinkMem(mem: Mem, h: int, f: int, x: int): Mem
  {
    mem.(fd := mem.fd[h := x][x := f], bk := mem.bk[f := x][x := h])
  }

  /** The links of one closed ring changed, and `x`'s. */
  ghost predicate OtherLinks(mem: Mem, mem': Mem, i: nat, r: seq<int>, x: int)
  {
    forall z | z !in r && z != x && z != SmallHdr(i) ::
      At(mem'.fd, z) == At(mem.fd, z) && At(mem'.bk, z) == At(mem.bk, z)
  }

  lemma OtherSmall(small: seq<seq<int>>, mem: Mem, map_: set<nat>, mem': Mem, i: nat, x: int, j: nat)
    requires SmallOk(small, mem, map_) && i < NSMALLBINS && j < NSMALLBINS && j != i && small[j] != []
      && x !in small[j] && x > 0
    requires OtherLinks(mem, mem', i, small[i], x)
    ensures Ring(mem'.fd, mem'.bk, Closed(j, small[j]))
  {
    hide Ring, SizeOf;
    forall z | z in Closed(j, small[j]) ensures At(mem'.fd, z) == At(mem.fd, z) && At(mem'.bk, z) == At(mem.bk, z) {
      if z in small[j] { assert SizeOf(mem, z) == 8 * j; } else { assert z == SmallHdr(j); }
      assert z in small[i] ==> z > 0 && SizeOf(mem, z) == 8 * i;
    }
    RingFrame(mem.fd, mem.bk, Closed(j, small[j]), mem'.fd, mem'.bk);
  }

  lemma Relinked(small: seq<seq<int>>, mem: Mem, map_: set<nat>, i: nat, x: int, r: seq<int>, mem': Mem)
    requires SmallOk(small, mem, map_) && i < NSMALLBINS && x > 0 && SizeOf(mem, x) == 8 * i && mem'.head == mem.head
    requires OtherLinks(mem, mem', i, small[i], x) && (r != [] ==> Ring(mem'.fd, mem'.bk, Closed(i, r)))
    requires forall z | z in r :: z in small[i] || z == x
    ensures SmallOk(small[i := r], mem', if r == [] then map_ - {i} else map_ + {i})
  {
    hide Ring, OtherLinks, Closed, SizeOf;
    var small', map' := small[i := r], if r == [] then map_ - {i} else map_ + {i};
    assert forall z :: SizeOf(mem', z) == SizeOf(mem, z) by { forall z { SameSize(mem, mem', z); } }
    forall j, z | 0 <= j < NSMALLBINS && z in small'[j] ensures z > 0 && SizeOf(mem', z) == 8 * j { }
    forall j | 0 <= j < NSMALLBINS && j != i && small[j] != [] ensures Ring(mem'.fd, mem'.bk, Closed(j, small[j])) {
      OtherSmall(small, mem, map_, mem', i, x, j);
    }
  }

  lemma LinkClosed(mem: Mem, i: nat, r: seq<int>, x: int)
    requires x > 0 && x !in r && (r != [] ==> Ring(mem.fd, mem.bk, Closed(i, r)))
    ensures var h := SmallHdr(i); var m := LinkMem(mem, h, if r != [] then At(mem.fd, h) else h, x);
      Ring(m.fd, m.bk, Closed(i, [x] + r)) && OtherLinks(mem, m, i, r, x)
  {
    var h := SmallHdr(i);
    if r == [] {
      var m := LinkMem(mem, h, h, x);
      assert Ring(m.fd, m.bk, [h, x]);
      assert Closed(i, [x] + r) == [h, x];
    } else {
      hide Ring;
      RingInsert(mem.fd, mem.bk, Closed(i, r), x);
      RingBack(mem.fd, mem.bk, Closed(i, r), 0);
      assert [h, x] + Closed(i, r)[1..] == Closed(i, [x] + r);
      assert forall z | z in Closed(i, r) :: z == h || z in r;
    }
  }

  /** Putting a chunk first into its bin. */
  lemma LinkSmall(small: seq<seq<int>>, mem: Mem, map_: set<nat>, i: nat, x: int)
    requires SmallOk(small, mem, map_) && i < NSMALLBINS && x > 0 && SizeOf(mem, x) == 8 * i && x !in small[i]
    ensures var m := LinkMem(mem, SmallHdr(i), if i in map_ then At(mem.fd, SmallHdr(i)) else SmallHdr(i), x);
      SmallOk(small[i := [x] + small[i]], m, map_ + {i}) && OtherLinks(mem, m, i, small[i], x)
  {
    var r, h := small[i], SmallHdr(i);
    var m := LinkMem(mem, h, if i in map_ then At(mem.fd, h) else h, x);
    LinkClosed(mem, i, r, x);
    hide Ring, SmallOk, Closed, OtherLinks;
    Relinked(small, mem, map_, i, x, [x] + r, m);
  }

  lemma ClosedLinks(fd: Words, bk: Words, i: nat, r: seq<int>, k: nat)
    requires Ring(fd, bk, Closed(i, r)) && k < |r|
    ensures At(fd, r[k]) == (if k + 1 == |r| then SmallHdr(i) else r[k + 1])
      && At(bk, r[k]) == (if k == 0 then SmallHdr(i) else r[k - 1])
    ensures At(fd, SmallHdr(i)) == r[0] && Distinct(r) && (At(fd, r[k]) == At(bk, r[k]) <==> |r| == 1)
  {
    var c := Closed(i, r);
    assert Distinct(c);
    hide Ring;
    RingBack(fd, bk, c, k + 1);
    RingBack(fd, bk, c, 0);
    ClosedDistinct(i, r);
    hide Distinct;
    DistinctAt(c, if k == 0 then 0 else k, if k + 1 == |r| then 0 else k + 2);
  }

  lemma ClosedDistinct(i: nat, r: seq<int>)
    requires Distinct(Closed(i, r))
    ensures Distinct(r) && SmallHdr(i) !in r
  {
    var c := Closed(i, r);
    assert c[0] == SmallHdr(i);
    assert forall j | 0 <= j < |r| :: r[j] == c[j + 1];
  }

  lemma DistinctAt(c: seq<int>, i: nat, j: nat)
    requires Distinct(c) && i < |c| && j < |c|
    ensures c[i] == c[j] <==> i == j
  {
  }

  /** What the links of a chunk in a small bin are. */
  lemma SmallLinks(small: seq<seq<int>>, mem: Mem, map_: set<nat>, i: nat, k: nat)
    requires SmallOk(small, mem, map_) && i < NSMALLBINS && k < |small[i]|
    ensures var r, x := small[i], small[i][k];
      && At(mem.fd, x) == (if k + 1 == |r| then SmallHdr(i) else r[k + 1])
      && At(mem.bk, x) == (if k == 0 then SmallHdr(i) else r[k - 1])
      && (At(mem.fd, x) == At(mem.bk, x) <==> r == [x]) && At(mem.fd, SmallHdr(i)) == r[0]
      && x > 0 && SizeOf(mem, x) == 8 * i && Distinct(r)
  {
    hide Ring, SizeOf, Closed;
    ClosedLinks(mem.fd, mem.bk, i, small[i], k);
    assert small[i][k] in small[i];
    if |small[i]| == 1 { assert small[i] == [small[i][k]]; }
  }

  lemma UnlinkClosed(mem: Mem, i: nat, r: seq<int>, k: nat)
    requires Ring(mem.fd, mem.bk, Closed(i, r)) && k < |r|
    ensures var m := UnringMem(mem, r[k]); Ring(m.fd, m.bk, Closed(i, r[..k] + r[k + 1..]))
    ensures OtherLinks(mem, UnringMem(mem, r[k]), i, r, r[k])
  {
    hide Ring, Distinct;
    var c := Closed(i, r);
    RingRemove(mem.fd, mem.bk, c, k + 1);
    assert c[..k + 1] + c[k + 2..] == Closed(i, r[..k] + r[k + 1..]);
    ClosedLinks(mem.fd, mem.bk, i, r, k);
  }

  /** Taking a chunk out of its bin. */
  lemma UnlinkSmall(small: seq<seq<int>>, mem: Mem, map_: set<nat>, i: nat, k: nat)
    requires SmallOk(small, mem, map_) && i < NSMALLBINS && k < |small[i]|
    ensures var x, r := small[i][k], small[i][..k] + small[i][k + 1..];
      var m := if small[i] == [x] then mem else UnringMem(mem, x);
      && SmallOk(small[i := r], m, if small[i] == [x] then map_ - {i} else map_) && OtherLinks(mem, m, i, small[i], x)
  {
    hide Ring, Closed, SizeOf;
    var s := small[i];
    var x, r := s[k], s[..k] + s[k + 1..];
    var m := if s == [x] then mem else UnringMem(mem, x);
    SmallLinks(small, mem, map_, i, k);
    if s == [x] {
      assert r == [];
    } else {
      UnlinkClosed(mem, i, s, k);
      assert map_ + {i} == map_;
    }
    hide SmallOk, OtherLinks;
    Relinked(small, mem, map_, i, x, r, m);
  }

  lemma SmallFrame(small: seq<seq<int>>, mem: Mem, map_: set<nat>, mem': Mem)
    requires SmallOk(small, mem, map_)
    requires forall i, z | 0 <= i < NSMALLBINS && z in Closed(i, small[i]) ::
      At(mem'.fd, z) == At(mem.fd, z) && At(mem'.bk, z) == At(mem.bk, z)
    requires forall i, z | 0 <= i < NSMALLBINS && z in small[i] :: SizeOf(mem', z) == SizeOf(mem, z)
    ensures SmallOk(small, mem', map_)
  {
    hide Ring, Closed;
    forall i | 0 <= i < NSMALLBINS && small[i] != [] ensures Ring(mem'.fd, mem'.bk, Closed(i, small[i])) {
      RingFrame(mem.fd, mem.bk, Closed(i, small[i]), mem'.fd, mem'.bk);
    }
  }
}
