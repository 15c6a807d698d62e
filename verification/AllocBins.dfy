/** The bins as the allocator keeps them: bitmaps, roots and links, updated in place. */
module AllocBins {
  import opened Numbers
  import opened AllocSizes
  import opened AllocRings
  import opened AllocTrees
  import opened AllocTries
  import opened AllocUnlink
  import opened AllocMembers
  import opened AllocSmall
  import opened AllocIndex
  import opened AllocDescent
  import opened AllocSearch

  /** The lowest bit of a map from `i` on, or the number of bins. */
  function LowestBit(map_: set<nat>, i: nat): (r: nat)
    requires i <= NTREEBINS
    ensures i <= r <= NTREEBINS && (r < NTREEBINS ==> r in map_) && forall j | i <= j < r :: j !in map_
    decreases NTREEBINS - i
  {
    if i == NTREEBINS || i in map_ then i else LowestBit(map_, i + 1)
  }

  class Bins {
    var mem: Mem
    var smallmap: set<nat>
    var treemap: set<nat>
    var roots: seq<int>
    ghost var trees: Trees
    ghost var small: seq<seq<int>>

    /** `init_bins`, on a state that is otherwise zero. */
    constructor ()
      ensures Holds(map[]) && mem.head == map[] && mem.foot == map[]
      ensures forall i | 0 <= i < NSMALLBINS :: At(mem.fd, SmallHdr(i)) == SmallHdr(i) == At(mem.bk, SmallHdr(i))
    {
      mem := Mem(map[], map[], map[], map[], map[], map[], map[]);
      smallmap, treemap := {}, {};
      roots := seq(NTREEBINS, _ => 0);
      trees := Trees(seq(NTREEBINS, _ => map[]), map[], map[], map[]);
      small := seq(NSMALLBINS, _ => []);
      new;
      hide BinsOk;
      var i := 0;
      while i < NSMALLBINS
        invariant 0 <= i <= NSMALLBINS && Empty(trees, small, roots) && smallmap == treemap == {} && mem.head == map[]
          && mem.foot == map[]
        invariant forall j | 0 <= j < i :: At(mem.fd, SmallHdr(j)) == SmallHdr(j) == At(mem.bk, SmallHdr(j))
      {
        var h := SmallHdr(i);
        mem := mem.(fd := mem.fd[h := h], bk := mem.bk[h := h]);
        i := i + 1;
      }
      EmptyOk(trees, small, mem, roots);
    }

    /** The bins hold exactly the chunks of `free`. */
    ghost predicate Holds(free: map<int, nat>)
      reads this
    {
      BinsOk(trees, small, mem, roots, treemap, smallmap, free)
    }

    lemma LargeNew(free: map<int, nat>, x: int, s: nat)
      requires Holds(free) && x !in free && 256 <= s < TERA
      ensures x !in trees.node && x !in trees.place && |roots| == NTREEBINS && |trees.tries| == NTREEBINS
        && TreesOk(trees, mem, roots, treemap)
      ensures TreeIndex(s) in treemap ==>
        [] in trees.tries[TreeIndex(s)] && trees.tries[TreeIndex(s)][[]] == roots[TreeIndex(s)]
        && Covers(TreeIndex(s), [], s)
      ensures TreeIndex(s) !in treemap ==> [] !in trees.tries[TreeIndex(s)] && Covers(TreeIndex(s), [], s)
    {
      hide NodesOk, Covers, TreeIndex, SmallOk;
      NodesAreMembers(trees, mem);
      RootCovers(s);
      EmptyBin(trees, TreeIndex(s));
    }

    /** `insert_large_chunk`. */
    method InsertLarge(x: int, s: nat, ghost free: map<int, nat>)
      requires Holds(free) && x > 0 && x !in free && SizeOf(mem, x) == s && 256 <= s < TERA && s % 8 == 0
      modifies this
      ensures Holds(free[x := s]) && mem.head == old(mem.head) && mem.foot == old(mem.foot)
      ensures OnlyLinks(free[x := s], old(mem), mem)
    {
      hide TreesOk, SmallOk, BinsOk, Covers, TreeIndex, SizeOf, BlankMem, Blank, TreeLinks, OnlyLinks;
      var i := TreeIndex(s);
      LargeNew(free, x, s);
      ghost var m0 := mem;
      BlankKeeps(trees, mem, roots, treemap, i, x);
      BlankFields(mem, i, x, x);
      mem := BlankMem(mem, i, x);
      SameSize(m0, mem, x);
      if i !in treemap {
        PlantRoot(x, i, s);
      } else {
        PlantBelow(x, i, s);
      }
      LinksFromBlank(old(trees), m0, mem, i, x);
      TagsKept(old(trees), m0, mem, x);
      LargeIn(old(trees), small, m0, old(roots), old(treemap), smallmap, free, trees, mem, roots, treemap, x, s);
    }

    /** What is known of chunk `x` of size `s` when it is to be linked into bin `i`. */
    ghost predicate Ready(x: int, i: nat, s: nat)
      reads this
    {
      && TreesOk(trees, mem, roots, treemap) && x > 0 && x !in trees.node && x !in trees.place
      && Blank(mem, i, x) && SizeOf(mem, x) == s && 256 <= s < TERA && TreeIndex(s) == i
    }

    /** The chunk becomes the root of its tree. */
    method PlantRoot(x: int, i: nat, s: nat)
      requires Ready(x, i, s) && i < NTREEBINS && i !in treemap && |roots| == NTREEBINS
      modifies `mem, `treemap, `roots, `trees
      ensures TreesOk(trees, mem, roots, treemap) && trees.node.Keys == old(trees.node.Keys) + {x}
        && TreeLinks(old(trees), old(mem), mem, x)
    {
      hide Covers, TreeIndex, SizeOf, Blank, NodesOk, RingsOk, Placed, RootsOk;
      RootIsFresh(trees, mem, roots, treemap, x, i, s);
      NewNode(trees, mem, roots, treemap, x, i, []);
      NewLinks(trees, mem, [], x, TreeHdr(i));
      treemap := treemap + {i};
      roots := roots[i := x];
      mem := mem.(parent := mem.parent[x := TreeHdr(i)], fd := mem.fd[x := x], bk := mem.bk[x := x]);
      trees := WithNode(trees, i, [], x);
    }

    /** The chunk goes below the last node on its way, or into the ring of the node that has its size. */
    method PlantBelow(x: int, i: nat, s: nat)
      requires Ready(x, i, s) && i in treemap && i < NTREEBINS && |roots| == NTREEBINS && |trees.tries| == NTREEBINS
      requires [] in trees.tries[i] && trees.tries[i][[]] == roots[i] && Covers(i, [], s)
      modifies `mem, `trees
      ensures TreesOk(trees, mem, roots, treemap) && trees.node.Keys == old(trees.node.Keys) + {x}
        && TreeLinks(old(trees), old(mem), mem, x)
    {
      hide Covers, TreeIndex, SizeOf, Blank, NodesOk, RingsOk, Placed, RootsOk, Key, Kid, SetKid, At, Above;
      var node := roots[i];
      var key := s * Pow2(LeftShift(i)) % WORD;
      ghost var tr, q: Path := trees.tries[i], [];
      KeyOfRoot(i, s);
      NoneAbove(tr, i, mem, s);
      while true
        invariant Ready(x, i, s) && mem == old(mem) && trees == old(trees) && tr == trees.tries[i] && i < NTREEBINS
        invariant q in tr && tr[q] == node && Covers(i, q, s) && key == Key(i, q, s) && Above(tr, i, mem, q, s)
          && |q| <= Bits(i)
        decreases Bits(i) - |q|
      {
        NodeOfBin(trees, mem, i, q);
        if SizeOf(mem, node) != s {
          KeySays(tr, i, q, mem, s);
          ghost var bit := Goes(i, q, s);
          KidsAre(tr, i, q, mem, node);
          StepDown(tr, i, mem, q, bit, s);
          var d := key / TOP_BIT % 2 == 1;
          key := key * 2 % WORD;
          var c := Kid(mem, d, node);
          if c != 0 {
            node, q := c, q + [d];
          } else {
            Plant(x, i, s, d, node, q);
            return;
          }
        } else {
          Join(x, i, s, node, q);
          return;
        }
      }
    }

    /** The chunk becomes child `d` of the node at `q`. */
    method Plant(x: int, i: nat, s: nat, d: bool, node: int, ghost q: Path)
      requires Ready(x, i, s) && i < NTREEBINS && |trees.tries| == NTREEBINS && q in trees.tries[i]
        && trees.tries[i][q] == node
      requires Kid(mem, d, node) == Look(trees.tries[i], q + [d]) == 0 && Covers(i, q + [d], s)
        && Above(trees.tries[i], i, mem, q + [d], s)
      modifies `mem, `trees
      ensures TreesOk(trees, mem, roots, treemap) && trees.node.Keys == old(trees.node.Keys) + {x}
        && TreeLinks(old(trees), old(mem), mem, x)
    {
      hide Covers, TreeIndex, SizeOf, Blank, NodesOk, RingsOk, RootsOk, Above, Placed, Kid;
      ghost var p := q + [d];
      NewIsFresh(trees, mem, x, i, q, d, s) by { LookZero(trees, i, p); }
      SizeIsNew(trees, mem, i, q, d, s) by { LookZero(trees, i, p); }
      assert p[..|p| - 1] == q;
      Marked(trees, roots, treemap, i, q);
      ParentIsNot(trees, mem, x, i, p);
      NewNode(trees, mem, roots, treemap, x, i, p);
      NodeOfBin(trees, mem, i, q);
      NodesAreMembers(trees, mem);
      NewLinks(trees, mem, p, x, node);
      hide TreesOk, TreeLinks, Fresh;
      ghost var m0 := mem;
      mem := SetKid(mem, d, node, x);
      mem := mem.(parent := mem.parent[x := node], fd := mem.fd[x := x], bk := mem.bk[x := x]);
      trees := WithNode(trees, i, p, x);
      assert mem == NewNodeMem(m0, p, x, node);
    }

    /** The chunk joins the ring of the node at `q`. */
    method Join(x: int, i: nat, s: nat, node: int, ghost q: Path)
      requires Ready(x, i, s) && i < NTREEBINS && |trees.tries| == NTREEBINS && q in trees.tries[i]
        && trees.tries[i][q] == node && SizeOf(mem, node) == s
      modifies `mem, `trees
      ensures TreesOk(trees, mem, roots, treemap) && trees.node.Keys == old(trees.node.Keys) + {x}
        && TreeLinks(old(trees), old(mem), mem, x)
    {
      hide Covers, TreeIndex, SizeOf, Blank, NodesOk, RingsOk, RootsOk, Placed;
      NodeOfBin(trees, mem, i, q);
      LinkMember(trees, mem, roots, treemap, node, x);
      JoinLinks(trees, mem, node, x);
      ghost var m0 := mem;
      var f := At(mem.fd, node);
      mem := mem.(fd := mem.fd[node := x], bk := mem.bk[f := x]);
      mem := mem.(fd := mem.fd[x := f]);
      mem := mem.(bk := mem.bk[x := node], parent := mem.parent[x := 0]);
      trees := WithMember(trees, node, x);
      assert mem == JoinMem(m0, node, x);
    }

    /** Cuts off a leaf below `x`, the rightmost child first at every node, if `x` has children. */
    method DetachLeaf(x: int, ghost tr: Trie, ghost i: nat, ghost p: Path) returns (r: int, ghost q: Path)
      requires TrieAt(tr, i, mem) && p in tr && tr[p] == x
      modifies `mem
      ensures r == 0 ==> IsLeaf(tr, p) && mem == old(mem)
      ensures r != 0 ==>
        LeafBelow(tr, p, q) && q in tr && q != [] && tr[q] == r && q[..|q| - 1] in tr
        && mem == SetKid(old(mem), q[|q| - 1], tr[q[..|q| - 1]], 0)
    {
      hide TrieAt, IsLeaf, Kid, SetKid;
      var owner, d := x, true;
      r, q := Kid(mem, true, x), p;
      if r == 0 {
        d := false;
        r := Kid(mem, false, x);
      }
      if r == 0 {
        NoKids(tr, i, mem, p);
      } else {
        KidThere(tr, i, mem, p, d);
        q := p + [d];
        while true
          invariant mem == old(mem) && q in tr && tr[q] == r != 0 && |p| < |q| <= Bits(i) && q[..|p|] == p
          invariant q[..|q| - 1] in tr && owner == tr[q[..|q| - 1]] && d == q[|q| - 1]
          decreases Bits(i) - |q|
        {
          var c, e := Kid(mem, true, r), true;
          if c == 0 { c, e := Kid(mem, false, r), false; }
          if c == 0 { break; }
          KidThere(tr, i, mem, q, e);
          assert (q + [e])[..|p|] == q[..|p|];
          owner, d, r, q := r, e, c, q + [e];
        }
        NoKids(tr, i, mem, q);
        mem := SetKid(mem, d, owner, 0);
      }
    }

    /** `r`, if it is one, takes the place of node `x`. */
    method Relink(x: int, xp: int, r: int, ghost i: nat, ghost p: Path)
      requires i < NTREEBINS == |roots| && At(mem.index, x) == i && (roots[i] == x <==> p == [])
      requires p != [] ==> Kid(mem, p[|p| - 1], xp) == x && Kid(mem, !p[|p| - 1], xp) != x
      modifies `mem, `roots, `treemap
      ensures roots == if p == [] then old(roots)[i := r] else old(roots)
      ensures treemap == if p == [] && r == 0 then old(treemap) - {i} else old(treemap)
      ensures r != 0 ==> mem == ReplaceMem(old(mem), p, x, r, xp)
      ensures r == 0 ==> mem == if p == [] then old(mem) else SetKid(old(mem), p[|p| - 1], xp, 0)
    {
      hide Kid, Adopt;
      var h := At(mem.index, x);
      if x == roots[h] {
        roots := roots[h := r];
        if r == 0 { treemap := treemap - {h}; }
      } else if Kid(mem, false, xp) == x {
        mem := SetKid(mem, false, xp, r);
      } else {
        mem := SetKid(mem, true, xp, r);
      }
      if r != 0 {
        mem := mem.(parent := mem.parent[r := xp]);
        TakeChildren(x, r);
      }
    }

    /** `r` adopts the children of `x`. */
    method TakeChildren(x: int, r: int)
      modifies `mem
      ensures mem == Adopt(Adopt(old(mem), false, x, r), true, x, r)
    {
      hide Kid;
      var c0 := Kid(mem, false, x);
      if c0 != 0 {
        mem := SetKid(mem, false, r, c0);
        mem := mem.(parent := mem.parent[c0 := r]);
      }
      var c1 := Kid(mem, true, x);
      if c1 != 0 {
        mem := SetKid(mem, true, r, c1);
        mem := mem.(parent := mem.parent[c1 := r]);
      }
    }

    lemma LargeThere(free: map<int, nat>, x: int)
      requires Holds(free) && x in free && free[x] >= 256
      ensures TreesOk(trees, mem, roots, treemap) && x in trees.node
    {
      hide TreesOk, SmallOk;
    }

    /** `unlink_large_chunk`. */
    method UnlinkLarge(x: int, ghost free: map<int, nat>)
      requires Holds(free) && x in free && free[x] >= 256
      modifies this
      ensures Holds(free - {x}) && mem.head == old(mem.head) && mem.foot == old(mem.foot)
      ensures OnlyLinks(free, old(mem), mem)
    {
      hide BinsOk, TreesOk, Kid, SetKid, ReplaceMem, TrieAt, IsLeaf, TreeLinks, OnlyLinks, Shifted, Promoted,
           WithoutLeaf,
           WithoutMember, UnringMem;
      ghost var t0, m0, roots0, map0 := trees, mem, roots, treemap;
      LargeThere(free, x);
      ghost var k, i, p, tr: Trie, q: Path := 0, 0, [], map[], [];
      if x in trees.place {
        NodeLinks(t0, m0, roots0, map0, x);
        i, p := trees.place[x].0, trees.place[x].1;
        tr := trees.tries[i];
      } else {
        k := EqualLinks(t0, m0, roots0, map0, x);
      }
      var xp, r := At(mem.parent, x), 0;
      if At(mem.bk, x) != x {
        r := At(mem.bk, x);
        UnringFields(mem, x);
        mem := UnringMem(mem, x);
      } else {
        r, q := DetachLeaf(x, tr, i, p);
      }
      if xp != 0 {
        if r != 0 && q != [] { StillHangs(tr, i, m0, p, q); }
        Relink(x, xp, r, i, p);
      }
      if x !in t0.place {
        trees := WithoutMember(t0, t0.node[x], k, x);
        EqualUnlinked(t0, m0, roots0, map0, x, k);
      } else if At(m0.bk, x) != x {
        trees := Shifted(t0, i, p, x, r);
        ShiftUnlinked(t0, m0, roots0, map0, x);
      } else if r == 0 {
        trees := WithoutLeaf(t0, i, p, x);
        LeafUnlinked(t0, m0, roots0, map0, x);
      } else {
        trees := Promoted(t0, i, p, q, x);
        PromoteUnlinked(t0, m0, roots0, map0, x, q);
      }
      TagsKept(t0, m0, mem, x);
      LargeOut(t0, small, m0, roots0, map0, smallmap, free, trees, mem, roots, treemap, x);
    }

    // ----- small bins

    /** `insert_small_chunk`. */
    method InsertSmall(x: int, s: nat, ghost free: map<int, nat>)
      requires Holds(free) && x > 0 && x !in free && SizeOf(mem, x) == s && 32 <= s < 256 && s % 8 == 0
      modifies this
      ensures Holds(free[x := s]) && mem.head == old(mem.head) && mem.foot == old(mem.foot)
      ensures OnlyLinks(free[x := s], old(mem), mem)
    {
      hide BinsOk, SizeOf;
      var i := SmallIndex(s);
      SmallIn(trees, small, mem, roots, treemap, smallmap, free, i, x);
      SmallShape(trees, small, mem, roots, treemap, smallmap, free);
      var h := SmallHdr(i);
      var f := h;
      if i !in smallmap {
        smallmap := smallmap + {i};
      } else {
        f := At(mem.fd, h);
        assert smallmap + {i} == smallmap;
      }
      mem := mem.(fd := mem.fd[h := x], bk := mem.bk[f := x]);
      mem := mem.(fd := mem.fd[x := f]);
      mem := mem.(bk := mem.bk[x := h]);
      small := small[i := [x] + small[i]];
    }

    /** `unlink_small_chunk`. */
    method UnlinkSmall(x: int, s: nat, ghost free: map<int, nat>)
      requires Holds(free) && x in free && free[x] == s < 256
      modifies this
      ensures Holds(free - {x}) && mem.head == old(mem.head) && mem.foot == old(mem.foot)
      ensures OnlyLinks(free, old(mem), mem)
    {
      hide BinsOk;
      var i := SmallIndex(s);
      ghost var k := SmallThere(trees, small, mem, roots, treemap, smallmap, free, x);
      SmallOut(trees, small, mem, roots, treemap, smallmap, free, i, k);
      var f, b := At(mem.fd, x), At(mem.bk, x);
      if f == b {
        smallmap := smallmap - {i};
      } else {
        mem := mem.(bk := mem.bk[f := b]);
        mem := mem.(fd := mem.fd[b := f]);
      }
      small := small[i := small[i][..k] + small[i][k + 1..]];
    }

    /** `unlink_first_small_chunk`, on a bin that is not empty. */
    method UnlinkFirstSmall(i: nat, ghost free: map<int, nat>) returns (x: int)
      requires Holds(free) && i in smallmap
      modifies this
      ensures x in free && free[x] == 8 * i && Holds(free - {x}) && mem.head == old(mem.head)
        && mem.foot == old(mem.foot)
      ensures OnlyLinks(free, old(mem), mem)
    {
      hide BinsOk;
      SmallFirst(trees, small, mem, roots, treemap, smallmap, free, i);
      SmallOut(trees, small, mem, roots, treemap, smallmap, free, i, 0);
      var h := SmallHdr(i);
      x := At(mem.fd, h);
      var f := At(mem.fd, x);
      if h == f {
        smallmap := smallmap - {i};
      } else {
        mem := mem.(fd := mem.fd[h := f]);
        mem := mem.(bk := mem.bk[f := h]);
      }
      small := small[i := small[i][..0] + small[i][1..]];
    }

    // ----- any chunk

    /** `insert_chunk`. */
    method Insert(x: int, s: nat, ghost free: map<int, nat>)
      requires Holds(free) && x > 0 && x !in free && SizeOf(mem, x) == s && 32 <= s < TERA && s % 8 == 0
      modifies this
      ensures Holds(free[x := s]) && mem.head == old(mem.head) && mem.foot == old(mem.foot)
      ensures OnlyLinks(free[x := s], old(mem), mem)
    {
      hide BinsOk, SizeOf, OnlyLinks;
      if IsSmall(s) {
        InsertSmall(x, s, free);
      } else {
        InsertLarge(x, s, free);
      }
    }

    /** `unlink_chunk`. */
    method Unlink(x: int, s: nat, ghost free: map<int, nat>)
      requires Holds(free) && x in free && free[x] == s
      modifies this
      ensures Holds(free - {x}) && mem.head == old(mem.head) && mem.foot == old(mem.foot)
      ensures OnlyLinks(free, old(mem), mem)
    {
      hide BinsOk, OnlyLinks;
      if IsSmall(s) {
        UnlinkSmall(x, s, free);
      } else {
        UnlinkLarge(x, free);
      }
    }

    // ----- best fit

    /** Follows the leftmost children down from `t`, and keeps the chunk that leaves least. */
    method Leftmost(t0: int, nb: nat, v0: int, rem0: nat, ghost k: nat, ghost p0: Path) returns (v: int, rem: nat)
      requires TreesOk(trees, mem, roots, treemap) && k < NTREEBINS && |trees.tries| == NTREEBINS && 0 < nb < WORD
      requires Best(trees, mem, k, nb, v0, rem0) && rem0 <= WORD - nb
      requires t0 != 0 ==>
        p0 in trees.tries[k] && trees.tries[k][p0] == t0 && Leads(trees.tries[k], k, mem, p0, nb, rem0)
      requires t0 == 0 ==> AllBeaten(trees.tries[k], mem, nb, rem0)
      ensures AllBeaten(trees.tries[k], mem, nb, rem) && Best(trees, mem, k, nb, v, rem) && rem <= WORD - nb
        && (v == 0 ==> v0 == 0)
    {
      hide NodesOk, RingsOk, RootsOk, TrieAt, Placed, SizeOf, Leads, AllBeaten, Sub;
      ghost var tr, p := trees.tries[k], p0;
      var t := t0;
      v, rem := v0, rem0;
      TrieOfBin(trees, mem, k);
      while t != 0
        invariant Best(trees, mem, k, nb, v, rem) && rem <= WORD - nb && (v == 0 ==> v0 == 0)
        invariant t != 0 ==> p in tr && tr[p] == t && Leads(tr, k, mem, p, nb, rem)
        invariant t == 0 ==> AllBeaten(tr, mem, nb, rem)
        decreases t != 0, Bits(k) - |p|
      {
        ghost var rem' := rem;
        NodeOfBin(trees, mem, k, p);
        NodeIndex(trees, mem, t);
        WrappedRemainder(SizeOf(mem, t), nb, rem);
        var trem := Sub(SizeOf(mem, t), nb);
        if trem < rem {
          rem := trem;
          v := t;
        }
        p := LeftStep(tr, k, mem, p, nb, rem', rem);
        t := LeftmostChild(mem, t);
      }
    }

    /** Follows the bits of the request down its own bin, as far as there are nodes. `t` is where to look on. */
    method Descend(k: nat, nb: nat) returns (t: int, v: int, rem: nat, ghost p: Path)
      requires TreesOk(trees, mem, roots, treemap) && 256 <= nb < WORD && k == TreeIndex(nb)
      ensures Best(trees, mem, k, nb, v, rem) && rem <= WORD - nb && |trees.tries| == NTREEBINS
      ensures t != 0 ==> p in trees.tries[k] && trees.tries[k][p] == t && Leads(trees.tries[k], k, mem, p, nb, rem)
      ensures t != 0 ==> v != 0 || nb <= SizeOf(mem, t) < TERA || nb >= TERA
      ensures t == 0 ==> AllBeaten(trees.tries[k], mem, nb, rem)
    {
      hide NodesOk, RingsOk, RootsOk, TrieAt, Placed, SizeOf, Leads, AllBeaten, Sub, Searching, Covers, TreeIndex,
           Kid, NodeAt, Key, Goes;
      BinShape(trees, mem, roots, treemap);
      ghost var tr := trees.tries[k];
      TrieOfBin(trees, mem, k);
      v, rem, t, p := 0, Sub(0, nb), roots[k], [];
      WrappedRemainder(0, nb, 0);
      if t == 0 {
        RootOfBin(trees, mem, roots, treemap, k, nb, rem);
        return;
      }
      RootOfBin(trees, mem, roots, treemap, k, nb, rem);
      var key := nb * Pow2(LeftShift(k)) % WORD;
      KeyOfRoot(k, nb);
      var rst := 0;
      ghost var q, rq: Path := [], [];
      while true
        invariant Searching(tr, k, mem, q, rst, rq, nb, rem) && q in tr && tr[q] == t && |q| <= Bits(k)
        invariant Covers(k, q, nb) ==> key == Key(k, q, nb)
        invariant Best(trees, mem, k, nb, v, rem) && 0 < rem <= WORD - nb
        decreases Bits(k) - |q|
      {
        ghost var rem' := rem;
        NodeOfBin(trees, mem, k, q);
        NodeIndex(trees, mem, t);
        WrappedRemainder(SizeOf(mem, t), nb, rem);
        var trem := Sub(SizeOf(mem, t), nb);
        if trem < rem {
          v, rem := t, trem;
          if rem == 0 {
            ExactFit(tr, k, mem, q, nb);
            p := q;
            return;
          }
        }
        if Covers(k, q, nb) { KeySays(tr, k, q, mem, nb); }
        var d := key / TOP_BIT % 2 == 1;
        WayStep(tr, k, mem, q, rst, rq, nb, rem', rem, d);
        var rt := Kid(mem, true, t);
        t := Kid(mem, d, t);
        if rt != 0 && rt != t { rst := rt; }
        rq := PassedAt(tr, q, d, rq);
        if t == 0 {
          t, p := rst, rq;
          if t != 0 {
            NodeOfBin(trees, mem, k, p);
            NodeIndex(trees, mem, t);
          }
          return;
        }
        CoversFurther(k, q, d, nb);
        q := q + [d];
        key := key * 2 % WORD;
      }
    }

    /** The search of `tmalloc_large`: the least chunk in the trees that fits, or 0 if none fits. */
    method FindLarge(nb: nat, ghost free: map<int, nat>) returns (v: int, rem: nat)
      requires Holds(free) && 256 <= nb < WORD
      ensures v == 0 ==> forall x | x in free && free[x] >= 256 :: free[x] < nb
      ensures v != 0 ==>
        v in free && free[v] >= 256 && rem == free[v] - nb
        && forall x | x in free && free[x] >= 256 && free[x] >= nb :: free[v] <= free[x]
    {
      hide NodesOk, RingsOk, RootsOk, TrieAt, Placed, SizeOf, Leads, AllBeaten, Sub, Covers, TreeIndex, SmallOk,
           Indexed, Sized;
      var k := TreeIndex(nb);
      var t; ghost var p;
      t, v, rem, p := Descend(k, nb);
      ghost var best := k;
      if t == 0 && v == 0 {
        BinShape(trees, mem, roots, treemap);
        var next := LowestBit(treemap, k + 1);
        if next < NTREEBINS {
          t, best, p := roots[next], next, [];
          RootOfBin(trees, mem, roots, treemap, next, nb, rem);
          NextBinLeads(trees, mem, nb, next);
          v, rem := Leftmost(t, nb, v, rem, next, []);
          if nb < TERA { SomeFound(trees, mem, nb, next, v, rem); }
        }
        EmptyBins(trees, mem, roots, treemap, k, next, nb);
      } else {
        ghost var v0 := v;
        v, rem := Leftmost(t, nb, v, rem, k, p);
        if v0 == 0 && nb < TERA { FitFound(trees.tries[k], mem, p, nb, rem); }
      }
      BinsBeaten(trees, mem, nb, best, v, rem);
      FoundBest(trees, small, mem, roots, treemap, smallmap, free, nb, best, v, rem);
    }

    /** The search of `tmalloc_small`: the least chunk in the trees, all of which fit. */
    method FindSmall(nb: nat, ghost free: map<int, nat>) returns (v: int, rem: nat)
      requires Holds(free) && 32 <= nb < 256 && treemap != {}
      ensures v in free && free[v] >= 256 && rem == free[v] - nb
        && forall x | x in free && free[x] >= 256 :: free[v] <= free[x]
    {
      hide NodesOk, RingsOk, RootsOk, TrieAt, Placed, SizeOf, Leads, AllBeaten, Sub, TreeIndex, SmallOk, Indexed, Sized;
      BinShape(trees, mem, roots, treemap);
      LowestMarked(trees, mem, roots, treemap);
      var i := LowestBit(treemap, 0);
      v := roots[i];
      RootOfBin(trees, mem, roots, treemap, i, 256, 0);
      ghost var p: Path := [];
      NodeOfBin(trees, mem, i, p);
      NodeIndex(trees, mem, v);
      TrieOfBin(trees, mem, i);
      rem := SizeOf(mem, v) - nb;
      AllFit(trees, mem, nb, i, rem);
      p := LeftStep(trees.tries[i], i, mem, p, nb, rem, rem);
      v, rem := Leftmost(LeftmostChild(mem, v), nb, v, rem, i, p);
      EmptyBelow(trees, mem, roots, treemap, i);
      LeastBin(trees, mem, nb, i, v, rem);
      FoundBest(trees, small, mem, roots, treemap, smallmap, free, nb, i, v, rem);
    }
  }
}
