/** The chunks of the heap by address, their boundary tags, and the elementary changes of the tiling. */
module AllocHeap {
  import opened AllocSizes
  import opened AllocRings

  /** `Live`: handed out. `Own`: holds the allocator's own records. `Fence`: end of a segment. */
  datatype Kind = Live | Own | Fence | Free | Top

  /** `gap` is the size of the free chunk right in front of this one, or 0. */
  datatype Block = Block(size: nat, kind: Kind, gap: nat)

  type Blocks = map<int, Block>

  predicate Used(k: Kind) { k != Free && k != Top }

  /** A chunk and its neighbours: a free chunk has chunks in use on both sides. */
  ghost predicate BlockOk(b: Blocks, a: int)
    requires a in b
  {
    var z, k, g, n := b[a].size, b[a].kind, b[a].gap, a + b[a].size;
    && a > 0 && a % 8 == 0 && z > 0 && z % 8 == 0
    && (k == Live || k == Own || k == Free ==> z >= MIN_CHUNK_SIZE && n in b)
    && (k == Fence ==> z == SIZE_T_SIZE)
    && (k == Free ==> Used(b[n].kind) && b[n].gap == z)
    && (k == Free || k == Top ==> g == 0)
    && (g > 0 ==> a - g in b && b[a - g] == Block(g, Free, 0))
  }

  ghost predicate Apart(b: Blocks)
  {
    forall a, c | a in b && c in b && a < c :: a + b[a].size <= c
  }

  ghost predicate Tiled(b: Blocks)
  {
    (forall a | a in b :: BlockOk(b, a)) && Apart(b)
  }

  /** The words in memory say the same: size, CINUSE and PINUSE, and the size of a free chunk once more at its end. */
  ghost predicate Tagged(b: Blocks, head: Words, foot: Words)
  {
    forall a | a in b :: TagOk(b[a], At(head, a), At(foot, a))
  }

  predicate TagOk(z: Block, h: int, f: int)
  {
    h == Head(z.size, Used(z.kind), z.gap == 0) && (z.gap > 0 ==> f == z.gap)
  }

  function Next(b: Blocks, a: int): int
    requires a in b
  {
    a + b[a].size
  }

  /** Chunks end at different places. */
  lemma EndsDiffer(b: Blocks, a: int, c: int)
    requires Tiled(b) && a in b && c in b
    ensures BlockOk(b, a) && BlockOk(b, c) && (Next(b, a) == Next(b, c) ==> a == c)
    ensures a < c ==> Next(b, a) <= c
  {
  }

  lemma SameEnd(b: Blocks, a: int, c: int)
    requires Tiled(b) && a in b && c in b
    ensures Next(b, a) == Next(b, c) ==> a == c
  {
    hide BlockOk;
    EndsDiffer(b, a, c);
  }

  ghost predicate SameSizes(b: Blocks, b': Blocks)
  {
    forall c :: (c in b' <==> c in b) && (c in b ==> b'[c].size == b[c].size)
  }

  lemma SameApart(b: Blocks, b': Blocks)
    requires Apart(b) && SameSizes(b, b')
    ensures Apart(b')
  {
  }

  // ----- elementary changes

  /** A free chunk comes into use. */
  function Occupy(b: Blocks, a: int): Blocks
    requires a in b && Next(b, a) in b
  {
    b[a := b[a].(kind := Live)][Next(b, a) := b[Next(b, a)].(gap := 0)]
  }

  lemma AfterFree(b: Blocks, a: int)
    requires Tiled(b) && a in b && b[a].kind == Free
    ensures var n := Next(b, a);
      n in b && n != a && Used(b[n].kind) && b[n].gap == b[a].size && b[a].gap == 0 && b[a].size >= MIN_CHUNK_SIZE
  {
    hide BlockOk;
    EndsDiffer(b, a, a);
    FreeFields(b, a);
  }

  lemma FreeFields(b: Blocks, a: int)
    requires a in b && BlockOk(b, a) && b[a].kind == Free
    ensures var n := Next(b, a);
      n in b && n != a && Used(b[n].kind) && b[n].gap == b[a].size && b[a].gap == 0 && b[a].size >= MIN_CHUNK_SIZE
  {
  }

  lemma OccupyBlock(b: Blocks, a: int, c: int)
    requires a in b && c in b && BlockOk(b, a) && BlockOk(b, c) && b[a].kind == Free
      && (c != a ==> Next(b, c) != Next(b, a))
    ensures Next(b, a) in b && Next(b, a) != a && BlockOk(Occupy(b, a), c)
  {
  }

  lemma OccupyTiled(b: Blocks, a: int)
    requires Tiled(b) && a in b && b[a].kind == Free
    ensures Next(b, a) in b && Next(b, a) != a && Used(b[Next(b, a)].kind) && Tiled(Occupy(b, a))
  {
    hide BlockOk, Apart;
    AfterFree(b, a);
    var b' := Occupy(b, a);
    assert SameSizes(b, b');
    hide Occupy;
    SameApart(b, b');
    forall c | c in b' ensures BlockOk(b', c) {
      EndsDiffer(b, a, c);
      OccupyBlock(b, a, c);
    }
  }

  /** A chunk with chunks in use on both sides becomes free. */
  function Vacate(b: Blocks, a: int): Blocks
    requires a in b && Next(b, a) in b
  {
    b[a := b[a].(kind := Free)][Next(b, a) := b[Next(b, a)].(gap := b[a].size)]
  }

  predicate Vacant(b: Blocks, a: int)
  {
    a in b && b[a].kind == Live && b[a].gap == 0 && Next(b, a) in b && Used(b[Next(b, a)].kind)
  }

  lemma VacateBlock(b: Blocks, a: int, c: int)
    requires Vacant(b, a) && c in b && BlockOk(b, a) && BlockOk(b, c) && (c != a ==> Next(b, c) != Next(b, a))
    ensures BlockOk(Vacate(b, a), c)
  {
  }

  lemma VacateTiled(b: Blocks, a: int)
    requires Tiled(b) && Vacant(b, a)
    ensures Tiled(Vacate(b, a))
  {
    hide BlockOk, Apart;
    var b' := Vacate(b, a);
    assert SameSizes(b, b');
    hide Vacate;
    SameApart(b, b');
    forall c | c in b' ensures BlockOk(b', c) {
      EndsDiffer(b, a, c);
      VacateBlock(b, a, c);
    }
  }

  /** A chunk in use is cut in two. */
  function Carve(b: Blocks, a: int, nb: nat): Blocks
    requires a in b && nb <= b[a].size
  {
    b[a := b[a].(size := nb)][a + nb := Block(b[a].size - nb, Live, 0)]
  }

  predicate Carves(b: Blocks, a: int, nb: nat)
  {
    a in b && b[a].kind == Live && nb % 8 == 0 && MIN_CHUNK_SIZE <= nb && nb + MIN_CHUNK_SIZE <= b[a].size
  }

  lemma CarveBlock(b: Blocks, a: int, nb: nat, c: int)
    requires Carves(b, a, nb) && BlockOk(b, a) && a + nb !in b && c in Carve(b, a, nb)
    requires c in b ==> BlockOk(b, c) && (c != a ==> Next(b, c) != Next(b, a))
    ensures BlockOk(Carve(b, a, nb), c)
  {
  }

  lemma CarveTiled(b: Blocks, a: int, nb: nat)
    requires Tiled(b) && Carves(b, a, nb)
    ensures a + nb !in b && Tiled(Carve(b, a, nb))
  {
    hide BlockOk;
    EndsDiffer(b, a, a);
    var b' := Carve(b, a, nb);
    forall c | c in b' ensures BlockOk(b', c) {
      if c in b { EndsDiffer(b, a, c); }
      CarveBlock(b, a, nb, c);
    }
    assert Apart(b') by { hide Tiled; }
  }

  /** A chunk and its successor, both in use, become one. */
  function Fuse(b: Blocks, a: int): Blocks
    requires a in b && Next(b, a) in b
  {
    (b - {Next(b, a)})[a := b[a].(size := b[a].size + b[Next(b, a)].size)]
  }

  predicate Fuses(b: Blocks, a: int) { a in b && b[a].kind == Live && Next(b, a) in b && b[Next(b, a)].kind == Live }

  lemma FuseBlock(b: Blocks, a: int, c: int)
    requires Fuses(b, a) && BlockOk(b, a) && BlockOk(b, Next(b, a)) && c in Fuse(b, a)
    requires BlockOk(b, c) && (c != a ==> Next(b, c) != Next(b, a))
    ensures BlockOk(Fuse(b, a), c)
  {
  }

  lemma FuseTiled(b: Blocks, a: int)
    requires Tiled(b) && Fuses(b, a)
    ensures Tiled(Fuse(b, a))
  {
    hide BlockOk;
    var b' := Fuse(b, a);
    EndsDiffer(b, a, Next(b, a));
    forall c | c in b' ensures BlockOk(b', c) {
      EndsDiffer(b, a, c);
      FuseBlock(b, a, c);
    }
    assert Apart(b') by { hide Tiled; }
  }
}
