/** Encoded streams: blocks of every kind, with any codes, decode to the expansion of their tokens. */
module TinflStreams {
  import opened Numbers
  import opened TinflBits
  import opened TinflCanonical
  import opened TinflTables
  import opened TinflSpec
  import opened TinflBitReader
  import opened TinflInflate
  import opened TinflTokens
  import opened TinflAdler
  import opened TinflSessions

  // ----- the code lengths of a dynamic block

  /** One code length, or a run of them: symbols 16, 17 and 18. */
  datatype LenOp = Plain(len: nat) | Run(sym: nat, extra: nat)

  /** HLIT, HDIST and HCLEN are the three sizes; `cls` has the code length code lengths in transmission order. */
  datatype Header = Header(sizes: seq<nat>, cls: seq<nat>, ops: seq<LenOp>)

  predicate OpSound(cls: Lengths, op: LenOp)
  {
    if op.Plain? then op.len <= 15 && Uses(cls, op.len)
    else 16 <= op.sym <= 18 && Uses(cls, op.sym) && op.extra < Pow2(RepeatBits(op.sym))
  }

  function OpSymbol(op: LenOp): nat { if op.Plain? then op.len else op.sym }

  function EncodeOp(cls: Lengths, op: LenOp): bits
    requires OpSound(cls, op)
  {
    Code(cls, OpSymbol(op)) + if op.Plain? then [] else BitsOf(op.extra, RepeatBits(op.sym))
  }

  /** The code lengths after one more operation; a repetition of the previous length needs one. */
  function ApplyOp(cls: Lengths, lens: Lengths, op: LenOp): Lengths
    requires OpSound(cls, op) && (OpSymbol(op) == 16 ==> lens != [])
  {
    if op.Plain? then lens + [op.len] else AddRun(lens, RunValue(lens, op.sym), op.extra + RepeatBase(op.sym))
  }

  /** The operations are sound, and no operation follows once `total` lengths are there. */
  predicate OpsSound(cls: Lengths, lens: Lengths, ops: seq<LenOp>, total: nat)
    decreases |ops|
  {
    if |ops| == 0 then |lens| >= total
    else |lens| < total && OpSound(cls, ops[0]) && (OpSymbol(ops[0]) == 16 ==> lens != [])
         && OpsSound(cls, ApplyOp(cls, lens, ops[0]), ops[1..], total)
  }

  function ApplyOps(cls: Lengths, lens: Lengths, ops: seq<LenOp>, total: nat): Lengths
    requires OpsSound(cls, lens, ops, total)
    decreases |ops|
  {
    if |ops| == 0 then lens else ApplyOps(cls, ApplyOp(cls, lens, ops[0]), ops[1..], total)
  }

  function EncodeOps(cls: Lengths, lens: Lengths, ops: seq<LenOp>, total: nat): bits
    requires OpsSound(cls, lens, ops, total)
    decreases |ops|
  {
    if |ops| == 0 then [] else EncodeOp(cls, ops[0]) + EncodeOps(cls, ApplyOp(cls, lens, ops[0]), ops[1..], total)
  }

  lemma RepeatRun(cfg: Config, final: bool, out: seq<byte>, sizes: seq<nat>, cls: Lengths, lens: Lengths, op: LenOp,
                  x: bits, goal: State, rest: bits, m: nat) returns (n: nat)
    requires |sizes| == 3 && Accepted(cls) && OpSound(cls, op) && |lens| < sizes[0] + sizes[1] && op.Run?
      && (op.sym == 16 ==> lens != [])
    requires Reaches(cfg, State(final, MoreLens(sizes, cls, ApplyOp(cls, lens, op)), out), x, goal, rest, m)
    ensures Reaches(cfg, State(final, Repeat(sizes, cls, lens, op.sym), out),
      BitsOf(op.extra, RepeatBits(op.sym)) + x, goal, rest, n)
  {
    hide Step, Accepted, Reaches, BitsOf, LeVal, MoreLens, AddRun, RunValue, RepeatBase, Pow2, RepeatBits;
    var mid := State(final, MoreLens(sizes, cls, ApplyOp(cls, lens, op)), out);
    var st := State(final, Repeat(sizes, cls, lens, op.sym), out);
    var y := BitsOf(op.extra, RepeatBits(op.sym)) + x;
    ReadsBits(op.extra, RepeatBits(op.sym), x);
    StepRepeat(cfg, st, y);
    n := Before(cfg, st, y, mid, RepeatBits(op.sym), goal, rest, m);
  }

  lemma OpBits(cls: Lengths, op: LenOp, x: bits)
    requires OpSound(cls, op)
    ensures EncodeOp(cls, op) + x
      == Code(cls, OpSymbol(op)) + (if op.Run? then BitsOf(op.extra, RepeatBits(op.sym)) + x else x)
  {
    hide Code, BitsOf, RepeatBits;
  }

  lemma OpRun(cfg: Config, final: bool, out: seq<byte>, sizes: seq<nat>, cls: Lengths, lens: Lengths, op: LenOp,
              x: bits, goal: State, rest: bits, m: nat) returns (n: nat)
    requires |sizes| == 3 && Accepted(cls) && OpSound(cls, op) && |lens| < sizes[0] + sizes[1]
      && (OpSymbol(op) == 16 ==> lens != [])
    requires Reaches(cfg, State(final, MoreLens(sizes, cls, ApplyOp(cls, lens, op)), out), x, goal, rest, m)
    ensures Reaches(cfg, State(final, CodeLens(sizes, cls, lens), out), EncodeOp(cls, op) + x, goal, rest, n)
  {
    hide Step, Accepted, Reaches, DecodeSym, Code, Fits, BitsOf, MoreLens, AddRun, RunValue, RepeatBase, Pow2,
         RepeatBits;
    AcceptedFits(cls);
    var st := State(final, CodeLens(sizes, cls, lens), out);
    var mid := State(final, MoreLens(sizes, cls, ApplyOp(cls, lens, op)), out);
    var b, y := EncodeOp(cls, op) + x, x;
    OpBits(cls, op, x);
    hide EncodeOp;
    n := m;
    if op.Run? {
      n := RepeatRun(cfg, final, out, sizes, cls, lens, op, x, goal, rest, m);
      mid, y := State(final, Repeat(sizes, cls, lens, op.sym), out), BitsOf(op.extra, RepeatBits(op.sym)) + x;
    }
    DecodesCode(cls, OpSymbol(op), y);
    StepCodeLen(cfg, st, b);
    n := Before(cfg, st, b, mid, cls[OpSymbol(op)], goal, rest, n);
  }

  lemma OpsRun(cfg: Config, final: bool, out: seq<byte>, sizes: seq<nat>, cls: Lengths, lens: Lengths,
               ops: seq<LenOp>, x: bits,
               goal: State, rest: bits, m: nat) returns (n: nat)
    requires |sizes| == 3 && Accepted(cls) && OpsSound(cls, lens, ops, sizes[0] + sizes[1])
    requires |ApplyOps(cls, lens, ops, sizes[0] + sizes[1])| >= sizes[0] + sizes[1]
    requires Reaches(cfg, State(final, AfterLens(sizes, ApplyOps(cls, lens, ops, sizes[0] + sizes[1])), out), x, goal,
      rest, m)
    ensures Reaches(cfg, State(final, MoreLens(sizes, cls, lens), out),
                    EncodeOps(cls, lens, ops, sizes[0] + sizes[1]) + x, goal, rest, n)
    decreases |ops|
  {
    hide Accepted, Reaches, OpSound, ApplyOp, EncodeOp;
    var total := sizes[0] + sizes[1];
    if |ops| == 0 {
      assert EncodeOps(cls, lens, ops, total) + x == x;
      n := m;
    } else {
      var next := ApplyOp(cls, lens, ops[0]);
      n := OpsRun(cfg, final, out, sizes, cls, next, ops[1..], x, goal, rest, m);
      var y := EncodeOps(cls, next, ops[1..], total) + x;
      n := OpRun(cfg, final, out, sizes, cls, lens, ops[0], y, goal, rest, n);
      assert EncodeOps(cls, lens, ops, total) + x == EncodeOp(cls, ops[0]) + y;
    }
  }

  /** The code length code: transmitted lengths are placed in the order of section 3.2.7 of RFC 1951. */
  function Placed(cls: Lengths, vals: seq<nat>, i: nat): (r: Lengths)
    requires |cls| == 19 && i <= |vals| <= 19 && forall v | v in vals :: v < 8
    ensures |r| == 19
    decreases |vals| - i
  {
    if i == |vals| then cls
    else
      assert vals[i] in vals;
      Placed(SetLength(cls, DEZIGZAG[i], vals[i]), vals, i + 1)
  }

  function EncodeVals(vals: seq<nat>, i: nat): bits
    requires i <= |vals|
    decreases |vals| - i
  {
    if i == |vals| then [] else BitsOf(vals[i], 3) + EncodeVals(vals, i + 1)
  }

  lemma ClsRun(cfg: Config, final: bool, out: seq<byte>, sizes: seq<nat>, cls: Lengths, vals: seq<nat>, i: nat, x: bits,
               goal: State, rest: bits, m: nat) returns (n: nat)
    requires |sizes| == 3 && sizes[2] == |vals| && i <= |vals| <= 19 && |cls| == 19 && (forall v | v in vals :: v < 8)
    requires Accepted(Placed(cls, vals, i))
    requires Reaches(cfg, State(final, MoreLens(sizes, Placed(cls, vals, i), []), out), x, goal, rest, m)
    ensures Reaches(cfg, State(final, AfterClSize(sizes, cls, i), out), EncodeVals(vals, i) + x, goal, rest, n)
    decreases |vals| - i
  {
    hide Accepted, Reaches, Step, MoreLens, BitsOf, LeVal, Byte;
    var b := EncodeVals(vals, i) + x;
    if i == |vals| {
      assert b == x;
      n := m;
    } else {
      assert vals[i] in vals;
      n := ClsRun(cfg, final, out, sizes, SetLength(cls, DEZIGZAG[i], vals[i]), vals, i + 1, x, goal, rest, m);
      var y := EncodeVals(vals, i + 1) + x;
      assert b == BitsOf(vals[i], 3) + y;
      assert Pow2(3) == 8;
      ReadsBits(vals[i], 3, y);
      var st := State(final, ClSizes(sizes, cls, i), out);
      StepClSizes(cfg, st, b);
      n := Before(cfg, st, b, State(final, AfterClSize(sizes, SetLength(cls, DEZIGZAG[i], vals[i]), i + 1), out), 3,
        goal, rest, n);
    }
  }

  /** The operations yield exactly the announced number of code lengths. */
  predicate HeaderLens(h: Header)
  {
    && |h.sizes| == 3 && 257 <= h.sizes[0] <= 288 && 1 <= h.sizes[1] <= 32 && 4 <= h.sizes[2] <= 19
    && |h.cls| == h.sizes[2] && (forall v | v in h.cls :: v < 8)
    && OpsSound(Placed(Repeated(0, 19), h.cls, 0), [], h.ops, h.sizes[0] + h.sizes[1])
    && |ApplyOps(Placed(Repeated(0, 19), h.cls, 0), [], h.ops, h.sizes[0] + h.sizes[1])| == h.sizes[0] + h.sizes[1]
  }

  function HeaderCodes(h: Header): Codes
    requires HeaderLens(h)
  {
    var all := ApplyOps(Placed(Repeated(0, 19), h.cls, 0), [], h.ops, h.sizes[0] + h.sizes[1]);
    Codes(all[..h.sizes[0]], all[h.sizes[0]..])
  }

  predicate HeaderSound(h: Header)
    ensures HeaderSound(h) ==> HeaderLens(h) && CodesOk(HeaderCodes(h))
  {
    HeaderLens(h) && Accepted(Placed(Repeated(0, 19), h.cls, 0)) && CodesOk(HeaderCodes(h))
  }

  function EncodeHeader(h: Header): bits
    requires HeaderSound(h)
  {
    BitsOf(h.sizes[0] - 257, 5) + (BitsOf(h.sizes[1] - 1, 5) + (BitsOf(h.sizes[2] - 4, 4)
      + (EncodeVals(h.cls, 0) + EncodeOps(Placed(Repeated(0, 19), h.cls, 0), [], h.ops, h.sizes[0] + h.sizes[1]))))
  }

  lemma SizeRun(cfg: Config, final: bool, out: seq<byte>, sizes: seq<nat>, k: nat, x: bits, goal: State, rest: bits,
                m: nat)
    returns (n: nat)
    requires k < 3 <= |sizes| && MIN_TABLE_SIZES[k] <= sizes[k] && sizes[k] - MIN_TABLE_SIZES[k] < Pow2(SIZE_BITS[k])
    requires Reaches(cfg, State(final, AfterSize(sizes[..k + 1]), out), x, goal, rest, m)
    ensures Reaches(cfg, State(final, TableSizes(sizes[..k]), out),
      BitsOf(sizes[k] - MIN_TABLE_SIZES[k], SIZE_BITS[k]) + x, goal, rest, n)
  {
    hide Reaches, Step, BitsOf, LeVal, AfterSize, Pow2;
    var v := sizes[k] - MIN_TABLE_SIZES[k];
    var st, b := State(final, TableSizes(sizes[..k]), out), BitsOf(v, SIZE_BITS[k]) + x;
    ReadsBits(v, SIZE_BITS[k], x);
    StepTableSizes(cfg, st, b);
    assert sizes[..k] + [sizes[k]] == sizes[..k + 1];
    n := Before(cfg, st, b, State(final, AfterSize(sizes[..k + 1]), out), SIZE_BITS[k], goal, rest, m);
  }

  lemma HeaderCodesRun(cfg: Config, final: bool, out: seq<byte>, h: Header, x: bits, goal: State, rest: bits, m: nat)
    returns (n: nat)
    requires HeaderSound(h) && Reaches(cfg, State(final, Symbols(HeaderCodes(h)), out), x, goal, rest, m)
    ensures Reaches(cfg, State(final, TableSizes([]), out), EncodeHeader(h) + x, goal, rest, n)
  {
    hide Reaches, Step, BitsOf, LeVal, Accepted, OpsSound, ApplyOps, EncodeOps, EncodeVals, Placed, MoreLens, Repeated;
    var cls := Placed(Repeated(0, 19), h.cls, 0);
    n := OpsRun(cfg, final, out, h.sizes, cls, [], h.ops, x, goal, rest, m);
    var y4 := EncodeOps(cls, [], h.ops, h.sizes[0] + h.sizes[1]) + x;
    n := ClsRun(cfg, final, out, h.sizes, Repeated(0, 19), h.cls, 0, y4, goal, rest, n);
    var y3 := EncodeVals(h.cls, 0) + y4;
    assert Pow2(5) == 32 && Pow2(4) == 16;
    assert h.sizes[..0] == [] && h.sizes[..3] == h.sizes;
    n := SizeRun(cfg, final, out, h.sizes, 2, y3, goal, rest, n);
    var y2 := BitsOf(h.sizes[2] - 4, 4) + y3;
    n := SizeRun(cfg, final, out, h.sizes, 1, y2, goal, rest, n);
    var y1 := BitsOf(h.sizes[1] - 1, 5) + y2;
    n := SizeRun(cfg, final, out, h.sizes, 0, y1, goal, rest, n);
    assert EncodeHeader(h) + x == BitsOf(h.sizes[0] - 257, 5) + y1;
  }

  // ----- blocks and streams

  datatype Block = Stored(data: seq<byte>) | Fixed(ts: seq<Token>) | Dynamic(h: Header, ts: seq<Token>)

  function FixedCodes(): Codes { Codes(FixedLit(), FixedDist()) }

  predicate BlockEncodable(k: Block)
  {
    match k
    case Stored(data) => |data| < 65536
    case Fixed(ts) => AllEncodable(FixedCodes(), ts)
    case Dynamic(h, ts) => HeaderSound(h) && AllEncodable(HeaderCodes(h), ts) && Uses(HeaderCodes(h).lit, 256)
  }

  /** No match reaches back before the start of the output. */
  ghost predicate BlockSound(k: Block, out: seq<byte>)
    ensures BlockSound(k, out) ==> BlockEncodable(k)
  {
    BlockEncodable(k) && (!k.Stored? ==> AllReachable(out, k.ts))
  }

  ghost function ExpandBlock(k: Block, out: seq<byte>): seq<byte>
    requires BlockSound(k, out)
  {
    if k.Stored? then out + k.data else ExpandAll(out, k.ts)
  }

  /** The bits that bring position `pos` to a byte boundary. */
  function Gap(pos: nat): bits { seq((8 - pos % 8) % 8, _ => false) }

  lemma FixedUsable()
    ensures CodesOk(FixedCodes()) && Uses(FixedCodes().lit, 256)
  {
    FixedCodesComplete();
  }

  function EncodeFixed(ts: seq<Token>): bits
    requires AllEncodable(FixedCodes(), ts)
  {
    FixedUsable();
    EncodeBody(FixedCodes(), ts)
  }

  /** A block that starts `pos` bits into the stream. */
  function EncodeBlock(k: Block, final: bool, pos: nat): bits
    requires BlockEncodable(k)
  {
    [final] + match k
      case Stored(data) => [false, false] + (Gap(pos + 3) + ByteBits(StoredLength(|data|) + data))
      case Fixed(ts) => [true, false] + EncodeFixed(ts)
      case Dynamic(h, ts) => [false, true] + (EncodeHeader(h) + EncodeBody(HeaderCodes(h), ts))
  }

  lemma BlockHeaderRun(cfg: Config, st: State, final: bool, ty: nat, x: bits, goal: State, rest: bits, m: nat)
    returns (n: nat)
    requires st.phase.BlockHeader? && ty < 4 && Reaches(cfg, State(final, BlockStart(ty), st.out), x, goal, rest, m)
    ensures Reaches(cfg, st, [final] + [ty % 2 == 1, ty >= 2] + x, goal, rest, n)
  {
    hide Step, Reaches, BlockStart;
    var t := [ty % 2 == 1, ty >= 2];
    var b := [final] + t + x;
    assert b[..3] == [final] + t && b[3..] == x;
    assert t[1..] == [ty >= 2] && t[1..][1..] == [];
    assert LeVal(t[1..]) == Bit(ty >= 2) && ty == ty % 2 + 2 * Bit(ty >= 2);
    assert b[..3][1..] == t;
    StepBlockHeader(cfg, st, b);
    n := Before(cfg, st, b, State(final, BlockStart(ty), st.out), 3, goal, rest, m);
  }

  lemma BlockRun(cfg: Config, st: State, k: Block, final: bool, pos: nat, x: bits, goal: State, rest: bits, m: nat)
    returns (n: nat)
    requires WideEnough(cfg)
    requires st.phase.BlockHeader? && BlockSound(k, st.out)
    requires Partial(pos + |EncodeBlock(k, final, pos)| + |x|) == 0
    requires Reaches(cfg, State(final, EndBlock(cfg, final), ExpandBlock(k, st.out)), x, goal, rest, m)
    ensures Reaches(cfg, st, EncodeBlock(k, final, pos) + x, goal, rest, n)
  {
    hide Step, Reaches, Accepted, EncodeBody, EncodeHeader, AllEncodable, AllReachable, HeaderSound, HeaderLens,
         HeaderCodes;
    hide ExpandAll, FixedLit, FixedDist, Uses, ByteBits, Partial;
    match k
    case Stored(data) => n := StoredFull(cfg, st, data, final, pos, x, goal, rest, m);
    case Fixed(ts) =>
      FixedUsable();
      var y := EncodeBody(FixedCodes(), ts) + x;
      n := BodyRun(cfg, final, FixedCodes(), st.out, ts, x, goal, rest, m);
      n := BlockHeaderRun(cfg, st, final, 1, y, goal, rest, n);
      assert EncodeBlock(k, final, pos) + x == [final] + [true, false] + y;
    case Dynamic(h, ts) =>
      var y := EncodeBody(HeaderCodes(h), ts) + x;
      n := BodyRun(cfg, final, HeaderCodes(h), st.out, ts, x, goal, rest, m);
      n := HeaderCodesRun(cfg, final, st.out, h, y, goal, rest, n);
      n := BlockHeaderRun(cfg, st, final, 2, EncodeHeader(h) + y, goal, rest, n);
      assert EncodeBlock(k, final, pos) + x == [final] + [false, true] + (EncodeHeader(h) + y);
  }

  lemma StoredFull(cfg: Config, st: State, data: seq<byte>, final: bool, pos: nat, x: bits, goal: State, rest: bits,
                   m: nat) returns (n: nat)
    requires st.phase.BlockHeader? && |data| < 65536
      && Partial(pos + |EncodeBlock(Stored(data), final, pos)| + |x|) == 0
    requires Reaches(cfg, State(final, EndBlock(cfg, final), st.out + data), x, goal, rest, m)
    ensures Reaches(cfg, st, EncodeBlock(Stored(data), final, pos) + x, goal, rest, n)
  {
    hide Step, Reaches, Accepted, ByteBits, Partial, AllEncodable;
    var y := Gap(pos + 3) + ByteBits(StoredLength(|data|) + data);
    assert EncodeBlock(Stored(data), final, pos) == [final] + [false, false] + y;
    Aligned(pos, |data| + 4, |x|);
    n := StoredBlockRun(cfg, final, st.out, Gap(pos + 3), data, x, goal, rest, m);
    n := BlockHeaderRun(cfg, st, final, 0, y + x, goal, rest, n);
    assert EncodeBlock(Stored(data), final, pos) + x == [final] + [false, false] + (y + x);
  }

  lemma Aligned(pos: nat, bytes: nat, n: nat)
    requires Partial(pos + (3 + (|Gap(pos + 3)| + 8 * bytes)) + n) == 0
    ensures Partial(n) == 0
  {
  }

  ghost predicate BlocksSound(ks: seq<Block>, out: seq<byte>)
    decreases |ks|
  {
    |ks| == 0 || (BlockSound(ks[0], out) && BlocksSound(ks[1..], ExpandBlock(ks[0], out)))
  }

  ghost function ExpandBlocks(ks: seq<Block>, out: seq<byte>): seq<byte>
    requires BlocksSound(ks, out)
    decreases |ks|
  {
    if |ks| == 0 then out else ExpandBlocks(ks[1..], ExpandBlock(ks[0], out))
  }

  /** All blocks; the last one is marked final. */
  ghost function EncodeBlocks(ks: seq<Block>, out: seq<byte>, pos: nat): bits
    requires BlocksSound(ks, out)
    decreases |ks|
  {
    if |ks| == 0 then []
    else
      var b := EncodeBlock(ks[0], |ks| == 1, pos);
      b + EncodeBlocks(ks[1..], ExpandBlock(ks[0], out), pos + |b|)
  }

  lemma BlocksRun(cfg: Config, st: State, ks: seq<Block>, pos: nat, x: bits, goal: State, rest: bits, m: nat)
    returns (n: nat)
    requires WideEnough(cfg)
    requires st.phase.BlockHeader? && |ks| > 0 && BlocksSound(ks, st.out)
    requires Partial(pos + |EncodeBlocks(ks, st.out, pos)| + |x|) == 0
    requires Reaches(cfg, State(true, EndBlock(cfg, true), ExpandBlocks(ks, st.out)), x, goal, rest, m)
    ensures Reaches(cfg, st, EncodeBlocks(ks, st.out, pos) + x, goal, rest, n)
    decreases |ks|
  {
    hide Reaches, BlockSound, BlockEncodable, EncodeBlock, ExpandBlock, Partial;
    var b := EncodeBlock(ks[0], |ks| == 1, pos);
    var next := ExpandBlock(ks[0], st.out);
    if |ks| == 1 {
      assert EncodeBlocks(ks, st.out, pos) == b;
      n := BlockRun(cfg, st, ks[0], true, pos, x, goal, rest, m);
    } else {
      var y := EncodeBlocks(ks[1..], next, pos + |b|);
      n := BlocksRun(cfg, State(false, BlockHeader, next), ks[1..], pos + |b|, x, goal, rest, m);
      n := BlockRun(cfg, st, ks[0], false, pos, y + x, goal, rest, n);
      assert EncodeBlocks(ks, st.out, pos) + x == b + (y + x);
    }
  }

  /** The four trailer bytes, most significant first. */
  function TrailerValue(t: seq<byte>): nat
  {
    if |t| == 0 then 0 else TrailerValue(t[..|t| - 1]) * 256 + t[|t| - 1]
  }

  lemma TrailerRun(cfg: Config, out: seq<byte>, t: seq<byte>, k: nat, x: bits) returns (n: nat)
    requires |t| == 4 && k < 4
    ensures Reaches(cfg, State(true, Trailer(k, TrailerValue(t[..k])), out), ByteBits(t[k..]) + x,
      State(true, Done(TrailerValue(t)), out), x, n)
    decreases 4 - k
  {
    hide Step, Reaches, Byte, BitsOf;
    var st, goal := State(true, Trailer(k, TrailerValue(t[..k])), out), State(true, Done(TrailerValue(t)), out);
    var y := ByteBits(t[k + 1..]) + x;
    var b := ByteBits(t[k..]) + x;
    assert t[k..][1..] == t[k + 1..] && t[..k + 1][..k] == t[..k] && t[..4] == t;
    assert b == BitsOf(t[k], 8) + y;
    ByteRead(t[k], y);
    StepTrailer(cfg, st, b);
    if k == 3 {
      assert y == x;
      n := Before(cfg, st, b, goal, 8, goal, x, AtGoal(cfg, goal, x));
    } else {
      n := TrailerRun(cfg, out, t, k + 1, x);
      n := Before(cfg, st, b, State(true, Trailer(k + 1, TrailerValue(t[..k + 1])), out), 8, goal, x, n);
    }
  }

  ghost function AtGoal(cfg: Config, goal: State, x: bits): (n: nat)
    ensures Reaches(cfg, goal, x, goal, x, n)
  {
    0
  }

  /** After the last block: nothing in a raw stream, alignment and the checksum in a zlib stream. */
  function EncodeEnd(cfg: Config, trailer: seq<byte>, pos: nat): bits
  {
    if cfg.zlib then Gap(pos) + ByteBits(trailer) else []
  }

  lemma EndRun(cfg: Config, out: seq<byte>, trailer: seq<byte>, pos: nat, x: bits) returns (n: nat)
    requires |trailer| == 4 && Partial(pos + |EncodeEnd(cfg, trailer, pos)| + |x|) == 0
    ensures Reaches(cfg, State(true, EndBlock(cfg, true), out), EncodeEnd(cfg, trailer, pos) + x,
                    State(true, Done(if cfg.zlib then TrailerValue(trailer) else 1), out), x, n)
  {
    hide Step, Reaches, ByteBits, TrailerValue, Partial;
    var b := EncodeEnd(cfg, trailer, pos) + x;
    if cfg.zlib {
      var goal := State(true, Done(TrailerValue(trailer)), out);
      n := TrailerRun(cfg, out, trailer, 0, x);
      assert trailer[..0] == [] && trailer[0..] == trailer && TrailerValue([]) == 0 by { NoTrailer(); }
      var st, y := State(true, TrailerAlign, out), ByteBits(trailer) + x;
      StepAlign(cfg, st, b);
      assert b == Gap(pos) + y;
      EndAligned(pos, 4, |x|);
      n := Before(cfg, st, b, State(true, Trailer(0, 0), out), |Gap(pos)|, goal, x, n);
    } else {
      assert b == x;
      n := AtGoal(cfg, State(true, Done(1), out), x);
    }
  }

  lemma NoTrailer()
    ensures TrailerValue([]) == 0
  {
  }

  lemma EndAligned(pos: nat, bytes: nat, n: nat)
    requires Partial(pos + (|Gap(pos)| + 8 * bytes) + n) == 0
    ensures Partial(|Gap(pos)| + (8 * bytes + n)) == |Gap(pos)|
  {
  }

  /** A whole stream, raw or with the header and trailer of RFC 1950. */
  ghost function EncodeStream(cfg: Config, header: seq<byte>, ks: seq<Block>, trailer: seq<byte>): bits
    requires BlocksSound(ks, [])
  {
    var h := if cfg.zlib then ByteBits(header) else [];
    var body := EncodeBlocks(ks, [], |h|);
    h + (body + EncodeEnd(cfg, trailer, |h| + |body|))
  }

  /** The round trip: an encoded stream, with anything behind it, means the expansion of its blocks. */
  lemma StreamDecodes(cfg: Config, header: seq<byte>, ks: seq<Block>, trailer: seq<byte>, z: seq<byte>, tail: bits)
    returns (n: nat)
    requires WideEnough(cfg)
    requires |ks| > 0 && BlocksSound(ks, []) && |trailer| == 4
    requires |header| == 2 && (cfg.zlib ==> HeaderOk(cfg, header[0], header[1]))
    requires ByteBits(z) == EncodeStream(cfg, header, ks, trailer) + tail
    ensures Inflates(cfg, z, State(true, Done(if cfg.zlib then TrailerValue(trailer) else 1), ExpandBlocks(ks, [])),
      tail, n)
  {
    hide Step, Reaches, BitsOf, Byte, EncodeEnd, EncodeBlocks, ExpandBlocks, BlocksSound, TrailerValue, HeaderOk,
         ByteBits, Partial;
    var h := if cfg.zlib then ByteBits(header) else [];
    var body := EncodeBlocks(ks, [], |h|);
    var end := EncodeEnd(cfg, trailer, |h| + |body|);
    var out := ExpandBlocks(ks, []);
    var goal := State(true, Done(if cfg.zlib then TrailerValue(trailer) else 1), out);
    assert ByteBits(z) == h + (body + (end + tail));
    WholeStream(|z|, |h|, |body|, |end|, |tail|);
    n := EndRun(cfg, out, trailer, |h| + |body|, tail);
    n := BlocksRun(cfg, State(false, BlockHeader, []), ks, |h|, end + tail, goal, tail, n);
    if cfg.zlib {
      n := ZlibHeaderRun(cfg, header, body + (end + tail), goal, tail, n);
    } else {
      assert ByteBits(z) == body + (end + tail);
    }
  }

  lemma WholeStream(bytes: nat, h: nat, body: nat, end: nat, tail: nat)
    requires 8 * bytes == h + (body + (end + tail))
    ensures Partial((h + body) + end + tail) == 0 && Partial(h + body + (end + tail)) == 0
  {
  }

  lemma ZlibHeaderRun(cfg: Config, header: seq<byte>, x: bits, goal: State, rest: bits, m: nat) returns (n: nat)
    requires cfg.zlib && |header| == 2 && HeaderOk(cfg, header[0], header[1])
    requires Reaches(cfg, State(false, BlockHeader, []), x, goal, rest, m)
    ensures Reaches(cfg, Begin(cfg), ByteBits(header) + x, goal, rest, n)
  {
    hide Step, Reaches, Byte, HeaderOk, BitsOf;
    var st := State(false, ZHeader1(header[0]), []);
    var y := BitsOf(header[1], 8) + x;
    ByteRead(header[1], x);
    StepZHeader1(cfg, st, y);
    n := Before(cfg, st, y, State(false, BlockHeader, []), 8, goal, rest, m);
    var b := ByteBits(header) + x;
    assert header[1..][1..] == [] && ByteBits(header[1..]) == BitsOf(header[1], 8) + [];
    assert b == BitsOf(header[0], 8) + y;
    ByteRead(header[0], y);
    StepZHeader0(cfg, Begin(cfg), b);
    n := Before(cfg, Begin(cfg), b, st, 8, goal, rest, n);
  }

  /** From blocks to bytes and back: the decoder, called in any pieces, returns what was encoded. */
  method DecodesWhatWasEncoded(cfg: Config, z: seq<byte>, pieces: seq<Piece>, out: array<byte>, wide: bool,
                               ghost header: seq<byte>, ghost ks: seq<Block>, ghost trailer: seq<byte>,
                                 ghost tail: bits)
    returns (st: Status, produced: nat)
    requires cfg == Flat(cfg.zlib) && |ks| > 0 && BlocksSound(ks, []) && |trailer| == 4
    requires |header| == 2 && (cfg.zlib ==> HeaderOk(cfg, header[0], header[1]))
    requires ByteBits(z) == EncodeStream(cfg, header, ks, trailer) + tail && |ExpandBlocks(ks, [])| <= out.Length
    modifies out
    ensures produced == |ExpandBlocks(ks, [])| && out[..produced] == ExpandBlocks(ks, [])
    ensures st == if cfg.zlib && Pack(Adler(Sums(1, 0), ExpandBlocks(ks, []))) != TrailerValue(trailer)
      then AdlerMismatch else StatusDone
  {
    hide Inflates, Settles, Reaches, EncodeStream, ExpandBlocks, BlocksSound, TrailerValue, HeaderOk, Adler, Pack;
    ghost var n := StreamDecodes(cfg, header, ks, trailer, z, tail);
    ghost var goal := State(true, Done(if cfg.zlib then TrailerValue(trailer) else 1), ExpandBlocks(ks, []));
    InflatesSettles(cfg, z, out.Length, goal, tail, n);
    st, produced := DecompressInPieces(cfg, z, pieces, out, wide, goal, tail, n, 0);
    assert goal.out[..produced] == goal.out;
  }
}
