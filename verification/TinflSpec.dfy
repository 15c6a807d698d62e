/** Inflate as a machine on a plain bit sequence.

    One step consumes bits from the front of the sequence, or writes one byte. There is no bit
    buffer, no lookup table, no output window and no suspension: a step that needs more bits
    than there are simply cannot be taken yet. The formats are those of RFC 1951 and RFC 1950. */
module TinflSpec {
  import opened Numbers
  import opened TinflBits
  import opened TinflCanonical
  import opened TinflTables

  const LENGTH_BASE: seq<nat> := [3, 4, 5, 6, 7, 8, 9, 10, 11, 13, 15, 17, 19, 23, 27, 31, 35, 43, 51, 59,
                                  67, 83, 99, 115, 131, 163, 195, 227, 258]
  const LENGTH_EXTRA: seq<nat> := [0, 0, 0, 0, 0, 0, 0, 0, 1, 1, 1, 1, 2, 2, 2, 2, 3, 3, 3, 3,
                                   4, 4, 4, 4, 5, 5, 5, 5, 0]
  const DIST_BASE: seq<nat> := [1, 2, 3, 4, 5, 7, 9, 13, 17, 25, 33, 49, 65, 97, 129, 193, 257, 385, 513, 769,
                                1025, 1537, 2049, 3073, 4097, 6145, 8193, 12289, 16385, 24577]
  const DIST_EXTRA: seq<nat> := [0, 0, 0, 0, 1, 1, 2, 2, 3, 3, 4, 4, 5, 5, 6, 6, 7, 7, 8, 8,
                                 9, 9, 10, 10, 11, 11, 12, 12, 13, 13]
  const DEZIGZAG: seq<nat> := [16, 17, 18, 0, 8, 7, 9, 6, 10, 5, 11, 4, 12, 3, 13, 2, 14, 1, 15]
  const MIN_TABLE_SIZES: seq<nat> := [257, 1, 4]
  const SIZE_BITS: seq<nat> := [5, 5, 4]

  /** `zlib`: the stream has the header and trailer of RFC 1950. `wrap`: the output buffer is a
      32 KB window that is written round and round, instead of one flat buffer. */
  datatype Config = Config(zlib: bool, wrap: bool, room: nat)

  function Flat(zlib: bool): Config { Config(zlib, false, 0) }

  function Wrapping(zlib: bool, room: nat): Config { Config(zlib, true, room) }

  /** The farthest that a match can reach back. */
  const LZ_DICT_SIZE := 32768

  /** The codes of the current block, given by their code lengths. */
  datatype Codes = Codes(lit: Lengths, dist: Lengths)

  datatype Phase =
    | ZHeader0
    | ZHeader1(cmf: byte)
    | BlockHeader
    | StoredAlign
    | StoredHeader(hdr: seq<byte>)
    | StoredData(left: nat)
    | StoredByte(c: byte, left: nat)
    | TableSizes(sizes: seq<nat>)
    | ClSizes(sizes: seq<nat>, cls: Lengths, i: nat)
    | CodeLens(sizes: seq<nat>, cls: Lengths, lens: Lengths)
    | Repeat(sizes: seq<nat>, cls: Lengths, lens: Lengths, sym: nat)
    | Symbols(codes: Codes)
    | Literal(codes: Codes, c: byte)
    | LengthExtra(codes: Codes, sym: nat)
    | Distance(codes: Codes, len: nat)
    | DistanceExtra(codes: Codes, len: nat, sym: nat)
    | Copy(codes: Codes, len: nat, dist: nat)
    | TrailerAlign
    | Trailer(k: nat, adler: nat)
    | Done(adler: nat)
    | Failed
    | Undefined  // the stream has left the format; nothing is said about what follows

  datatype State = State(final: bool, phase: Phase, out: seq<byte>)

  datatype Outcome =
    | Need                          // more bits are needed to go on
    | Halt                          // Done, Failed or Undefined
    | Go(next: State, used: nat)    // the next state, and how many bits it took

  // ----- reading

  datatype Decoded = Sym(s: nat) | Short | Bad

  /** The symbol at the front of `b`; `Short` if `b` is only the beginning of a code. */
  ghost function DecodeSym(lens: Lengths, b: bits): (d: Decoded)
    ensures d.Sym? ==> IsNext(lens, d.s, b)
    ensures d.Short? ==> forall s: nat :: !IsNext(lens, s, b)
  {
    if exists s: nat :: IsNext(lens, s, b) then (var s: nat :| IsNext(lens, s, b); Sym(s))
    else if exists s: nat :: Uses(lens, s) && b <= Code(lens, s) then Short
    else Bad
  }

  // ----- the blocks

  function Begin(cfg: Config): State
  {
    State(false, if cfg.zlib then ZHeader0 else BlockHeader, [])
  }

  function EndBlock(cfg: Config, final: bool): Phase
  {
    if !final then BlockHeader else if cfg.zlib then TrailerAlign else Done(1)
  }

  /** The checks of RFC 1950 on CMF and FLG, and the window size check of the wrapping mode. */
  predicate HeaderOk(cfg: Config, cmf: byte, flg: byte)
  {
    && (cmf * 256 + flg) % 31 == 0
    && flg / 32 % 2 == 0
    && cmf % 16 == 8
    && (cfg.wrap ==> cmf / 16 <= 7 && Pow2(8 + cmf / 16) <= cfg.room)
  }

  function Repeated(v: nat, n: nat): (r: seq<nat>)
    ensures |r| == n && forall i | 0 <= i < n :: r[i] == v
  {
    seq(n, _ => v)
  }

  function FixedLit(): (l: Lengths)
    ensures |l| == 288
  {
    Repeated(8, 144) + Repeated(9, 112) + Repeated(7, 24) + Repeated(8, 8)
  }

  function FixedDist(): (l: Lengths)
    ensures |l| == 32
  {
    Repeated(5, 32)
  }

  /** The phase that starts decoding symbols, if both codes are usable. */
  function StartSymbols(lit: Lengths, dist: Lengths): Phase
  {
    if Accepted(lit) && Accepted(dist) then Symbols(Codes(lit, dist)) else Failed
  }

  function BlockStart(ty: nat): Phase
  {
    if ty == 0 then StoredAlign
    else if ty == 1 then StartSymbols(FixedLit(), FixedDist())
    else if ty == 2 then TableSizes([])
    else Failed
  }

  function AfterLens(sizes: seq<nat>, lens: Lengths): Phase
    requires |sizes| == 3 && |lens| >= sizes[0] + sizes[1]
  {
    if |lens| == sizes[0] + sizes[1] then StartSymbols(lens[..sizes[0]], lens[sizes[0]..]) else Failed
  }

  // ----- one step

  predicate CodesOk(codes: Codes) { Accepted(codes.lit) && Accepted(codes.dist) }

  ghost predicate WellFormed(p: Phase)
  {
    match p
    case StoredHeader(hdr) => |hdr| < 4
    case TableSizes(sizes) => |sizes| < 3
    case ClSizes(sizes, cls, i) => |sizes| == 3 && sizes[2] <= 19 && |cls| == 19 && i < sizes[2]
    case CodeLens(sizes, cls, lens) => |sizes| == 3 && |lens| < sizes[0] + sizes[1] && Accepted(cls)
    case Repeat(sizes, cls, lens, sym) =>
      |sizes| == 3 && 16 <= sym <= 18 && (sym == 16 ==> lens != []) && Accepted(cls)
    case Symbols(codes) => CodesOk(codes)
    case Literal(codes, c) => CodesOk(codes)
    case LengthExtra(codes, sym) => CodesOk(codes) && 257 <= sym <= 285
    case Distance(codes, len) => CodesOk(codes)
    case DistanceExtra(codes, len, sym) => CodesOk(codes) && sym < 30
    case Copy(codes, len, dist) => CodesOk(codes)
    case StoredByte(c, left) => left > 0
    case _ => true
  }

  function GoTo(st: State, p: Phase, used: nat): Outcome { Go(st.(phase := p), used) }

  function Write(st: State, p: Phase, c: byte): Outcome { Go(State(st.final, p, st.out + [c]), 0) }

  ghost function Step(cfg: Config, st: State, b: bits): (r: Outcome)
    ensures r.Go? ==> r.used <= |b|
  {
    if !WellFormed(st.phase) then Halt
    else match st.phase
      case Done(_) => Halt
      case Failed => Halt
      case Undefined => Halt
      case TableSizes(_) => StepTables(st, b)
      case ClSizes(_, _, _) => StepTables(st, b)
      case CodeLens(_, _, _) => StepCodeLens(st, b)
      case Repeat(_, _, _, _) => StepTables(st, b)
      case Symbols(_) => StepSymbols(cfg, st, b)
      case Distance(_, _) => StepDistance(st, b)
      case Literal(_, _) => StepMatch(cfg, st, b)
      case LengthExtra(_, _) => StepMatch(cfg, st, b)
      case DistanceExtra(_, _, _) => StepMatch(cfg, st, b)
      case Copy(_, _, _) => StepMatch(cfg, st, b)
      case _ => StepBytes(cfg, st, b)
  }

  /** Headers, stored blocks and the trailer. */
  ghost function StepBytes(cfg: Config, st: State, b: bits): (r: Outcome)
    requires WellFormed(st.phase)
    ensures r.Go? ==> r.used <= |b|
  {
    match st.phase
    case ZHeader0 => if |b| < 8 then Need else GoTo(st, ZHeader1(Byte(b)), 8)
    case ZHeader1(cmf) => if |b| < 8 then Need
      else GoTo(st, if HeaderOk(cfg, cmf, Byte(b)) then BlockHeader else Failed, 8)
    case BlockHeader => if |b| < 3 then Need else Go(State(b[0], BlockStart(LeVal(b[1..3])), st.out), 3)
    case StoredAlign => GoTo(st, StoredHeader([]), Partial(|b|))
    case StoredHeader(hdr) => if |b| < 8 then Need else GoTo(st, AfterHeaderByte(hdr + [Byte(b)]), 8)
    case StoredData(left) => if left == 0 then GoTo(st, EndBlock(cfg, st.final), 0)
                             else if |b| < 8 then Need else GoTo(st, StoredByte(Byte(b), left), 8)
    case StoredByte(c, left) => Write(st, StoredData(left - 1), c)
    case TrailerAlign => GoTo(st, Trailer(0, 0), Partial(|b|))
    case Trailer(k, adler) => if |b| < 8 then Need else
      GoTo(st, AfterTrailerByte(k, adler, Byte(b)), 8)
    case _ => Halt
  }

  /** The code lengths of a dynamic block. */
  ghost function StepTables(st: State, b: bits): (r: Outcome)
    requires WellFormed(st.phase)
    ensures r.Go? ==> r.used <= |b|
  {
    match st.phase
    case TableSizes(sizes) => var n := SIZE_BITS[|sizes|];
      if |b| < n then Need else GoTo(st, AfterSize(sizes + [LeVal(b[..n]) + MIN_TABLE_SIZES[|sizes|]]), n)
    case ClSizes(sizes, cls, i) => if |b| < 3 then Need else
      GoTo(st, AfterClSize(sizes, SetLength(cls, DEZIGZAG[i], LowThree(b)), i + 1), 3)
    case Repeat(sizes, cls, lens, sym) => var n := RepeatBits(sym);
      if |b| < n then Need else
      GoTo(st, MoreLens(sizes, cls, AddRun(lens, RunValue(lens, sym), LeVal(b[..n]) + RepeatBase(sym))), n)
    case _ => Halt
  }

  function RepeatBits(sym: nat): nat { if sym == 16 then 2 else if sym == 17 then 3 else 7 }

  /** Symbol 16 repeats the previous length, 17 and 18 repeat zero. */
  function RunValue(lens: Lengths, sym: nat): (v: nat)
    requires sym == 16 ==> lens != []
    ensures v <= 15
  {
    if sym == 16 then lens[|lens| - 1] else 0
  }

  function RepeatBase(sym: nat): nat { if sym == 18 then 11 else 3 }

  function SetLength(lens: Lengths, i: nat, v: nat): (r: Lengths)
    requires i < |lens| && v <= 15
    ensures r == lens[i := v]
  {
    lens[i := v]
  }

  function AddRun(lens: Lengths, v: nat, n: nat): (r: Lengths)
    requires v <= 15
    ensures r == lens + Repeated(v, n)
  {
    lens + Repeated(v, n)
  }

  /** Literals, matches and their extra bits. */
  ghost function StepMatch(cfg: Config, st: State, b: bits): (r: Outcome)
    requires WellFormed(st.phase)
    ensures r.Go? ==> r.used <= |b|
  {
    match st.phase
    case Literal(codes, c) => Write(st, Symbols(codes), c)
    case LengthExtra(codes, sym) => var n := LengthExtraBits(sym);
      if |b| < n then Need else GoTo(st, Distance(codes, LengthBase(sym) + LeVal(b[..n])), n)
    case DistanceExtra(codes, len, sym) => var n := DistExtraBits(sym);
      if |b| < n then Need else GoTo(st, AfterDistance(cfg, codes, len, DistBase(sym) + LeVal(b[..n]), |st.out|), n)
    case Copy(codes, len, dist) => if len == 0 then GoTo(st, Symbols(codes), 0)
      else if 1 <= dist <= |st.out| then Write(st, Copy(codes, len - 1, dist), st.out[|st.out| - dist]) else Halt
    case _ => Halt
  }

  function LengthBase(sym: nat): (n: nat)
    requires 257 <= sym <= 285
    ensures n >= 3
  {
    LENGTH_BASE[sym - 257]
  }

  function LengthExtraBits(sym: nat): (n: nat)
    requires 257 <= sym <= 285
    ensures n <= 5
  {
    LENGTH_EXTRA[sym - 257]
  }

  function DistBase(sym: nat): (n: nat)
    requires sym < 30
    ensures n >= 1
  {
    DIST_BASE[sym]
  }

  function DistExtraBits(sym: nat): (n: nat)
    requires sym < 30
    ensures n <= 13
  {
    DIST_EXTRA[sym]
  }

  function AfterDistance(cfg: Config, codes: Codes, len: nat, dist: nat, produced: nat): Phase
  {
    if dist <= produced && (cfg.wrap ==> dist <= cfg.room) then Copy(codes, len, dist)
      else if cfg.wrap then Undefined else Failed
  }

  function LowThree(b: bits): (v: nat)
    requires |b| >= 3
    ensures v < 8
  {
    LeThree(b);
    LeVal(b[..3])
  }

  lemma LeThree(b: bits)
    requires |b| >= 3
    ensures LeVal(b[..3]) < 8
  {
    LeValBound(b[..3]);
  }

  /** The bits left of a byte that has been started. */
  function Partial(n: nat): (p: nat)
    ensures p <= n
  {
    n % 8
  }

  function Byte(b: bits): byte
    requires |b| >= 8
  {
    LeValBound(b[..8]);
    Pow2Facts();
    LeVal(b[..8])
  }

  function AfterTrailerByte(k: nat, adler: nat, c: byte): Phase
  {
    if k < 3 then Trailer(k + 1, adler * 256 + c) else Done(adler * 256 + c)
  }

  function Word(lo: byte, hi: byte): nat { lo as nat + hi as nat * 256 }

  function AfterHeaderByte(hdr: seq<byte>): Phase
  {
    if |hdr| < 4 then StoredHeader(hdr)
    else if Word(hdr[0], hdr[1]) + Word(hdr[2], hdr[3]) == 0xFFFF then StoredData(Word(hdr[0], hdr[1]))
    else Failed
  }

  function AfterSize(sizes: seq<nat>): Phase
  {
    if |sizes| < 3 then TableSizes(sizes) else ClSizes(sizes, Repeated(0, 19), 0)
  }

  function AfterClSize(sizes: seq<nat>, cls: Lengths, i: nat): Phase
    requires |sizes| == 3
  {
    if i < sizes[2] then ClSizes(sizes, cls, i) else if Accepted(cls) then MoreLens(sizes, cls, []) else Failed
  }

  function MoreLens(sizes: seq<nat>, cls: Lengths, lens: Lengths): Phase
    requires |sizes| == 3
  {
    if |lens| < sizes[0] + sizes[1] then CodeLens(sizes, cls, lens) else AfterLens(sizes, lens)
  }

  ghost function StepCodeLens(st: State, b: bits): (r: Outcome)
    requires st.phase.CodeLens? && WellFormed(st.phase)
    ensures r.Go? ==> r.used <= |b|
  {
    var CodeLens(sizes, cls, lens) := st.phase;
    match DecodeSym(cls, b)
    case Short => Need
    case Bad => GoTo(st, Undefined, 0)
    case Sym(s) => GoTo(st, AfterCl(sizes, cls, lens, s), cls[s])
  }

  function AfterCl(sizes: seq<nat>, cls: Lengths, lens: Lengths, s: nat): Phase
    requires |sizes| == 3
  {
    if s < 16 then MoreLens(sizes, cls, lens + [s])
    else if s == 16 && lens == [] then Failed
    else Repeat(sizes, cls, lens, s)
  }

  ghost function StepSymbols(cfg: Config, st: State, b: bits): (r: Outcome)
    requires st.phase.Symbols?
    ensures r.Go? ==> r.used <= |b|
  {
    var codes := st.phase.codes;
    match DecodeSym(codes.lit, b)
    case Short => Need
    case Bad => GoTo(st, Undefined, 0)
    case Sym(s) => GoTo(st, AfterSymbol(cfg, st.final, codes, s), codes.lit[s])
  }

  function AfterSymbol(cfg: Config, final: bool, codes: Codes, s: nat): Phase
  {
    if s < 256 then Literal(codes, s)
    else if s == 256 then EndBlock(cfg, final)
    else if s <= 285 then LengthExtra(codes, s)
    else Undefined
  }

  ghost function StepDistance(st: State, b: bits): (r: Outcome)
    requires st.phase.Distance?
    ensures r.Go? ==> r.used <= |b|
  {
    var Distance(codes, len) := st.phase;
    match DecodeSym(codes.dist, b)
    case Short => Need
    case Bad => GoTo(st, Undefined, 0)
    case Sym(s) => GoTo(st, AfterDistSym(codes, len, s), codes.dist[s])
  }

  function AfterDistSym(codes: Codes, len: nat, s: nat): Phase
  {
    if s < 30 then DistanceExtra(codes, len, s) else Undefined
  }

  // ----- runs

  /** `n` steps lead from `st` before `b` to `st'` before `b'`. */
  ghost predicate Reaches(cfg: Config, st: State, b: bits, st': State, b': bits, n: nat)
    decreases n
  {
    if n == 0 then st == st' && b == b'
    else
      var r := Step(cfg, st, b);
      r.Go? && Reaches(cfg, r.next, b[r.used..], st', b', n - 1)
  }

  // ----- steps and runs do not depend on bits they have not consumed, and bits arrive in whole bytes

  /** Two beginnings of the same bits: one is the beginning of the other. */
  lemma Comparable(c: bits, b: bits, x: bits)
    requires c <= b + x
    ensures c <= b || b <= c
  {
    if |c| <= |b| { assert c == (b + x)[..|c|] == b[..|c|]; } else { assert c[..|b|] == (b + x)[..|b|] == b; }
  }

  lemma DecodeMore(lens: Lengths, b: bits, x: bits)
    requires Fits(lens) && !DecodeSym(lens, b).Short?
    ensures DecodeSym(lens, b + x) == DecodeSym(lens, b)
  {
    hide Code, First;
    match DecodeSym(lens, b)
    case Sym(s) =>
      assert IsNext(lens, s, b + x);
      NextIsUnique(lens, s, DecodeSym(lens, b + x).s, b + x);
    case Bad =>
      forall s: nat | Uses(lens, s) ensures !IsNext(lens, s, b + x) && !(b + x <= Code(lens, s)) {
        assert !IsNext(lens, s, b);
        if Code(lens, s) <= b + x {
          Comparable(Code(lens, s), b, x);
        }
      }
  }

  lemma StepMore(cfg: Config, st: State, b: bits, x: bits)
    requires Step(cfg, st, b).Go? && |x| % 8 == 0
    ensures Step(cfg, st, b + x) == Step(cfg, st, b)
  {
    hide StepBytes, StepTables, StepMatch, DecodeSym, Accepted, AfterCl, AfterSymbol;
    match st.phase
    case CodeLens(sizes, cls, lens) => AcceptedFits(cls); DecodeMore(cls, b, x);
    case Symbols(codes) => AcceptedFits(codes.lit); DecodeMore(codes.lit, b, x);
    case Distance(codes, len) => AcceptedFits(codes.dist); DecodeMore(codes.dist, b, x);
    case TableSizes(_) => StepTablesMore(st, b, x);
    case ClSizes(_, _, _) => StepTablesMore(st, b, x);
    case Repeat(_, _, _, _) => StepTablesMore(st, b, x);
    case Literal(_, _) => StepMatchMore(cfg, st, b, x);
    case LengthExtra(_, _) => StepMatchMore(cfg, st, b, x);
    case DistanceExtra(_, _, _) => StepMatchMore(cfg, st, b, x);
    case Copy(_, _, _) => StepMatchMore(cfg, st, b, x);
    case _ => StepBytesMore(cfg, st, b, x);
  }

  lemma StepBytesMore(cfg: Config, st: State, b: bits, x: bits)
    requires WellFormed(st.phase) && StepBytes(cfg, st, b).Go? && |x| % 8 == 0
    ensures StepBytes(cfg, st, b + x) == StepBytes(cfg, st, b)
  {
    hide LeVal, BlockStart, EndBlock, HeaderOk, AfterHeaderByte;
    if |b| >= 8 { assert (b + x)[..8] == b[..8]; }
    if |b| >= 3 { assert (b + x)[1..3] == b[1..3]; }
  }

  lemma StepTablesMore(st: State, b: bits, x: bits)
    requires WellFormed(st.phase) && StepTables(st, b).Go?
    ensures StepTables(st, b + x) == StepTables(st, b)
  {
    hide LeVal, AfterSize, AfterClSize, MoreLens, Repeated, SetLength, AddRun;
    assert forall n: nat | n <= |b| :: (b + x)[..n] == b[..n];
  }

  lemma StepMatchMore(cfg: Config, st: State, b: bits, x: bits)
    requires WellFormed(st.phase) && StepMatch(cfg, st, b).Go?
    ensures StepMatch(cfg, st, b + x) == StepMatch(cfg, st, b)
  {
    hide LeVal, AfterDistance, LengthExtraBits, LengthBase, DistExtraBits, DistBase;
    assert forall n: nat | n <= |b| :: (b + x)[..n] == b[..n];
  }

  lemma {:induction false} ReachesMore(cfg: Config, st: State, b: bits, st': State, b': bits, n: nat, x: bits)
    requires Reaches(cfg, st, b, st', b', n) && |x| % 8 == 0
    ensures Reaches(cfg, st, b + x, st', b' + x, n)
    decreases n
  {
    hide Step;
    if n > 0 {
      var r := Step(cfg, st, b);
      StepMore(cfg, st, b, x);
      assert (b + x)[r.used..] == b[r.used..] + x;
      ReachesMore(cfg, r.next, b[r.used..], st', b', n - 1, x);
    }
  }

  lemma {:induction false} ReachesTrans(cfg: Config, s0: State, b0: bits, s1: State, b1: bits, m: nat, s2: State,
                                        b2: bits, n: nat)
    requires Reaches(cfg, s0, b0, s1, b1, m) && Reaches(cfg, s1, b1, s2, b2, n)
    ensures Reaches(cfg, s0, b0, s2, b2, m + n)
    decreases m
  {
    hide Step;
    if m > 0 {
      var r := Step(cfg, s0, b0);
      ReachesTrans(cfg, r.next, b0[r.used..], s1, b1, m - 1, s2, b2, n);
    }
  }

  /** Runs are deterministic: the shorter of two runs is the beginning of the longer one. */
  lemma {:induction false} ReachesSplit(cfg: Config, s0: State, b0: bits, s1: State, b1: bits, m: nat, s2: State,
                                        b2: bits, n: nat)
    requires Reaches(cfg, s0, b0, s1, b1, m) && Reaches(cfg, s0, b0, s2, b2, n) && m <= n
    ensures Reaches(cfg, s1, b1, s2, b2, n - m)
    decreases m
  {
    hide Step;
    if m > 0 {
      var r := Step(cfg, s0, b0);
      ReachesSplit(cfg, r.next, b0[r.used..], s1, b1, m - 1, s2, b2, n - 1);
    }
  }

  lemma StepGrows(cfg: Config, st: State, b: bits)
    ensures var r := Step(cfg, st, b); r.Go? ==> st.out <= r.next.out
  {
    hide Accepted, WellFormed, LeVal, DecodeSym, BlockStart, AfterHeaderByte, HeaderOk, EndBlock, AfterSize,
         AfterClSize, MoreLens;
    hide AddRun, RunValue, LengthExtraBits, LengthBase, DistExtraBits, DistBase, AfterDistance, AfterCl, AfterSymbol,
         AfterDistSym;
  }

  /** Output is never taken back. */
  lemma {:induction false} OutGrows(cfg: Config, st: State, b: bits, st': State, b': bits, n: nat)
    requires Reaches(cfg, st, b, st', b', n)
    ensures st.out <= st'.out
    decreases n
  {
    hide Step;
    if n > 0 {
      StepGrows(cfg, st, b);
      var r := Step(cfg, st, b);
      OutGrows(cfg, r.next, b[r.used..], st', b', n - 1);
    }
  }

  predicate Final(p: Phase) { p.Done? || p.Failed? || p.Undefined? }

  // ----- flat output and a window of at least 32 KB accept the same streams, but for one header check

  lemma SameStep(cfg: Config, room: nat, st: State, b: bits)
    requires !cfg.wrap && !st.phase.ZHeader1? && room >= LZ_DICT_SIZE
    ensures var r := Step(cfg, st, b);
      r.Go? && (!Final(r.next.phase) || r.next.phase.Done?) ==> Step(Wrapping(cfg.zlib, room), st, b) == r
  {
    hide Accepted, LeVal, AfterCl, StepTables, BlockStart, DecodeSym, AfterHeaderByte, DistBase, DistExtraBits;
    if st.phase.DistanceExtra? && WellFormed(st.phase) && |b| >= DistExtraBits(st.phase.sym) {
      ReachBack(st.phase.sym, b);
    }
  }

  lemma ReachBack(s: nat, b: bits)
    requires s < 30 && |b| >= DistExtraBits(s)
    ensures DistBase(s) + LeVal(b[..DistExtraBits(s)]) <= LZ_DICT_SIZE
  {
    var n := DistExtraBits(s);
    LeValBound(b[..n]);
    DistWithinWindow(s);
  }

  lemma DistWithinWindow(s: nat)
    requires s < 30
    ensures DIST_BASE[s] + Pow2(DIST_EXTRA[s]) - 1 <= LZ_DICT_SIZE
  {
    Pow2Facts();
    assert Pow2(13) == 8192 by { assert Pow2(15) == 2 * Pow2(14) && Pow2(14) == 2 * Pow2(13); }
    assert Pow2(12) == 4096 && Pow2(11) == 2048 && Pow2(10) == 1024 && Pow2(9) == 512 && Pow2(8) == 256;
    assert Pow2(7) == 128 && Pow2(6) == 64 && Pow2(5) == 32 && Pow2(4) == 16;
  }

  lemma FinalHalts(cfg: Config, st: State, b: bits)
    requires Final(st.phase)
    ensures Step(cfg, st, b).Halt?
  {
  }

  predicate PastHeader(p: Phase) { !p.ZHeader0? && !p.ZHeader1? }

  lemma NoHeaderBytes(cfg: Config, st: State, b: bits)
    requires WellFormed(st.phase) && PastHeader(st.phase)
    ensures var r := StepBytes(cfg, st, b); r.Go? ==> PastHeader(r.next.phase)
  {
    hide Accepted, LeVal, Byte, FixedLit, FixedDist;
  }

  lemma NoHeaderTables(st: State, b: bits)
    requires WellFormed(st.phase)
    ensures var r := StepTables(st, b); r.Go? ==> PastHeader(r.next.phase)
  {
    hide Accepted, LeVal, LowThree, SetLength, AddRun, SIZE_BITS;
  }

  lemma NoHeaderMatch(cfg: Config, st: State, b: bits)
    requires WellFormed(st.phase)
    ensures var r := StepMatch(cfg, st, b); r.Go? ==> PastHeader(r.next.phase)
  {
    hide Accepted, LeVal, LengthExtraBits, LengthBase, DistExtraBits, DistBase;
  }

  lemma NoHeaderAgain(cfg: Config, st: State, b: bits)
    requires PastHeader(st.phase)
    ensures var r := Step(cfg, st, b); r.Go? ==> PastHeader(r.next.phase)
  {
    hide Accepted, StepBytes, StepTables, StepMatch, DecodeSym;
    if WellFormed(st.phase) {
      NoHeaderBytes(cfg, st, b);
      NoHeaderTables(st, b);
      NoHeaderMatch(cfg, st, b);
    }
  }

  lemma WindowFits(e: nat, room: nat)
    requires e <= 7 && room >= LZ_DICT_SIZE
    ensures Pow2(8 + e) <= room
  {
    Pow2Facts();
    Pow2Mono(8 + e, 15);
  }

  // ----- the fixed codes are complete

  lemma {:induction false} CountConcat(a: Lengths, b: Lengths, n: nat, l: nat)
    requires n <= |b|
    ensures Count(a + b, |a| + n, l) == Count(a, |a|, l) + Count(b, n, l)
  {
    if n == 0 { CountPrefix(a, b, |a|, l); } else { CountConcat(a, b, n - 1, l); }
  }

  lemma {:induction false} CountPrefix(a: Lengths, b: Lengths, n: nat, l: nat)
    requires n <= |a|
    ensures Count(a + b, n, l) == Count(a, n, l)
  {
    if n > 0 { CountPrefix(a, b, n - 1, l); }
  }

  lemma {:induction false} CountRepeated(v: nat, n: nat, k: nat, l: nat)
    requires k <= n && v <= 15
    ensures Count(Repeated(v, n), k, l) == if v == l then k else 0
  {
    if k > 0 { CountRepeated(v, n, k - 1, l); }
  }

  lemma FixedCounts(l: nat)
    ensures Count(FixedLit(), 288, l) == if l == 7 then 24 else if l == 8 then 152 else if l == 9 then 112 else 0
    ensures Count(FixedDist(), 32, l) == if l == 5 then 32 else 0
  {
    hide Count, Repeated;
    var a, b, c, d := Repeated(8, 144), Repeated(9, 112), Repeated(7, 24), Repeated(8, 8);
    CountRepeated(8, 144, 144, l); CountRepeated(9, 112, 112, l); CountRepeated(7, 24, 24, l);
      CountRepeated(8, 8, 8, l);
    CountRepeated(5, 32, 32, l);
    CountConcat(a, b, 112, l); CountConcat(a + b, c, 24, l); CountConcat(a + b + c, d, 8, l);
  }

  lemma FixedCodesComplete()
    ensures Complete(FixedLit()) && Complete(FixedDist())
  {
    hide Count, FixedLit, FixedDist;
    var f, d := FixedLit(), FixedDist();
    forall l: nat ensures Count(f, 288, l) == if l == 7 then 24 else if l == 8 then 152 else if l == 9 then 112 else 0
                  ensures Count(d, 32, l) == if l == 5 then 32 else 0 { FixedCounts(l); }
    assert First(f, 7) == 0 && First(f, 8) == 48 && First(f, 9) == 400 && First(f, 10) == 1024;
    assert First(d, 5) == 0 && First(d, 6) == 64;
    assert First(f, 13) == 8192 && First(d, 9) == 512 && First(d, 12) == 4096 && First(d, 14) == 16384;
  }
}
