/** `tinfl_decompress`: the resumable, table-driven decoder, and what it has to do with the
    machine of TinflSpec.

    A call works on `inBuf[inCur..]` and writes `outBuf[outCur..outEnd]`; between calls the
    position in the program is kept in `pc`, where the source keeps a case number in `m_state`.
    The ghost field `abs` is the state of the specification machine. What the machine still has
    to read is `Stream()`: the bits in the bit buffer followed by the unread input. */
module TinflInflate {
  import opened Numbers
  import opened TinflBits
  import opened TinflCanonical
  import opened TinflTables
  import opened TinflBuild
  import opened TinflSpec
  import opened TinflBitReader

  datatype Status =
    | BadParam | AdlerMismatch | StatusFailed | StatusDone | NeedsMoreInput | HasMoreOutput
    | Starved      // not a status of the source: it pads with zero bytes from here on
    | Unspecified  // not a status of the source: a symbol RFC 1951 reserves was decoded

  datatype Pc =
    | Start
    | ZHdr0 | ZHdr1                              // cases 1 and 2
    | BlockHead                                  // case 3
    | SkipBits | RawHeader                       // cases 5, 6 and 7
    | StoredBits | StoredPut | StoredCopy        // cases 51, 52, 9 and 38
    | TableSize | ClSize                         // cases 11 and 14
    | CodeLen | RepeatRun                        // cases 16 and 18
    | DecodeLit | PutLiteral                     // cases 23 and 24
    | LenBits | DecodeDist | DistBits            // cases 25, 26 and 27
    | CopyMatch | CopyBytes                      // case 53
    | TrailerSkip | TrailerByte                  // cases 32, 41 and 42
    | AllDone | HasFailed                        // case 34; cases 10, 17, 21, 35, 36, 37, 39 and 40
    | Gone

  // ----- following the specification

  /** The machine leads from the first pair to the second; once it is undefined, anything goes. */
  ghost predicate Follows(cfg: Config, a: State, b: bits, a': State, b': bits)
  {
    exists r, n :: Reaches(cfg, a, b, a', r, n) && (a'.phase.Undefined? || r == b')
  }

  lemma FollowsRefl(cfg: Config, a: State, b: bits)
    ensures Follows(cfg, a, b, a, b)
  {
    assert Reaches(cfg, a, b, a, b, 0);
  }

  lemma FollowsLost(cfg: Config, a: State, b: bits, b': bits)
    requires a.phase.Undefined?
    ensures Follows(cfg, a, b, a, b')
  {
    assert Reaches(cfg, a, b, a, b, 0);
  }

  lemma FollowsStep(cfg: Config, a: State, b: bits, a': State, b': bits)
    requires var r := Step(cfg, a, b); r.Go? && r.next == a' && (a'.phase.Undefined? || b' == b[r.used..])
    ensures Follows(cfg, a, b, a', b')
  {
    hide Step;
    var r := Step(cfg, a, b);
    assert Reaches(cfg, r.next, b[r.used..], a', b[r.used..], 0);
    assert Reaches(cfg, a, b, a', b[r.used..], 1);
  }

  lemma FollowsTrans(cfg: Config, a: State, b: bits, a1: State, b1: bits, a2: State, b2: bits)
    requires Follows(cfg, a, b, a1, b1) && Follows(cfg, a1, b1, a2, b2)
    ensures Follows(cfg, a, b, a2, b2)
  {
    hide Reaches;
    var r, m :| Reaches(cfg, a, b, a1, r, m) && (a1.phase.Undefined? || r == b1);
    var q, n :| Reaches(cfg, a1, b1, a2, q, n) && (a2.phase.Undefined? || q == b2);
    if a1.phase.Undefined? {
      StaysUndefined(cfg, a1, b1, a2, q, n);
    } else {
      ReachesTrans(cfg, a, b, a1, b1, m, a2, q, n);
    }
  }

  lemma StaysUndefined(cfg: Config, a: State, b: bits, a': State, b': bits, n: nat)
    requires a.phase.Undefined? && Reaches(cfg, a, b, a', b', n)
    ensures a == a'
  {
    FinalHalts(cfg, a, b);
  }

  // ----- the output window

  function Index(j: nat, base: nat, size: nat): int
  {
    if j >= base then j - base else j - base + size
  }

  /** The buffer holds what has been written; of it, the wrapping mode still has the last lap. */
  ghost predicate WindowOk(buf: seq<byte>, cur: nat, base: nat, wrap: bool, out: seq<byte>)
  {
    && cur <= |buf| && |out| == base + cur && (!wrap ==> base == 0)
    && forall j | 0 <= j < |out| && (wrap ==> |out| - |buf| <= j) :: buf[Index(j, base, |buf|)] == out[j]
  }

  lemma WindowPut(buf: seq<byte>, cur: nat, base: nat, wrap: bool, out: seq<byte>, c: byte)
    requires WindowOk(buf, cur, base, wrap, out) && cur < |buf|
    ensures WindowOk(buf[cur := c], cur + 1, base, wrap, out + [c])
  {
  }

  /** Where the source of a match lies in the buffer. */
  function SourceIndex(cur: int, dist: nat, wrap: bool, size: nat): int
    requires size > 0
  {
    if wrap then (cur - dist) % size else cur - dist
  }

  /** `from`, which keeps counting up, and the position in the buffer denote the same place. */
  predicate SameSlot(from: nat, cur: nat, wrap: bool, size: nat)
    requires size > 0
  {
    if wrap then from % size == cur % size else from == cur
  }

  lemma WindowSource(buf: seq<byte>, cur: nat, base: nat, wrap: bool, out: seq<byte>, dist: nat, from: nat)
    requires WindowOk(buf, cur, base, wrap, out) && 1 <= dist <= |out| && (wrap ==> dist <= |buf|) && |buf| > 0
    requires SameSlot(from, cur, wrap, |buf|)
    ensures var i := SourceIndex(from, dist, wrap, |buf|); 0 <= i < |buf| && buf[i] == out[|out| - dist]
  {
    var n := |buf|;
    if wrap {
      ModShift(from, cur, dist, n);
      if cur >= dist {
        if cur - dist < n { SmallMod(cur - dist, n); }
      } else {
        WrapMod(cur - dist, n);
      }
    }
    assert buf[Index(|out| - dist, base, n)] == out[|out| - dist];
  }

  lemma SmallMod(a: nat, n: nat)
    requires a < n
    ensures a % n == a
  {
  }

  lemma WrapMod(a: int, n: nat)
    requires 0 - n <= a < 0
    ensures a % n == a + n
  {
    assert a == -1 * n + (a + n);
    DivUnique(a, n, -1, a + n);
  }

  lemma ModShift(a: nat, b: nat, d: nat, n: nat)
    requires n > 0 && a % n == b % n
    ensures (a - d) % n == (b - d) % n
  {
    var r := (b - d) % n;
    assert b - d == n * ((b - d) / n) + r;
    assert a - b == n * (a / n - b / n);
    var q := (b - d) / n + a / n - b / n;
    assert a - d == q * n + r;
    DivUnique(a - d, n, q, r);
  }

  // ----- the machine's steps, one lemma a phase

  lemma StepBlockHeader(cfg: Config, st: State, b: bits)
    requires st.phase.BlockHeader? && |b| >= 3
    ensures Step(cfg, st, b) == Go(State(LeVal(b[..3]) % 2 == 1, BlockStart(LeVal(b[..3]) / 2), st.out), 3)
    ensures LeVal(b[..3]) < 8
  {
    LeThree(b);
    assert b[..3][1..] == b[1..3] && b[..3][0] == b[0];
    assert LeVal(b[..3]) == Bit(b[0]) + 2 * LeVal(b[1..3]);
  }

  lemma LeByte(b: bits)
    requires |b| >= 8
    ensures LeVal(b[..8]) == Byte(b) < 256
  {
    LeValBound(b[..8]);
    Pow2Facts();
  }

  lemma StepZHeader0(cfg: Config, st: State, b: bits)
    requires |b| >= 8 && st.phase.ZHeader0?
    ensures Step(cfg, st, b) == GoTo(st, ZHeader1(Byte(b)), 8)
  {
    hide Byte;
  }

  lemma StepZHeader1(cfg: Config, st: State, b: bits)
    requires |b| >= 8 && st.phase.ZHeader1?
    ensures Step(cfg, st, b) == GoTo(st, if HeaderOk(cfg, st.phase.cmf, Byte(b)) then BlockHeader else Failed, 8)
  {
    hide Byte, HeaderOk;
  }

  lemma StepStoredHeader(cfg: Config, st: State, b: bits)
    requires |b| >= 8 && st.phase.StoredHeader? && |st.phase.hdr| < 4
    ensures Step(cfg, st, b) == GoTo(st, AfterHeaderByte(st.phase.hdr + [Byte(b)]), 8)
  {
    hide Byte, AfterHeaderByte;
  }

  lemma StepStoredData(cfg: Config, st: State, b: bits)
    requires |b| >= 8 && st.phase.StoredData? && st.phase.left > 0
    ensures Step(cfg, st, b) == GoTo(st, StoredByte(Byte(b), st.phase.left), 8)
  {
    hide Byte;
  }

  lemma StepTrailer(cfg: Config, st: State, b: bits)
    requires |b| >= 8 && st.phase.Trailer?
    ensures Step(cfg, st, b) == GoTo(st, AfterTrailerByte(st.phase.k, st.phase.adler, Byte(b)), 8)
  {
    hide Byte;
  }

  lemma StepPutStored(cfg: Config, st: State, b: bits)
    requires st.phase.StoredByte? && st.phase.left > 0
    ensures Step(cfg, st, b) == Write(st, StoredData(st.phase.left - 1), st.phase.c)
  {
  }

  lemma StepAlign(cfg: Config, st: State, b: bits)
    requires st.phase.StoredAlign? || st.phase.TrailerAlign?
    ensures Step(cfg, st, b)
      == GoTo(st, if st.phase.StoredAlign? then StoredHeader([]) else Trailer(0, 0), Partial(|b|))
  {
  }

  lemma StepStoredEnd(cfg: Config, st: State, b: bits)
    requires st.phase == StoredData(0)
    ensures Step(cfg, st, b) == GoTo(st, EndBlock(cfg, st.final), 0)
  {
  }

  lemma StepWrite(cfg: Config, st: State, b: bits)
    requires WellFormed(st.phase)
    ensures st.phase.Literal? ==> Step(cfg, st, b) == Write(st, Symbols(st.phase.codes), st.phase.c)
    ensures st.phase.Copy? && st.phase.len == 0 ==> Step(cfg, st, b) == GoTo(st, Symbols(st.phase.codes), 0)
    ensures st.phase.Copy? && st.phase.len > 0 && 1 <= st.phase.dist <= |st.out| ==>
      Step(cfg, st, b) == Write(st, Copy(st.phase.codes, st.phase.len - 1, st.phase.dist),
        st.out[|st.out| - st.phase.dist])
  {
    hide Accepted;
  }

  lemma StepTableSizes(cfg: Config, st: State, b: bits)
    requires st.phase.TableSizes? && WellFormed(st.phase) && |b| >= SIZE_BITS[|st.phase.sizes|]
    ensures var sizes := st.phase.sizes; var n := SIZE_BITS[|sizes|];
      Step(cfg, st, b) == GoTo(st, AfterSize(sizes + [LeVal(b[..n]) + MIN_TABLE_SIZES[|sizes|]]), n)
    ensures LeVal(b[..SIZE_BITS[|st.phase.sizes|]]) < 32
    ensures |st.phase.sizes| == 2 ==> LeVal(b[..4]) < 16
  {
    hide AfterSize;
    var n := SIZE_BITS[|st.phase.sizes|];
    LeValBound(b[..n]);
    assert Pow2(4) == 16 && Pow2(5) == 32;
  }

  lemma StepClSizes(cfg: Config, st: State, b: bits)
    requires st.phase.ClSizes? && WellFormed(st.phase) && |b| >= 3
    ensures LeVal(b[..3]) < 8
    ensures var ClSizes(sizes, cls, i) := st.phase;
      Step(cfg, st, b) == GoTo(st, AfterClSize(sizes, cls[DEZIGZAG[i] := LeVal(b[..3])], i + 1), 3)
  {
    hide AfterClSize, LeVal;
    LeThree(b);
  }

  lemma StepCodeLen(cfg: Config, st: State, b: bits)
    requires st.phase.CodeLens? && WellFormed(st.phase) && !DecodeSym(st.phase.cls, b).Short?
    ensures var CodeLens(sizes, cls, lens) := st.phase;
      match DecodeSym(cls, b)
      case Bad => Step(cfg, st, b) == GoTo(st, Undefined, 0)
      case Sym(s) => Step(cfg, st, b) == GoTo(st, AfterCl(sizes, cls, lens, s), cls[s])
  {
    hide Accepted, DecodeSym, AfterCl;
  }

  lemma StepRepeat(cfg: Config, st: State, b: bits)
    requires st.phase.Repeat? && WellFormed(st.phase) && |b| >= RepeatBits(st.phase.sym)
    ensures var Repeat(sizes, cls, lens, sym) := st.phase; var n := RepeatBits(sym);
      Step(cfg, st, b) == GoTo(st, MoreLens(sizes, cls,
        AddRun(lens, RunValue(lens, sym), LeVal(b[..n]) + RepeatBase(sym))), n)
    ensures LeVal(b[..RepeatBits(st.phase.sym)]) < 128
  {
    hide Accepted, MoreLens, AddRun;
    var n := RepeatBits(st.phase.sym);
    LeValBound(b[..n]);
    assert Pow2(7) == 128;
    Pow2Mono(n, 7);
  }

  lemma StepLiteral(cfg: Config, st: State, b: bits)
    requires st.phase.Symbols? && WellFormed(st.phase) && !DecodeSym(st.phase.codes.lit, b).Short?
    ensures match DecodeSym(st.phase.codes.lit, b)
      case Bad => Step(cfg, st, b) == GoTo(st, Undefined, 0)
      case Sym(s) => Step(cfg, st, b) == GoTo(st, AfterSymbol(cfg, st.final, st.phase.codes, s), st.phase.codes.lit[s])
  {
    hide Accepted, DecodeSym, AfterSymbol;
  }

  lemma StepLength(cfg: Config, st: State, b: bits)
    requires st.phase.LengthExtra? && WellFormed(st.phase) && |b| >= LengthExtraBits(st.phase.sym)
    ensures var n := LengthExtraBits(st.phase.sym);
      Step(cfg, st, b) == GoTo(st, Distance(st.phase.codes, LengthBase(st.phase.sym) + LeVal(b[..n])), n)
  {
    hide Accepted, LengthExtraBits, LengthBase, LeVal;
  }

  lemma StepDist(cfg: Config, st: State, b: bits)
    requires st.phase.Distance? && WellFormed(st.phase) && !DecodeSym(st.phase.codes.dist, b).Short?
    ensures match DecodeSym(st.phase.codes.dist, b)
      case Bad => Step(cfg, st, b) == GoTo(st, Undefined, 0)
      case Sym(s) => Step(cfg, st, b) == GoTo(st, AfterDistSym(st.phase.codes, st.phase.len, s), st.phase.codes.dist[s])
  {
    hide Accepted, DecodeSym;
  }

  lemma StepDistExtra(cfg: Config, st: State, b: bits)
    requires st.phase.DistanceExtra? && WellFormed(st.phase) && |b| >= DistExtraBits(st.phase.sym)
    ensures var n := DistExtraBits(st.phase.sym);
      Step(cfg, st, b) == GoTo(st,
        AfterDistance(cfg, st.phase.codes, st.phase.len, DistBase(st.phase.sym) + LeVal(b[..n]), |st.out|), n)
    ensures DistBase(st.phase.sym) + LeVal(b[..DistExtraBits(st.phase.sym)]) <= LZ_DICT_SIZE
  {
    hide Accepted, AfterDistance;
    ReachBack(st.phase.sym, b);
  }

  /** No step can be taken, or only one into the undefined. */
  ghost predicate Stuck(cfg: Config, st: State, b: bits)
  {
    var r := Step(cfg, st, b);
    r.Go? ==> r.next.phase.Undefined?
  }

  lemma Stuck8(cfg: Config, st: State, b: bits)
    requires |b| < 8
    requires st.phase.ZHeader0? || st.phase.ZHeader1? || st.phase.StoredHeader? || st.phase.Trailer?
             || (st.phase.StoredData? && st.phase.left > 0)
    ensures Stuck(cfg, st, b)
  {
  }

  lemma Stuck3(cfg: Config, st: State, b: bits)
    requires |b| < 3 && (st.phase.BlockHeader? || st.phase.ClSizes?)
    ensures Stuck(cfg, st, b)
  {
  }

  lemma StuckSize(cfg: Config, st: State, b: bits)
    requires WellFormed(st.phase) && st.phase.TableSizes? && |b| < SIZE_BITS[|st.phase.sizes|]
    ensures Stuck(cfg, st, b)
  {
    hide SIZE_BITS, LeVal;
  }

  lemma StuckRepeat(cfg: Config, st: State, b: bits)
    requires WellFormed(st.phase) && st.phase.Repeat? && |b| < RepeatBits(st.phase.sym)
    ensures Stuck(cfg, st, b)
  {
    hide Accepted;
  }

  lemma StuckExtra(cfg: Config, st: State, b: bits)
    requires WellFormed(st.phase)
    requires (st.phase.LengthExtra? && |b| < LengthExtraBits(st.phase.sym))
             || (st.phase.DistanceExtra? && |b| < DistExtraBits(st.phase.sym))
    ensures Stuck(cfg, st, b)
  {
    hide Accepted, LengthExtraBits, LengthBase, DistExtraBits, DistBase, LeVal;
  }

  lemma StuckSym(cfg: Config, st: State, b: bits)
    requires WellFormed(st.phase)
    ensures match st.phase
      case CodeLens(_, cls, _) => !DecodeSym(cls, b).Sym? ==> Stuck(cfg, st, b)
      case Symbols(codes) => !DecodeSym(codes.lit, b).Sym? ==> Stuck(cfg, st, b)
      case Distance(codes, _) => !DecodeSym(codes.dist, b).Sym? ==> Stuck(cfg, st, b)
      case _ => true
  {
    hide Accepted, DecodeSym;
  }

  lemma FollowsGrows(cfg: Config, a: State, b: bits, a': State, b': bits)
    requires Follows(cfg, a, b, a', b')
    ensures a.out <= a'.out
  {
    hide Reaches;
    var r, n :| Reaches(cfg, a, b, a', r, n) && (a'.phase.Undefined? || r == b');
    OutGrows(cfg, a, b, a', r, n);
  }

  /** The bytes written by a call are the new output of the specification machine. */
  lemma WindowNew(buf: seq<byte>, was: nat, cur: nat, base: nat, wrap: bool, before: seq<byte>, out: seq<byte>)
    requires WindowOk(buf, cur, base, wrap, out) && was <= cur && |before| == base + was && before <= out
    ensures out == before + buf[was..cur]
  {
    forall j | |before| <= j < |out| ensures out[j] == (before + buf[was..cur])[j] {
      assert buf[Index(j, base, |buf|)] == out[j];
    }
  }

  lemma FollowsMore(cfg: Config, a: State, b: bits, a': State, b': bits, x: bits)
    requires Follows(cfg, a, b, a', b') && |x| % 8 == 0
    ensures Follows(cfg, a, b + x, a', b' + x)
  {
    hide Reaches;
    var r, n :| Reaches(cfg, a, b, a', r, n) && (a'.phase.Undefined? || r == b');
    ReachesMore(cfg, a, b, a', r, n, x);
  }

  lemma FollowsUndefined(cfg: Config, a: State, b: bits, a': State, b': bits)
    requires a.phase.Undefined? && Follows(cfg, a, b, a', b')
    ensures a' == a
  {
    hide Reaches;
    var r, n :| Reaches(cfg, a, b, a', r, n) && (a'.phase.Undefined? || r == b');
    StaysUndefined(cfg, a, b, a', r, n);
  }
}
