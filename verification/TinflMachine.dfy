/** `tinfl_decompress`: the resumable program, one method for each point it can stop at, and its refinement of the
    specification machine. */
module TinflMachine {
  import opened Numbers
  import opened TinflBits
  import opened TinflCanonical
  import opened TinflTables
  import opened TinflBuild
  import opened TinflSpec
  import opened TinflBitReader
  import opened TinflInflate
  import opened TinflAdler

  /** The two output modes; only in the wrapping one the size of the buffer matters. */
  function Mode(zlib: bool, wrap: bool, size: nat): Config { if wrap then Wrapping(zlib, size) else Flat(zlib) }

  /** `struct tinfl_decompressor_tag` together with the locals of a call. */
  class Inflator {
    const br: BitReader
    const table0: HuffTable
    const table1: HuffTable
    const table2: HuffTable
    var pc: Pc
    var final: bool
    var blockType: nat
    var counter: nat
    var dist: nat
    var numExtra: nat
    var distFrom: nat
    var zhdr0: byte
    var zAdler32: nat
    var checkAdler32: nat
    var rawHeader: seq<byte>
    var tableSizes: seq<nat>
    var codeSize0: Lengths
    var codeSize1: Lengths
    var codeSize2: Lengths
    var lenCodes: Lengths
    var zlib: bool
    var wrap: bool
    var hasMore: bool
    var outBuf: array<byte>
    var outCur: nat
    var outEnd: nat
    var status: Status
    var cutOff: bool  // a stored block ended the input for good: case 40 instead of 39
    ghost var base: nat
    ghost var abs: State

    ghost function Cfg(): Config
      reads this`zlib, this`wrap, this`outBuf
    {
      Mode(zlib, wrap, outBuf.Length)
    }

    ghost predicate Separate()
    {
      && table0.Allocated() && table1.Allocated() && table2.Allocated()
      && table0 != table1 && table0 != table2 && table1 != table2
      && table0.lookUp != table1.lookUp && table0.lookUp != table2.lookUp && table1.lookUp != table2.lookUp
      && table0.tree != table1.tree && table0.tree != table2.tree && table1.tree != table2.tree
    }

    ghost function Codes(): Codes
      reads this`codeSize0, this`codeSize1
    {
      TinflSpec.Codes(codeSize0, codeSize1)
    }

    ghost predicate BlockTables()
      reads this`codeSize0, this`codeSize1, table0, table0.lookUp, table0.tree, table1, table1.lookUp, table1.tree
    {
      && |codeSize0| <= 288 && table0.Built(codeSize0)
      && |codeSize1| <= 32 && table1.Built(codeSize1)
    }

    ghost predicate Common()
      reads this`outCur, this`outEnd, this`outBuf, this`wrap, this`base, this`abs, br
    {
      && br.Valid() && Separate() && outCur <= outEnd <= outBuf.Length && |abs.out| <= base + outCur
      && (wrap ==> outEnd == outBuf.Length > 0)
    }

    ghost predicate Win()
      reads this`outBuf, this`outCur, this`base, this`wrap, this`abs, outBuf
    {
      WindowOk(outBuf[..], outCur, base, wrap, abs.out)
    }

    /** What the program relies on at each point, also after leaving the format. */
    ghost predicate Safe()
      reads this`pc, this`rawHeader, this`dist, this`counter, this`numExtra, this`tableSizes, this`codeSize0,
        this`codeSize1,
            this`codeSize2, this`lenCodes, this`zlib, br`numBits, table0, table0.lookUp, table0.tree,
            table1, table1.lookUp, table1.tree, table2, table2.lookUp, table2.tree
    {
      Separate() && match pc
         case Start => br.numBits == 0
         case ZHdr0 => br.numBits == 0 && zlib
         case ZHdr1 => br.numBits == 0 && zlib
         case RawHeader => |rawHeader| < 4 && Whole(br.numBits)
         case StoredBits => Whole(br.numBits)
         case StoredCopy => counter > 0 ==> br.numBits == 0
         case StoredPut => dist < 256 && counter > 0 && Whole(br.numBits)
         case TableSize => |tableSizes| < 3 && SizesOk(tableSizes)
         case ClSize => |tableSizes| == 3 && SizesOk(tableSizes) && |codeSize2| == 19 && counter < tableSizes[2]
         case CodeLen => |tableSizes| == 3 && SizesOk(tableSizes) && |codeSize2| == 19 && table2.Built(codeSize2)
                         && |lenCodes| < tableSizes[0] + tableSizes[1]
         case RepeatRun => |tableSizes| == 3 && SizesOk(tableSizes) && |codeSize2| == 19 && table2.Built(codeSize2)
                         && |lenCodes| < tableSizes[0] + tableSizes[1]
                         && 16 <= dist <= 18 && (dist == 16 ==> lenCodes != []) && numExtra == RepeatBits(dist)
         case DecodeLit => BlockTables()
         case PutLiteral => BlockTables() && counter < 256
         case LenBits => BlockTables() && numExtra <= 5 && counter >= 3
         case DecodeDist => BlockTables() && counter >= 3
         case DistBits => BlockTables() && counter >= 3 && numExtra <= 13 && dist >= 1
         case CopyMatch => BlockTables() && counter >= 3 && dist >= 1
         case CopyBytes => BlockTables() && counter >= 1 && dist >= 1
         case TrailerByte => counter < 4 && Whole(br.numBits)
         case _ => true
    }

    /** Where the program depends on its position in the output buffer. */
    ghost predicate Placed()
      reads this`pc, this`outCur, this`base, this`wrap, this`dist, this`distFrom, this`outBuf, this`abs
    {
      match pc
      case Start => outCur == 0 && base == 0
      case CopyMatch => (wrap || dist <= outCur) && InWindow()
      case CopyBytes => outBuf.Length > 0 && SameSlot(distFrom, outCur, wrap, outBuf.Length)
        && (wrap || dist <= distFrom) && InWindow()
      case _ => true
    }

    /** As far as the format goes, a match does not reach back beyond the wrapping buffer. */
    ghost predicate InWindow()
      reads this`wrap, this`dist, this`outBuf, this`abs
    {
      wrap ==> abs.phase.Undefined? || dist <= outBuf.Length
    }

    /** How the fields stand for the state of the specification machine. */
    ghost predicate Tied()
      reads this`pc, this`cutOff, this`abs, this`final, this`zAdler32, this`zlib, this`wrap, this`zhdr0,
        this`rawHeader, this`counter,
            this`dist, this`numExtra, this`tableSizes, this`codeSize0, this`codeSize1, this`codeSize2, this`lenCodes
    {
      match pc
      case Start => abs == Begin(Flat(zlib))
      case ZHdr0 => abs.phase == ZHeader0 && zAdler32 == 1
      case ZHdr1 => abs.phase == ZHeader1(zhdr0) && zAdler32 == 1
      case BlockHead => abs.phase == BlockHeader && zAdler32 == 1
      case SkipBits => abs.phase == StoredAlign && Block()
      case RawHeader => abs.phase == StoredHeader(rawHeader) && Block()
      case StoredBits => abs.phase == StoredData(counter) && Block()
      case StoredPut => dist < 256 && abs.phase == StoredByte(dist, counter) && Block()
      case StoredCopy => abs.phase == StoredData(counter) && Block()
      case TableSize => abs.phase == TableSizes(tableSizes) && Block()
      case ClSize => abs.phase == ClSizes(tableSizes, codeSize2, counter) && Block()
      case CodeLen => abs.phase == CodeLens(tableSizes, codeSize2, lenCodes) && Block()
      case RepeatRun => abs.phase == Repeat(tableSizes, codeSize2, lenCodes, dist) && Block()
      case DecodeLit => abs.phase == Symbols(Codes()) && Block()
      case PutLiteral => counter < 256 && abs.phase == Literal(Codes(), counter) && Block()
      case LenBits => abs.phase.LengthExtra? && abs.phase.codes == Codes() && 257 <= abs.phase.sym <= 285
        && counter == LengthBase(abs.phase.sym) && numExtra == LengthExtraBits(abs.phase.sym) && Block()
      case DecodeDist => abs.phase == Distance(Codes(), counter) && Block()
      case DistBits => abs.phase.DistanceExtra? && abs.phase.codes == Codes() && abs.phase.len == counter
        && abs.phase.sym < 30 && dist == DistBase(abs.phase.sym) && numExtra == DistExtraBits(abs.phase.sym) && Block()
      case CopyMatch => abs.phase == Copy(Codes(), counter, dist) && 1 <= dist <= |abs.out| && Block()
      case CopyBytes => abs.phase == Copy(Codes(), counter, dist) && 1 <= dist <= |abs.out| && Block()
      case TrailerSkip => abs.phase == TrailerAlign && zAdler32 == 1
      case TrailerByte => abs.phase.Trailer? && abs.phase.k == counter < 4
        && AdlerSoFar(counter, abs.phase.adler, zAdler32)
      case AllDone => abs.phase == Done(zAdler32)
      case HasFailed => abs.phase == Failed || cutOff
      case Gone => false
    }

    ghost predicate Block()
      reads this`abs, this`final, this`zAdler32
    {
      abs.final == final && zAdler32 == 1
    }

    ghost predicate Valid()
      reads this, br, table0, table0.lookUp, table0.tree, table1, table1.lookUp, table1.tree,
            table2, table2.lookUp, table2.tree, outBuf
    {
      && br.Valid() && Common() && Safe() && Placed()
      && (abs.phase.Undefined? || (Tied() && Win()))
    }

    constructor (wide: bool)
      ensures pc == Start && Valid() && !abs.phase.Undefined? && checkAdler32 == 1 && !cutOff
      ensures fresh(br) && fresh(table0) && fresh(table0.lookUp) && fresh(table0.tree) && fresh(table1)
        && fresh(table1.lookUp)
      ensures fresh(table1.tree) && fresh(table2) && fresh(table2.lookUp) && fresh(table2.tree) && fresh(outBuf)
    {
      br := new BitReader(wide);
      table0 := new HuffTable();
      table1 := new HuffTable();
      table2 := new HuffTable();
      pc, final, blockType, counter, dist, numExtra, distFrom := Start, false, 0, 0, 0, 0, 0;
      zhdr0, zAdler32, checkAdler32, rawHeader, tableSizes, lenCodes := 0, 1, 1, [], [], [];
      codeSize0, codeSize1, codeSize2 := [], [], [];
      zlib, wrap, hasMore, cutOff, outCur, outEnd, status := false, false, false, false, 0, 0, Starved;
      outBuf := new byte[0];
      base, abs := 0, State(false, BlockHeader, []);
      new;
      hide Safe, Tied, Placed, Valid, WindowOk, BlockTables, HuffTable.Built, BitReader.Stream, BitReader.Valid;
      assert Common();
      NothingWritten(outBuf[..], false);
      AtStart();
    }

    ghost function Objects(): set<object>
      reads this
    {
      {this, br, table0, table0.lookUp, table0.tree, table1, table1.lookUp, table1.tree, table2, table2.lookUp,
        table2.tree, outBuf}
    }

    // ----- what every step of the program keeps

    ghost function Left(): int
      reads this, br
    {
      br.numBits + 8 * (|br.inBuf| - br.inCur)
    }

    ghost function Rank(): nat
      reads this
    {
      PcRank(pc) + if pc.CodeLen? && |lenCodes| < 500 then 500 - |lenCodes| else 0
    }

    /** The parameters of the call and the tables stay; positions only move forward. */
    twostate predicate Kept()
      reads this, br
    {
      && br.inBuf == old(br.inBuf) && br.inCur >= old(br.inCur)
      && outBuf == old(outBuf) && outEnd == old(outEnd) && outCur >= old(outCur)
      && zlib == old(zlib) && wrap == old(wrap) && hasMore == old(hasMore) && base == old(base)
      && checkAdler32 == old(checkAdler32) && (pc.Start? ==> old(pc).Start?) && (cutOff ==> old(cutOff) || CutHere())
    }

    /** The input was declared complete, and it ends inside a stored block. */
    ghost predicate CutHere()
      reads this`pc, this`hasMore, this`abs, this`outCur, this`outEnd, br
    {
      && pc.HasFailed? && !hasMore && br.inCur == |br.inBuf| && br.numBits == 0 && outCur < outEnd
      && (abs.phase.Undefined? || (abs.phase.StoredData? && abs.phase.left > 0))
    }

    /** Output was written, or input consumed, or the program moved on. */
    twostate predicate Progress()
      reads this, br
    {
      outEnd - outCur < old(outEnd - outCur)
      || (outEnd - outCur == old(outEnd - outCur)
          && (Left() < old(Left()) || (Left() == old(Left()) && Rank() < old(Rank()))))
    }

    ghost predicate Hungry()
      reads this`abs, this`zlib, this`wrap, this`outBuf, br
      requires br.Valid()
    {
      br.inCur == |br.inBuf| && (abs.phase.Undefined? || (Stuck(Cfg(), abs, br.Stream()) && !Final(abs.phase)))
    }

    /** Why the program stopped. */
    ghost predicate StopOk()
      reads this, br
      requires br.Valid()
    {
      match status
      case NeedsMoreInput => hasMore && Hungry()
      case Starved => !hasMore && Hungry() && !abs.phase.StoredData?
      case HasMoreOutput => outCur == outEnd && !pc.HasFailed? && (abs.phase.Undefined? || WantsSpace(abs.phase))
      case StatusDone => pc.AllDone?
      case StatusFailed => pc.HasFailed?
      case Unspecified => abs.phase.Undefined?
      case _ => false
    }

    /** The specification machine makes the step that the program just made. */
    ghost method Advance(cfg: Config, b0: bits)
      requires br.Valid()
      requires abs.phase.Undefined? ||
        (var r := Step(cfg, abs, b0); r.Go? && (r.next.phase.Undefined? || br.Stream() == b0[r.used..]))
      modifies this`abs
      ensures Follows(cfg, old(abs), b0, abs, br.Stream())
      ensures if old(abs).phase.Undefined? then abs == old(abs) else abs == Step(cfg, old(abs), b0).next
    {
      hide Step, Reaches, Follows;
      if abs.phase.Undefined? {
        FollowsLost(cfg, abs, b0, br.Stream());
      } else {
        FollowsStep(cfg, abs, b0, Step(cfg, abs, b0).next, br.Stream());
        abs := Step(cfg, abs, b0).next;
      }
    }

    /** The bits just read lead to phase `p`. */
    ghost predicate StepsTo(b0: bits, p: Phase)
      requires br.Valid()
      reads this`abs, this`zlib, this`wrap, this`outBuf, br
    {
      var r := Step(Cfg(), abs, b0);
      r.Go? && r.next == abs.(phase := p) && (p.Undefined? || br.Stream() == b0[r.used..])
    }

    // ----- the invariant, point by point

    lemma AtStart()
      requires pc.Start?
      ensures Valid() <==> (Common() && br.numBits == 0 && outCur == 0 && base == 0
        && (abs.phase.Undefined? || (abs == Begin(Flat(zlib)) && Win())))
    {
      hide BlockTables, HuffTable.Built, Win, SameSlot, SizesOk, AdlerSoFar, LengthBase, LengthExtraBits, DistBase,
           DistExtraBits;
    }

    lemma AtZHdr0()
      requires pc.ZHdr0?
      ensures Valid() <==> (Common() && br.numBits == 0 && zlib
        && (abs.phase.Undefined? || (abs.phase == ZHeader0 && zAdler32 == 1 && Win())))
    {
      hide BlockTables, HuffTable.Built, Win, SameSlot, SizesOk, AdlerSoFar, LengthBase, LengthExtraBits, DistBase,
           DistExtraBits;
    }

    lemma AtZHdr1()
      requires pc.ZHdr1?
      ensures Valid() <==> (Common() && br.numBits == 0 && zlib
        && (abs.phase.Undefined? || (abs.phase == ZHeader1(zhdr0) && zAdler32 == 1 && Win())))
    {
      hide BlockTables, HuffTable.Built, Win, SameSlot, SizesOk, AdlerSoFar, LengthBase, LengthExtraBits, DistBase,
           DistExtraBits;
    }

    lemma AtBlockHead()
      requires pc.BlockHead?
      ensures Valid() <==> (Common()
        && (abs.phase.Undefined? || (abs.phase == BlockHeader && zAdler32 == 1 && Win())))
    {
      hide BlockTables, HuffTable.Built, Win, SameSlot, SizesOk, AdlerSoFar, LengthBase, LengthExtraBits, DistBase,
           DistExtraBits;
    }

    lemma AtSkipBits()
      requires pc.SkipBits?
      ensures Valid() <==> (Common()
        && (abs.phase.Undefined? || (abs.phase == StoredAlign && Block() && Win())))
    {
      hide BlockTables, HuffTable.Built, Win, SameSlot, SizesOk, AdlerSoFar, LengthBase, LengthExtraBits, DistBase,
           DistExtraBits;
    }

    lemma AtRawHeader()
      requires pc.RawHeader?
      ensures Valid() <==> (Common() && |rawHeader| < 4 && Whole(br.numBits)
        && (abs.phase.Undefined? || (abs.phase == StoredHeader(rawHeader) && Block() && Win())))
    {
      hide BlockTables, HuffTable.Built, Win, SameSlot, SizesOk, AdlerSoFar, LengthBase, LengthExtraBits, DistBase,
           DistExtraBits;
    }

    lemma AtStoredBits()
      requires pc.StoredBits?
      ensures Valid() <==> (Common() && Whole(br.numBits)
        && (abs.phase.Undefined? || (abs.phase == StoredData(counter) && Block() && Win())))
    {
      hide BlockTables, HuffTable.Built, Win, SameSlot, SizesOk, AdlerSoFar, LengthBase, LengthExtraBits, DistBase,
           DistExtraBits;
    }

    lemma AtStoredPut()
      requires pc.StoredPut?
      ensures Valid() <==> (Common() && dist < 256 && counter > 0 && Whole(br.numBits)
        && (abs.phase.Undefined? || (dist < 256 && abs.phase == StoredByte(dist, counter) && Block() && Win())))
    {
      hide BlockTables, HuffTable.Built, Win, SameSlot, SizesOk, AdlerSoFar, LengthBase, LengthExtraBits, DistBase,
           DistExtraBits;
    }

    lemma AtStoredCopy()
      requires pc.StoredCopy?
      ensures Valid() <==> (Common() && (counter > 0 ==> br.numBits == 0)
        && (abs.phase.Undefined? || (abs.phase == StoredData(counter) && Block() && Win())))
    {
      hide BlockTables, HuffTable.Built, Win, SameSlot, SizesOk, AdlerSoFar, LengthBase, LengthExtraBits, DistBase,
           DistExtraBits;
    }

    lemma AtTableSize()
      requires pc.TableSize?
      ensures Valid() <==> (Common() && |tableSizes| < 3 && SizesOk(tableSizes)
        && (abs.phase.Undefined? || (abs.phase == TableSizes(tableSizes) && Block() && Win())))
    {
      hide BlockTables, HuffTable.Built, Win, SameSlot, SizesOk, AdlerSoFar, LengthBase, LengthExtraBits, DistBase,
           DistExtraBits;
    }

    lemma AtClSize()
      requires pc.ClSize?
      ensures Valid() <==>
        (Common() && |tableSizes| == 3 && SizesOk(tableSizes) && |codeSize2| == 19 && counter < tableSizes[2]
        && (abs.phase.Undefined? || (abs.phase == ClSizes(tableSizes, codeSize2, counter) && Block() && Win())))
    {
      hide BlockTables, HuffTable.Built, Win, SameSlot, SizesOk, AdlerSoFar, LengthBase, LengthExtraBits, DistBase,
           DistExtraBits;
    }

    lemma AtCodeLen()
      requires pc.CodeLen?
      ensures Valid() <==>
        (Common() && |tableSizes| == 3 && SizesOk(tableSizes) && |codeSize2| == 19 && table2.Built(codeSize2)
        && |lenCodes| < tableSizes[0] + tableSizes[1]
        && (abs.phase.Undefined? || (abs.phase == CodeLens(tableSizes, codeSize2, lenCodes) && Block() && Win())))
    {
      hide BlockTables, HuffTable.Built, Win, SameSlot, SizesOk, AdlerSoFar, LengthBase, LengthExtraBits, DistBase,
           DistExtraBits;
    }

    lemma AtRepeatRun()
      requires pc.RepeatRun?
      ensures Valid() <==>
        (Common() && (|tableSizes| == 3 && SizesOk(tableSizes) && |codeSize2| == 19 && table2.Built(codeSize2)
        && |lenCodes| < tableSizes[0] + tableSizes[1] && 16 <= dist <= 18 && (dist == 16 ==> lenCodes != [])
        && numExtra == RepeatBits(dist))
        && (abs.phase.Undefined? || (abs.phase == Repeat(tableSizes, codeSize2, lenCodes, dist) && Block() && Win())))
    {
      hide BlockTables, HuffTable.Built, Win, SameSlot, SizesOk, AdlerSoFar, LengthBase, LengthExtraBits, DistBase,
           DistExtraBits;
    }

    lemma AtDecodeLit()
      requires pc.DecodeLit?
      ensures Valid() <==> (Common() && BlockTables()
        && (abs.phase.Undefined? || (abs.phase == Symbols(Codes()) && Block() && Win())))
    {
      hide BlockTables, HuffTable.Built, Win, SameSlot, SizesOk, AdlerSoFar, LengthBase, LengthExtraBits, DistBase,
           DistExtraBits;
    }

    lemma AtPutLiteral()
      requires pc.PutLiteral?
      ensures Valid() <==> (Common() && BlockTables() && counter < 256
        && (abs.phase.Undefined? || (counter < 256 && abs.phase == Literal(Codes(), counter) && Block() && Win())))
    {
      hide BlockTables, HuffTable.Built, Win, SameSlot, SizesOk, AdlerSoFar, LengthBase, LengthExtraBits, DistBase,
           DistExtraBits;
    }

    lemma AtLenBits()
      requires pc.LenBits?
      ensures Valid() <==> (Common() && BlockTables() && numExtra <= 5 && counter >= 3
        && (abs.phase.Undefined?
          || (abs.phase.LengthExtra? && abs.phase.codes == Codes() && 257 <= abs.phase.sym <= 285
          && counter == LengthBase(abs.phase.sym) && numExtra == LengthExtraBits(abs.phase.sym) && Block() && Win())))
    {
      hide BlockTables, HuffTable.Built, Win, SameSlot, SizesOk, AdlerSoFar, LengthBase, LengthExtraBits, DistBase,
           DistExtraBits;
    }

    lemma AtDecodeDist()
      requires pc.DecodeDist?
      ensures Valid() <==> (Common() && BlockTables() && counter >= 3
        && (abs.phase.Undefined? || (abs.phase == Distance(Codes(), counter) && Block() && Win())))
    {
      hide BlockTables, HuffTable.Built, Win, SameSlot, SizesOk, AdlerSoFar, LengthBase, LengthExtraBits, DistBase,
           DistExtraBits;
    }

    lemma AtDistBits()
      requires pc.DistBits?
      ensures Valid() <==> (Common() && BlockTables() && counter >= 3 && numExtra <= 13 && dist >= 1
        && (abs.phase.Undefined?
          || (abs.phase.DistanceExtra? && abs.phase.codes == Codes() && abs.phase.len == counter && abs.phase.sym < 30
          && dist == DistBase(abs.phase.sym) && numExtra == DistExtraBits(abs.phase.sym) && Block() && Win())))
    {
      hide BlockTables, HuffTable.Built, Win, SameSlot, SizesOk, AdlerSoFar, LengthBase, LengthExtraBits, DistBase,
           DistExtraBits;
    }

    lemma AtCopyMatch()
      requires pc.CopyMatch?
      ensures Valid() <==> (Common() && BlockTables() && counter >= 3 && dist >= 1 && (wrap || dist <= outCur)
        && (abs.phase.Undefined?
          || (abs.phase == Copy(Codes(), counter, dist) && 1 <= dist <= |abs.out| && (wrap ==> dist <= outBuf.Length)
          && Block() && Win())))
    {
      hide BlockTables, HuffTable.Built, Win, SameSlot, SizesOk, AdlerSoFar, LengthBase, LengthExtraBits, DistBase,
           DistExtraBits;
    }

    lemma AtCopyBytes()
      requires pc.CopyBytes?
      ensures Valid() <==>
        (Common() && BlockTables() && counter >= 1 && dist >= 1
        && (outBuf.Length > 0 && SameSlot(distFrom, outCur, wrap, outBuf.Length) && (wrap || dist <= distFrom))
        && (abs.phase.Undefined?
          || (abs.phase == Copy(Codes(), counter, dist) && 1 <= dist <= |abs.out| && (wrap ==> dist <= outBuf.Length)
          && Block() && Win())))
    {
      hide BlockTables, HuffTable.Built, Win, SameSlot, SizesOk, AdlerSoFar, LengthBase, LengthExtraBits, DistBase,
           DistExtraBits;
    }

    lemma AtTrailerSkip()
      requires pc.TrailerSkip?
      ensures Valid() <==> (Common()
        && (abs.phase.Undefined? || (abs.phase == TrailerAlign && zAdler32 == 1 && Win())))
    {
      hide BlockTables, HuffTable.Built, Win, SameSlot, SizesOk, AdlerSoFar, LengthBase, LengthExtraBits, DistBase,
           DistExtraBits;
    }

    lemma AtTrailerByte()
      requires pc.TrailerByte?
      ensures Valid() <==> (Common() && counter < 4 && Whole(br.numBits)
        && (abs.phase.Undefined?
          || (abs.phase.Trailer? && abs.phase.k == counter < 4 && AdlerSoFar(counter, abs.phase.adler, zAdler32)
          && Win())))
    {
      hide BlockTables, HuffTable.Built, Win, SameSlot, SizesOk, AdlerSoFar, LengthBase, LengthExtraBits, DistBase,
           DistExtraBits;
    }

    lemma AtAllDone()
      requires pc.AllDone?
      ensures Valid() <==> (Common()
        && (abs.phase.Undefined? || (abs.phase == Done(zAdler32) && Win())))
    {
      hide BlockTables, HuffTable.Built, Win, SameSlot, SizesOk, AdlerSoFar, LengthBase, LengthExtraBits, DistBase,
           DistExtraBits;
    }

    lemma AtHasFailed()
      requires pc.HasFailed?
      ensures Valid() <==> (Common()
        && (abs.phase.Undefined? || ((abs.phase == Failed || cutOff) && Win())))
    {
      hide BlockTables, HuffTable.Built, Win, SameSlot, SizesOk, AdlerSoFar, LengthBase, LengthExtraBits, DistBase,
           DistExtraBits;
    }

    // ----- header and block header

    method BeginStream()
      requires Valid() && pc.Start?
      modifies this
      ensures Valid() && Kept() && Progress() && pc == (if zlib then ZHdr0 else BlockHead)
      ensures Follows(Cfg(), old(abs), old(br.Stream()), abs, br.Stream())
    {
      hide Safe, Tied, Placed, Step, Follows, WindowOk, CutHere;
      AtStart();
      zAdler32 := 1;
      pc := if zlib then ZHdr0 else BlockHead;
      assert Valid() by { if zlib { AtZHdr0(); } else { AtBlockHead(); } }
      FollowsRefl(Cfg(), abs, br.Stream());
    }

    /** The input ran out in the middle of a read; the state is as it was. */
    method Starve(ghost a0: State, ghost b0: bits)
      requires br.Valid() && abs == a0 && br.Stream() == b0 && br.inCur == |br.inBuf|
      requires abs.phase.Undefined? || (Stuck(Cfg(), abs, b0) && !Final(abs.phase))
      requires !hasMore ==> !abs.phase.StoredData?
      modifies this`status
      ensures StopOk() && Follows(Cfg(), a0, b0, abs, br.Stream())
    {
      hide Step, Follows, Stuck;
      status := if hasMore then NeedsMoreInput else Starved;
      FollowsRefl(Cfg(), a0, b0);
    }

    method ReadZHdr0() returns (run: bool)
      requires Valid() && pc.ZHdr0?
      modifies this, br
      ensures Valid() && Kept() && (run ==> Progress()) && (!run ==> StopOk())
      ensures Follows(Cfg(), old(abs), old(br.Stream()), abs, br.Stream())
    {
      hide BitReader.Stream, BitReader.Valid, PcRank, Safe, Tied, Placed, Step, Follows, WindowOk, Stuck, LeVal,
           Byte, HuffTable.Built, BlockTables, Accepted, Whole, Partial, Separate, Pow2, HuffTable.Allocated, CutHere;
      AtZHdr0();
      ghost var b0, a0 := br.Stream(), abs;
      var v;
      run, v := br.GetByte();
      if run {
        LeByte(b0);
        if !abs.phase.Undefined? { StepZHeader0(Cfg(), abs, b0); }
        zhdr0 := v;
        pc := ZHdr1;
        Advance(Cfg(), b0);
        assert Valid() by { AtZHdr1(); }
      } else {
        if !abs.phase.Undefined? { Stuck8(Cfg(), abs, b0); }
        Starve(a0, b0);
        assert Valid() by { AtZHdr0(); }
      }
    }

    method ReadZHdr1() returns (run: bool)
      requires Valid() && pc.ZHdr1?
      modifies this, br
      ensures Valid() && Kept() && (run ==> Progress()) && (!run ==> StopOk())
      ensures Follows(Cfg(), old(abs), old(br.Stream()), abs, br.Stream())
    {
      hide BitReader.Stream, BitReader.Valid, PcRank, Safe, Tied, Placed, Step, Follows, WindowOk, Stuck, LeVal,
           Byte, HuffTable.Built, BlockTables, Accepted, Whole, Partial, Separate, Pow2, HuffTable.Allocated, CutHere;
      AtZHdr1();
      ghost var b0, a0 := br.Stream(), abs;
      var v;
      run, v := br.GetByte();
      if run {
        LeByte(b0);
        if !abs.phase.Undefined? { StepZHeader1(Cfg(), abs, b0); }
        hide HeaderOk;
        TakeZHdr1(v, b0);
      } else {
        if !abs.phase.Undefined? { Stuck8(Cfg(), abs, b0); }
        Starve(a0, b0);
        assert Valid() by { AtZHdr1(); }
      }
    }

    method TakeZHdr1(v: byte, ghost b0: bits)
      requires Common()
      requires abs.phase.Undefined?
        || (Win() && zAdler32 == 1 && StepsTo(b0, if HeaderOk(Cfg(), zhdr0, v) then BlockHeader else Failed))
      modifies this`abs, this`pc
      ensures Valid() && (pc.BlockHead? || pc.HasFailed?) && Follows(Cfg(), old(abs), b0, abs, br.Stream())
    {
      hide BitReader.Stream, BitReader.Valid, Step, Follows, WindowOk, Separate, Safe, Tied, Placed, HeaderOk;
      HeaderChecks(Cfg(), zhdr0, v);
      var bad := ChecksFail(wrap, outBuf.Length, zhdr0, v);
      pc := if bad then HasFailed else BlockHead;
      Advance(Cfg(), b0);
      assert Valid() by { if bad { AtHasFailed(); } else { AtBlockHead(); } }
    }

    method ReadBlockHead() returns (run: bool)
      requires Valid() && pc.BlockHead?
      modifies this, br, table0, table0.lookUp, table0.tree, table1, table1.lookUp, table1.tree, table2,
        table2.lookUp, table2.tree
      ensures Valid() && Kept() && (run ==> Progress()) && (!run ==> StopOk())
      ensures Follows(Cfg(), old(abs), old(br.Stream()), abs, br.Stream())
    {
      hide BitReader.Stream, BitReader.Valid, PcRank, Safe, Tied, Placed, Step, Follows, WindowOk, Stuck, LeVal,
           Byte, HuffTable.Built, BlockTables, Accepted, Whole, Partial, Separate, Pow2, HuffTable.Allocated, CutHere;
      AtBlockHead();
      ghost var b0, a0 := br.Stream(), abs;
      var v;
      run, v := br.GetBits(3);
      if !run {
        if !abs.phase.Undefined? { Stuck3(Cfg(), abs, b0); }
        Starve(a0, b0);
        assert Valid() by { AtBlockHead(); }
        return;
      }
      LeThree(b0);
      if !abs.phase.Undefined? { StepBlockHeader(Cfg(), abs, b0); }
      TakeBlockHead(v, b0);
    }

    method TakeBlockHead(v: nat, ghost b0: bits)
      requires Common() && v < 8
      requires abs.phase.Undefined? || (Win() && zAdler32 == 1
        && (var r := Step(Cfg(), abs, b0);
            r.Go? && r.next == State(v % 2 == 1, BlockStart(v / 2), abs.out) && br.Stream() == b0[r.used..]))
      modifies this, table0, table0.lookUp, table0.tree, table1, table1.lookUp, table1.tree
      ensures Valid() && Kept() && outCur == old(outCur) && Follows(Cfg(), old(abs), b0, abs, br.Stream())
    {
      hide BitReader.Stream, BitReader.Valid, Step, Follows, WindowOk, HuffTable.Built, BlockTables, Separate, Safe,
           Tied, Placed, CutHere;
      final, blockType := v % 2 == 1, v / 2;
      Advance(Cfg(), b0);
      StartBlock();
    }

    /** What follows the three header bits of a block. */
    method StartBlock()
      requires Common() && blockType <= 3
      requires abs.phase.Undefined? || (Win() && abs.phase == BlockStart(blockType) && Block())
      modifies this, table0, table0.lookUp, table0.tree, table1, table1.lookUp, table1.tree
      ensures Valid() && Kept() && abs == old(abs) && outCur == old(outCur)
    {
      hide Safe, Tied, Placed, WindowOk, Accepted, FixedLit, FixedDist, Separate, HuffTable.Allocated, Pow2,
           BitReader.Valid, BitReader.Stream, Stuck, LeVal, Byte, CutHere;
      hide HuffTable.Built;
      if blockType == 0 {
        pc := SkipBits;
        AtSkipBits();
      } else if blockType == 3 {
        pc := HasFailed;
        assert Valid() by { AtHasFailed(); }
      } else if blockType == 1 {
        codeSize0, codeSize1 := FixedLit(), FixedDist();
        BuildCodes();
        assert Valid() by { if pc.DecodeLit? { AtDecodeLit(); } else { AtHasFailed(); } }
      } else {
        tableSizes := [];
        pc := TableSize;
        assert Valid() by { AtTableSize(); }
      }
    }

    /** Builds the distance table and then the literal table of the current block. */
    method BuildCodes()
      requires Separate() && |codeSize0| <= 288 && |codeSize1| <= 32
      modifies this`pc, table0, table0.lookUp, table0.tree, table1, table1.lookUp, table1.tree
      ensures pc == if Accepted(codeSize0) && Accepted(codeSize1) then DecodeLit else HasFailed
      ensures pc.DecodeLit? ==> BlockTables()
    {
      hide Accepted, Holds;
      var ok := table1.Build(codeSize1);
      if ok {
        ok := table0.Build(codeSize0);
      }
      pc := if ok then DecodeLit else HasFailed;
    }

    // ----- stored blocks

    method AlignToByte()
      requires Valid() && pc.SkipBits?
      modifies this, br
      ensures Valid() && Kept() && Progress() && !pc.Start?
      ensures Follows(Cfg(), old(abs), old(br.Stream()), abs, br.Stream())
    {
      hide BitReader.Stream, BitReader.Valid, PcRank, Safe, Tied, Placed, Step, Follows, WindowOk, Stuck, LeVal, Byte,
           HuffTable.Built, BlockTables, Accepted, Whole, Partial, Separate, Pow2, HuffTable.Allocated, CutHere;
      Ranks();
      AtSkipBits();
      ghost var b0 := br.Stream();
      var n := br.SkipPartial();
      if !abs.phase.Undefined? { StepAlign(Cfg(), abs, b0); }
      rawHeader := [];
      pc := RawHeader;
      Advance(Cfg(), b0);
      assert Valid() by { AtRawHeader(); }
    }

    method ReadRawHeader() returns (run: bool)
      requires Valid() && pc.RawHeader?
      modifies this, br
      ensures Valid() && Kept() && (run ==> Progress()) && (!run ==> StopOk())
      ensures Follows(Cfg(), old(abs), old(br.Stream()), abs, br.Stream())
    {
      hide BitReader.Stream, BitReader.Valid, PcRank, Safe, Tied, Placed, Step, Follows, WindowOk, Stuck, LeVal,
           Byte, HuffTable.Built, BlockTables, Accepted, Whole, Partial, Separate, Pow2, HuffTable.Allocated, CutHere;
      hide AfterHeaderByte;
      AtRawHeader();
      ghost var b0, a0 := br.Stream(), abs;
      var v;
      WholeDown(br.numBits);
      run, v := br.GetAlignedByte();
      if !run {
        if !abs.phase.Undefined? { Stuck8(Cfg(), abs, b0); }
        Starve(a0, b0);
        assert Valid() by { AtRawHeader(); }
        return;
      }
      LeByte(b0);
      if !abs.phase.Undefined? { StepStoredHeader(Cfg(), abs, b0); }
      rawHeader := rawHeader + [v];
      Advance(Cfg(), b0);
      CheckRawHeader();
    }

    /** After the fourth byte, the length and its complement must agree. */
    method CheckRawHeader()
      requires Common() && |rawHeader| <= 4 && Whole(br.numBits)
      requires abs.phase.Undefined? || (Win() && abs.phase == AfterHeaderByte(rawHeader) && Block())
      modifies this`pc, this`counter
      ensures Valid() && !pc.Start?
    {
      hide Safe, Tied, Placed, WindowOk, Whole;
      pc := RawHeader;
      if |rawHeader| == 4 {
        counter := Word(rawHeader[0], rawHeader[1]);
        pc := if counter != 0xFFFF - Word(rawHeader[2], rawHeader[3]) then HasFailed else StoredBits;
        assert Valid() by { if pc.HasFailed? { AtHasFailed(); } else { AtStoredBits(); } }
      } else {
        AtRawHeader();
      }
    }

    method ReadStoredBits() returns (run: bool)
      requires Valid() && pc.StoredBits?
      modifies this, br
      ensures Valid() && Kept() && (run ==> Progress()) && (!run ==> StopOk())
      ensures Follows(Cfg(), old(abs), old(br.Stream()), abs, br.Stream())
    {
      hide BitReader.Stream, BitReader.Valid, PcRank, Safe, Tied, Placed, Step, Follows, WindowOk, Stuck, LeVal,
           Byte, HuffTable.Built, BlockTables, Accepted, Whole, Partial, Separate, Pow2, HuffTable.Allocated, CutHere;
      Ranks();
      AtStoredBits();
      ghost var b0 := br.Stream();
      if counter == 0 || br.numBits == 0 {
        pc := StoredCopy;
        FollowsRefl(Cfg(), abs, b0);
        assert Valid() by { AtStoredCopy(); }
        return true;
      }
      var v;
      WholeDown(br.numBits);
      run, v := br.GetBits(8);
      LeByte(b0);
      if !abs.phase.Undefined? { StepStoredData(Cfg(), abs, b0); }
      TakeStoredBits(v, b0);
    }

    method TakeStoredBits(v: nat, ghost b0: bits)
      requires Common() && v < 256 && counter > 0 && Whole(br.numBits)
      requires abs.phase.Undefined? || (Win() && Block() && StepsTo(b0, StoredByte(v, counter)))
      modifies this`abs, this`dist, this`pc
      ensures Valid() && pc.StoredPut? && Follows(Cfg(), old(abs), b0, abs, br.Stream())
    {
      hide BitReader.Stream, BitReader.Valid, Step, Follows, WindowOk, Separate, Safe, Tied, Placed, Whole;
      dist := v;
      pc := StoredPut;
      Advance(Cfg(), b0);
      assert Valid() by { AtStoredPut(); }
    }

    /** Writes the next byte of output, as the specification machine does. */
    method Put(c: byte, ghost b0: bits)
      requires br.Valid() && outCur < outEnd <= outBuf.Length && b0 == br.Stream()
      requires abs.phase.Undefined? ||
        (Win() && (var r := Step(Cfg(), abs, b0); r.Go? && r.used == 0 && r.next.out == abs.out + [c]))
      modifies this`outCur, this`abs, outBuf
      ensures outCur == old(outCur) + 1
      ensures abs.phase.Undefined? || Win()
      ensures if old(abs).phase.Undefined? then abs == old(abs) else abs == Step(Cfg(), old(abs), b0).next
      ensures Follows(Cfg(), old(abs), b0, abs, b0)
    {
      hide Step, Follows, WindowOk;
      assert b0[0..] == b0;
      if !abs.phase.Undefined? { WindowPut(outBuf[..], outCur, base, wrap, abs.out, c); }
      outBuf[outCur] := c;
      outCur := outCur + 1;
      Advance(Cfg(), b0);
    }

    /** There is no room for the next byte. */
    method Full(ghost a0: State, ghost b0: bits)
      requires br.Valid() && abs == a0 && br.Stream() == b0 && outCur == outEnd
      requires abs.phase.Undefined? || WantsSpace(abs.phase)
      requires !pc.HasFailed?
      modifies this`status
      ensures StopOk() && Follows(Cfg(), a0, b0, abs, br.Stream())
    {
      hide Step, Follows;
      status := HasMoreOutput;
      FollowsRefl(Cfg(), a0, b0);
    }

    method PutStored() returns (run: bool)
      requires Valid() && pc.StoredPut?
      modifies this, br, outBuf
      ensures Valid() && Kept() && (run ==> Progress()) && (!run ==> StopOk())
      ensures Follows(Cfg(), old(abs), old(br.Stream()), abs, br.Stream())
    {
      hide BitReader.Stream, BitReader.Valid, PcRank, Safe, Tied, Placed, Step, Follows, WindowOk, Stuck, LeVal,
           Byte, HuffTable.Built, BlockTables, Accepted, Whole, Partial, Separate, Pow2, HuffTable.Allocated, CutHere;
      AtStoredPut();
      ghost var b0, a0 := br.Stream(), abs;
      if outCur >= outEnd {
        Full(a0, b0);
        assert Valid() by { AtStoredPut(); }
        return false;
      }
      if !abs.phase.Undefined? { StepPutStored(Cfg(), abs, b0); }
      Put(dist, b0);
      counter := counter - 1;
      pc := StoredBits;
      assert Valid() by { AtStoredBits(); }
      run := true;
    }

    /** Copies what is left of a stored block straight from the input. */
    method CopyStored() returns (run: bool)
      requires Valid() && pc.StoredCopy?
      modifies this, br, outBuf
      ensures Valid() && Kept() && (run ==> Progress()) && (!run ==> StopOk())
      ensures Follows(Cfg(), old(abs), old(br.Stream()), abs, br.Stream())
    {
      hide BitReader.Stream, BitReader.Valid, PcRank, Safe, Tied, Placed, Step, Follows, WindowOk, Stuck, LeVal,
           Byte, HuffTable.Built, BlockTables, Accepted, Whole, Partial, Separate, Pow2, HuffTable.Allocated;
      Ranks();
      AtStoredCopy();
      ghost var b0, a0 := br.Stream(), abs;
      if counter == 0 {
        if !abs.phase.Undefined? { StepStoredEnd(Cfg(), abs, b0); }
        hide EndBlock;
        EndOfBlock();
        Advance(Cfg(), b0);
        AfterBlock();
        return true;
      }
      if outCur >= outEnd {
        Full(a0, b0);
        assert Valid() by { AtStoredCopy(); }
        return false;
      }
      if br.inCur >= |br.inBuf| {
        if !hasMore {
          status, pc, cutOff := StatusFailed, HasFailed, true;
          FollowsRefl(Cfg(), a0, b0);
          assert Valid() by { AtHasFailed(); }
        } else {
          if !abs.phase.Undefined? { Stuck8(Cfg(), abs, b0); }
          Starve(a0, b0);
          assert Valid() by { AtStoredCopy(); }
        }
        return false;
      }
      var n := Min(Min(outEnd - outCur, |br.inBuf| - br.inCur), counter);
      CopyRun(n);
      run := true;
    }

    /** The memcpy of a stored block. */
    method CopyRun(n: nat)
      requires Valid() && pc.StoredCopy? && 0 < n <= counter
      requires n <= outEnd - outCur && n <= |br.inBuf| - br.inCur
      modifies this, br, outBuf
      ensures Valid() && Kept() && Progress() && pc.StoredCopy?
      ensures Follows(Cfg(), old(abs), old(br.Stream()), abs, br.Stream())
    {
      hide BitReader.Stream, BitReader.Valid, PcRank, Safe, Tied, Placed, Step, Follows, WindowOk, Separate, Pow2,
           HuffTable.Allocated;
      AtStoredCopy();
      ghost var b0, a0 := br.Stream(), abs;
      FollowsRefl(Cfg(), abs, b0);
      ghost var c0, o0, i0 := counter, outCur, br.inCur;
      var i := 0;
      while i < n
        invariant 0 <= i <= n && Valid() && Kept() && pc.StoredCopy?
        invariant counter == c0 - i && outCur == o0 + i && br.inCur == i0 + i
        invariant Follows(Cfg(), a0, b0, abs, br.Stream())
      {
        assert Valid() by { AtStoredCopy(); }
        ghost var b1, a1 := br.Stream(), abs;
        CopyStoredByte();
        FollowsTrans(Cfg(), a0, b0, a1, b1, abs, br.Stream());
        i := i + 1;
      }
    }

    /** One byte of that copy: read and written at once. */
    method CopyStoredByte()
      requires Valid() && pc.StoredCopy? && counter > 0 && outCur < outEnd && br.inCur < |br.inBuf|
      modifies this, br, outBuf
      ensures Valid() && Kept() && pc.StoredCopy?
      ensures counter == old(counter) - 1 && outCur == old(outCur) + 1 && br.inCur == old(br.inCur) + 1
      ensures Follows(Cfg(), old(abs), old(br.Stream()), abs, br.Stream())
    {
      hide BitReader.Stream, BitReader.Valid, Safe, Tied, Placed, Step, Follows, WindowOk, Stuck, LeVal, Byte,
           Accepted, Separate, Pow2, CutHere;
      ghost var b0, a0 := br.Stream(), abs;
      var v := TakeStoredByte();
      ghost var b1, a1 := br.Stream(), abs;
      if !abs.phase.Undefined? { StepPutStored(Cfg(), abs, b1); }
      Put(v, b1);
      counter := counter - 1;
      FollowsTrans(Cfg(), a0, b0, a1, b1, abs, b1);
      assert Valid() by { AtStoredCopy(); }
    }

    method TakeStoredByte() returns (v: byte)
      requires Valid() && pc.StoredCopy? && counter > 0 && br.inCur < |br.inBuf|
      modifies this`abs, br
      ensures Common() && br.numBits == 0 && br.inBuf == old(br.inBuf) && br.inCur == old(br.inCur) + 1
      ensures abs.phase.Undefined? || (Win() && abs.phase == StoredByte(v, counter) && Block())
      ensures Follows(Cfg(), old(abs), old(br.Stream()), abs, br.Stream())
    {
      hide BitReader.Stream, BitReader.Valid, Safe, Tied, Placed, Step, Follows, WindowOk, Stuck, LeVal, Byte,
           Accepted, Separate, Pow2;
      AtStoredCopy();
      ghost var b0 := br.Stream();
      var ok, c := br.GetByte();
      LeByte(b0);
      v := c;
      if !abs.phase.Undefined? { StepStoredData(Cfg(), abs, b0); }
      Advance(Cfg(), b0);
    }

    /** The end of a block: the next one, the trailer, or the end of the stream. */
    method EndOfBlock()
      modifies this`pc
      ensures pc == if !final then BlockHead else if zlib then TrailerSkip else AllDone
    {
      pc := if !final then BlockHead else if zlib then TrailerSkip else AllDone;
    }

    lemma AfterBlock()
      requires Common() && pc == if !final then BlockHead else if zlib then TrailerSkip else AllDone
      requires abs.phase.Undefined? || (Win() && abs.phase == EndBlock(Cfg(), final) && Block())
      ensures Valid()
    {
      hide Safe, Tied, Placed, WindowOk;
      if !final { AtBlockHead(); } else if zlib { AtTrailerSkip(); } else { AtAllDone(); }
    }

    // ----- the trailer

    method AlignTrailer()
      requires Valid() && pc.TrailerSkip?
      modifies this, br
      ensures Valid() && Kept() && Progress() && !pc.Start?
      ensures Follows(Cfg(), old(abs), old(br.Stream()), abs, br.Stream())
    {
      hide BitReader.Stream, BitReader.Valid, PcRank, Safe, Tied, Placed, Step, Follows, WindowOk, Stuck, LeVal, Byte,
           HuffTable.Built, BlockTables, Accepted, Whole, Partial, Separate, Pow2, HuffTable.Allocated, CutHere;
      Ranks();
      AtTrailerSkip();
      ghost var b0 := br.Stream();
      var n := br.SkipPartial();
      if !abs.phase.Undefined? { StepAlign(Cfg(), abs, b0); }
      counter := 0;
      pc := TrailerByte;
      Advance(Cfg(), b0);
      assert Valid() by { AtTrailerByte(); }
    }

    method ReadTrailer() returns (run: bool)
      requires Valid() && pc.TrailerByte?
      modifies this, br
      ensures Valid() && Kept() && (run ==> Progress()) && (!run ==> StopOk())
      ensures Follows(Cfg(), old(abs), old(br.Stream()), abs, br.Stream())
    {
      hide BitReader.Stream, BitReader.Valid, PcRank, Safe, Tied, Placed, Step, Follows, WindowOk, Stuck, LeVal,
           Byte, HuffTable.Built, BlockTables, Accepted, Whole, Partial, Separate, Pow2, HuffTable.Allocated, CutHere;
      hide AdlerSoFar, AfterTrailerByte;
      AtTrailerByte();
      ghost var b0, a0 := br.Stream(), abs;
      var v;
      WholeDown(br.numBits);
      run, v := br.GetAlignedByte();
      if !run {
        if !abs.phase.Undefined? { Stuck8(Cfg(), abs, b0); }
        Starve(a0, b0);
        assert Valid() by { AtTrailerByte(); }
        return;
      }
      LeByte(b0);
      if !abs.phase.Undefined? { StepTrailer(Cfg(), abs, b0); }
      ghost var p0 := abs.phase;
      Advance(Cfg(), b0);
      TakeTrailerByte(v, p0);
    }

    method TakeTrailerByte(v: byte, ghost p0: Phase)
      requires Common() && counter < 4 && Whole(br.numBits)
      requires abs.phase.Undefined?
        || (Win() && p0.Trailer? && p0.k == counter && AdlerSoFar(counter, p0.adler, zAdler32)
        && abs.phase == AfterTrailerByte(p0.k, p0.adler, v))
      modifies this`pc, this`counter, this`zAdler32
      ensures Valid() && !pc.Start?
    {
      hide Safe, Tied, Placed, WindowOk, Whole, AdlerSoFar;
      if !abs.phase.Undefined? { AdlerByte(counter, p0.adler, zAdler32, v); }
      zAdler32 := (zAdler32 * 256 + v) % 0x1_0000_0000;
      counter := counter + 1;
      pc := if counter == 4 then AllDone else TrailerByte;
      if counter == 4 { AtAllDone(); } else { AtTrailerByte(); }
    }

    // ----- dynamic blocks

    method ReadTableSize() returns (run: bool)
      requires Valid() && pc.TableSize?
      modifies this, br
      ensures Valid() && Kept() && (run ==> Progress()) && (!run ==> StopOk())
      ensures Follows(Cfg(), old(abs), old(br.Stream()), abs, br.Stream())
    {
      hide BitReader.Stream, BitReader.Valid, PcRank, Safe, Tied, Placed, Step, Follows, WindowOk, Stuck, LeVal,
           Byte, HuffTable.Built, BlockTables, Accepted, Whole, Partial, Separate, Pow2, HuffTable.Allocated, CutHere;
      hide AfterSize;
      AtTableSize();
      ghost var b0, a0 := br.Stream(), abs;
      var v;
      run, v := br.GetBits(SIZE_BITS[|tableSizes|]);
      if !run {
        if !abs.phase.Undefined? { StuckSize(Cfg(), abs, b0); }
        Starve(a0, b0);
        assert Valid() by { AtTableSize(); }
        return;
      }
      SizeBits(|tableSizes|, b0);
      if !abs.phase.Undefined? { StepTableSizes(Cfg(), abs, b0); }
      TakeTableSize(v, b0);
    }

    method TakeTableSize(v: nat, ghost b0: bits)
      requires Common() && |tableSizes| < 3 && SizesOk(tableSizes) && v < 32 && (|tableSizes| == 2 ==> v < 16)
      requires abs.phase.Undefined?
        || (Win() && Block() && StepsTo(b0, AfterSize(tableSizes + [v + MIN_TABLE_SIZES[|tableSizes|]])))
      modifies this`abs, this`pc, this`tableSizes, this`counter, this`codeSize2
      ensures Valid() && !pc.Start? && Follows(Cfg(), old(abs), b0, abs, br.Stream())
    {
      hide BitReader.Stream, BitReader.Valid, Step, Follows, WindowOk, HuffTable.Built, BlockTables, Separate, Safe,
           Tied, Placed, AfterSize;
      tableSizes := tableSizes + [v + MIN_TABLE_SIZES[|tableSizes|]];
      Advance(Cfg(), b0);
      NextTableSize();
    }

    method NextTableSize()
      requires Common() && 0 < |tableSizes| <= 3 && SizesOk(tableSizes) && (|tableSizes| == 3 ==> tableSizes[2] > 0)
      requires abs.phase.Undefined? || (Win() && abs.phase == AfterSize(tableSizes) && Block())
      modifies this`pc, this`counter, this`codeSize2
      ensures Valid() && !pc.Start?
    {
      hide Safe, Tied, Placed, WindowOk, SizesOk, HuffTable.Built;
      if |tableSizes| < 3 {
        pc := TableSize;
        AtTableSize();
      } else {
        codeSize2, counter := Repeated(0, 19), 0;
        pc := ClSize;
        assert Valid() by { AtClSize(); }
      }
    }

    method ReadClSize() returns (run: bool)
      requires Valid() && pc.ClSize?
      modifies this, br, table0, table0.lookUp, table0.tree, table1, table1.lookUp, table1.tree, table2,
        table2.lookUp, table2.tree
      ensures Valid() && Kept() && (run ==> Progress()) && (!run ==> StopOk())
      ensures Follows(Cfg(), old(abs), old(br.Stream()), abs, br.Stream())
    {
      hide BitReader.Stream, BitReader.Valid, PcRank, Safe, Tied, Placed, Step, Follows, WindowOk, Stuck, LeVal,
           Byte, HuffTable.Built, BlockTables, Accepted, Whole, Partial, Separate, Pow2, HuffTable.Allocated, CutHere;
      hide AfterClSize, SizesOk, DEZIGZAG;
      AtClSize();
      SizesBound(tableSizes);
      ghost var b0, a0 := br.Stream(), abs;
      var v;
      run, v := br.GetBits(3);
      if !run {
        if !abs.phase.Undefined? { Stuck3(Cfg(), abs, b0); }
        Starve(a0, b0);
        assert Valid() by { AtClSize(); }
        return;
      }
      LeThree(b0);
      if !abs.phase.Undefined? { StepClSizes(Cfg(), abs, b0); }
      TakeClSize(v, b0);
    }

    method TakeClSize(v: nat, ghost b0: bits)
      requires Common() && |tableSizes| == 3 && SizesOk(tableSizes) && |codeSize2| == 19
        && counter < tableSizes[2] <= 19 && v < 8
      requires abs.phase.Undefined? || (Win() && Block() && (Zigzag(counter); StepsTo(b0,
        AfterClSize(tableSizes, codeSize2[DEZIGZAG[counter] := v], counter + 1))))
      modifies this, table0, table0.lookUp, table0.tree, table1, table1.lookUp, table1.tree, table2, table2.lookUp,
        table2.tree
      ensures Valid() && Kept() && outCur == old(outCur) && Follows(Cfg(), old(abs), b0, abs, br.Stream())
    {
      hide BitReader.Stream, BitReader.Valid, Step, Follows, WindowOk, HuffTable.Built, BlockTables, Separate, Safe,
           Tied, Placed, PcRank;
      hide AfterClSize, SizesOk, DEZIGZAG, CutHere;
      Zigzag(counter);
      codeSize2 := SetLength(codeSize2, DEZIGZAG[counter], v);
      counter := counter + 1;
      Advance(Cfg(), b0);
      NextClSize();
    }

    /** When all are read, builds the code of the code lengths. */
    method NextClSize()
      requires Common() && |tableSizes| == 3 && SizesOk(tableSizes) && |codeSize2| == 19 && counter <= tableSizes[2]
      requires abs.phase.Undefined? || (Win() && abs.phase == AfterClSize(tableSizes, codeSize2, counter) && Block())
      modifies this, table0, table0.lookUp, table0.tree, table1, table1.lookUp, table1.tree, table2, table2.lookUp,
        table2.tree
      ensures Valid() && Kept() && abs == old(abs) && outCur == old(outCur)
    {
      hide Safe, Tied, Placed, WindowOk, SizesOk, HuffTable.Built, Accepted, MoreLens, CutHere;
      if counter < tableSizes[2] {
        pc := ClSize;
        AtClSize();
      } else {
        var ok := table2.Build(codeSize2);
        if ok {
          lenCodes := [];
          NextCodeLen();
        } else {
          pc := HasFailed;
          assert Valid() by { AtHasFailed(); }
        }
      }
    }

    /** Goes on reading code lengths, or builds the two codes of the block from them. */
    method NextCodeLen()
      requires Common() && |tableSizes| == 3 && SizesOk(tableSizes) && |codeSize2| == 19 && table2.Built(codeSize2)
      requires abs.phase.Undefined? || (Win() && abs.phase == MoreLens(tableSizes, codeSize2, lenCodes) && Block())
      modifies this, table0, table0.lookUp, table0.tree, table1, table1.lookUp, table1.tree
      ensures Valid() && Kept() && abs == old(abs) && outCur == old(outCur)
      ensures (pc.CodeLen? && lenCodes == old(lenCodes)) || pc.DecodeLit? || pc.HasFailed?
    {
      hide Safe, Tied, Placed, WindowOk, HuffTable.Built, Accepted, Separate, HuffTable.Allocated, Pow2,
           BitReader.Valid, BitReader.Stream, Stuck, LeVal, Byte, CutHere;
      if |lenCodes| < tableSizes[0] + tableSizes[1] {
        pc := CodeLen;
        AtCodeLen();
      } else if |lenCodes| != tableSizes[0] + tableSizes[1] {
        pc := HasFailed;
        assert Valid() by { AtHasFailed(); }
      } else {
        UseCodeLens();
      }
    }

    /** The lengths are all there: the codes of the block. */
    method UseCodeLens()
      requires Common() && |tableSizes| == 3 && SizesOk(tableSizes) && |lenCodes| == tableSizes[0] + tableSizes[1]
      requires abs.phase.Undefined? || (Win() && abs.phase == AfterLens(tableSizes, lenCodes) && Block())
      modifies this, table0, table0.lookUp, table0.tree, table1, table1.lookUp, table1.tree
      ensures Valid() && Kept() && abs == old(abs) && outCur == old(outCur) && (pc.DecodeLit? || pc.HasFailed?)
    {
      hide Safe, Tied, Placed, WindowOk, HuffTable.Built, Accepted, Separate, HuffTable.Allocated, Pow2,
           BitReader.Valid, BitReader.Stream, Stuck, LeVal, Byte, CutHere;
      codeSize0, codeSize1 := lenCodes[..tableSizes[0]], lenCodes[tableSizes[0]..];
      BuildCodes();
      assert Valid() by { if pc.DecodeLit? { AtDecodeLit(); } else { AtHasFailed(); } }
    }

    method ReadCodeLen() returns (run: bool)
      requires Valid() && pc.CodeLen?
      modifies this, br, table0, table0.lookUp, table0.tree, table1, table1.lookUp, table1.tree, table2,
        table2.lookUp, table2.tree
      ensures Valid() && Kept() && (run ==> Progress()) && (!run ==> StopOk())
      ensures Follows(Cfg(), old(abs), old(br.Stream()), abs, br.Stream())
    {
      hide BitReader.Stream, BitReader.Valid, PcRank, Safe, Tied, Placed, Step, Follows, WindowOk, Stuck, LeVal,
           Byte, HuffTable.Built, BlockTables, Accepted, Whole, Partial, Separate, Pow2, HuffTable.Allocated, CutHere;
      hide DecodeSym, AfterCl, SizesOk;
      AtCodeLen();
      BuiltIsAccepted(table2, codeSize2);
      ghost var b0, a0 := br.Stream(), abs;
      var sym;
      run, sym := br.HuffDecode(table2, codeSize2);
      if !run {
        if !abs.phase.Undefined? { StuckSym(Cfg(), abs, b0); }
        Starve(a0, b0);
        assert Valid() by { AtCodeLen(); }
        return;
      }
      if !abs.phase.Undefined? { StepCodeLen(Cfg(), abs, b0); }
      Ranks();
      TakeCodeLen(sym, b0);
    }

    method TakeCodeLen(sym: nat, ghost b0: bits)
      requires Common() && |tableSizes| == 3 && SizesOk(tableSizes) && |codeSize2| == 19 && table2.Built(codeSize2)
      requires |lenCodes| < tableSizes[0] + tableSizes[1] && sym < 19
      requires abs.phase.Undefined?
        || (Win() && Block() && (StepsTo(b0, Undefined) || StepsTo(b0, AfterCl(tableSizes, codeSize2, lenCodes, sym))))
      modifies this, table0, table0.lookUp, table0.tree, table1, table1.lookUp, table1.tree
      ensures Valid() && Kept() && outCur == old(outCur) && |old(lenCodes)| < 320
      ensures sym < 16 ==> (pc.CodeLen? && |lenCodes| == |old(lenCodes)| + 1) || pc.DecodeLit? || pc.HasFailed?
      ensures sym >= 16 ==> pc.RepeatRun? || pc.HasFailed?
      ensures Follows(Cfg(), old(abs), b0, abs, br.Stream())
    {
      hide BitReader.Stream, BitReader.Valid, HuffTable.Built, BlockTables, Step, Follows, AfterCl, Separate,
           WindowOk, CutHere;
      Advance(Cfg(), b0);
      StartCodeLen(sym);
    }

    method StartCodeLen(sym: nat)
      requires Common() && |tableSizes| == 3 && SizesOk(tableSizes) && |codeSize2| == 19 && table2.Built(codeSize2)
      requires |lenCodes| < tableSizes[0] + tableSizes[1] && sym < 19
      requires abs.phase.Undefined? || (Win() && abs.phase == AfterCl(tableSizes, codeSize2, lenCodes, sym) && Block())
      modifies this, table0, table0.lookUp, table0.tree, table1, table1.lookUp, table1.tree
      ensures Valid() && Kept() && abs == old(abs) && outCur == old(outCur) && |old(lenCodes)| < 320
      ensures sym < 16 ==> (pc.CodeLen? && |lenCodes| == |old(lenCodes)| + 1) || pc.DecodeLit? || pc.HasFailed?
      ensures sym >= 16 ==> pc.RepeatRun? || pc.HasFailed?
    {
      hide Safe, Tied, Placed, WindowOk, HuffTable.Built, Accepted, MoreLens, CutHere;
      if sym < 16 {
        lenCodes := lenCodes + [sym];
        NextCodeLen();
      } else if sym == 16 && |lenCodes| == 0 {
        pc := HasFailed;
        AtHasFailed();
      } else {
        dist, numExtra := sym, RepeatBits(sym);
        pc := RepeatRun;
        assert Valid() by { AtRepeatRun(); }
      }
    }

    method ReadRepeat() returns (run: bool)
      requires Valid() && pc.RepeatRun?
      modifies this, br, table0, table0.lookUp, table0.tree, table1, table1.lookUp, table1.tree, table2,
        table2.lookUp, table2.tree
      ensures Valid() && Kept() && (run ==> Progress()) && (!run ==> StopOk())
      ensures Follows(Cfg(), old(abs), old(br.Stream()), abs, br.Stream())
    {
      hide BitReader.Stream, BitReader.Valid, PcRank, Safe, Tied, Placed, Step, Follows, WindowOk, Stuck, LeVal,
           Byte, HuffTable.Built, BlockTables, Accepted, Whole, Partial, Separate, Pow2, HuffTable.Allocated, CutHere;
      hide MoreLens, SizesOk, RunValue, AddRun, RepeatBase;
      AtRepeatRun();
      BuiltIsAccepted(table2, codeSize2);
      ghost var b0, a0 := br.Stream(), abs;
      var v;
      run, v := br.GetBits(numExtra);
      if !run {
        if !abs.phase.Undefined? { StuckRepeat(Cfg(), abs, b0); }
        Starve(a0, b0);
        assert Valid() by { AtRepeatRun(); }
        return;
      }
      if !abs.phase.Undefined? { StepRepeat(Cfg(), abs, b0); }
      TakeRepeat(v, b0);
    }

    method TakeRepeat(v: nat, ghost b0: bits)
      requires Common() && |tableSizes| == 3 && SizesOk(tableSizes) && |codeSize2| == 19 && table2.Built(codeSize2)
      requires 16 <= dist <= 18 && (dist == 16 ==> lenCodes != [])
      requires abs.phase.Undefined? || (Win() && Block() && StepsTo(b0, MoreLens(tableSizes, codeSize2,
        AddRun(lenCodes, RunValue(lenCodes, dist), v + RepeatBase(dist)))))
      modifies this, table0, table0.lookUp, table0.tree, table1, table1.lookUp, table1.tree
      ensures Valid() && Kept() && outCur == old(outCur) && Rank() < PcRank(RepeatRun)
      ensures Follows(Cfg(), old(abs), b0, abs, br.Stream())
    {
      hide BitReader.Stream, BitReader.Valid, Step, Follows, WindowOk, HuffTable.Built, BlockTables, Separate, Safe,
           Tied, Placed, PcRank;
      hide MoreLens, SizesOk, RunValue, AddRun, RepeatBase, CutHere;
      Ranks();
      lenCodes := AddRun(lenCodes, RunValue(lenCodes, dist), v + RepeatBase(dist));
      Advance(Cfg(), b0);
      NextCodeLen();
    }

    // ----- the symbols of a block

    /** The symbol loop near the end of the input or of the output space. */
    method DecodeSlow() returns (run: bool)
      requires Valid() && pc.DecodeLit?
      modifies this, br
      ensures Valid() && Kept() && (run ==> Progress()) && (!run ==> StopOk())
      ensures Follows(Cfg(), old(abs), old(br.Stream()), abs, br.Stream())
    {
      hide BitReader.Stream, BitReader.Valid, PcRank, Safe, Tied, Placed, Step, Follows, WindowOk, Stuck, LeVal,
           Byte, HuffTable.Built, Accepted, Whole, Partial, Separate, Pow2, HuffTable.Allocated, CutHere;
      hide DecodeSym, AfterSymbol, EndBlock;
      AtDecodeLit();
      TablesAccepted();
      ghost var b0, a0 := br.Stream(), abs;
      var sym;
      run, sym := br.HuffDecode(table0, codeSize0);
      if !run {
        if !abs.phase.Undefined? { StuckSym(Cfg(), abs, b0); }
        Starve(a0, b0);
        AtDecodeLit();
        return;
      }
      if !abs.phase.Undefined? { StepLiteral(Cfg(), abs, b0); }
      Ranks();
      TakeSymbol(sym, b0);
    }

    lemma TablesAccepted()
      requires BlockTables()
      ensures CodesOk(Codes())
    {
    }

    /** What a decoded literal/length symbol leads to. */
    method TakeSymbol(sym: nat, ghost b0: bits)
      requires Common() && BlockTables() && (sym < |codeSize0| || sym == 0)
      requires abs.phase.Undefined?
        || (Win() && Block() && (StepsTo(b0, Undefined) || StepsTo(b0, AfterSymbol(Cfg(), final, Codes(), sym))))
      modifies this`abs, this`pc, this`counter, this`numExtra
      ensures Valid() && !pc.DecodeLit? && !pc.Start? && (sym < 256 <==> pc.PutLiteral?)
      ensures Follows(Cfg(), old(abs), b0, abs, br.Stream())
    {
      hide BitReader.Stream, BitReader.Valid, BlockTables, Step, Follows, AfterSymbol, Separate, WindowOk;
      Advance(Cfg(), b0);
      StartSymbol(sym);
    }

    method StartSymbol(sym: nat)
      requires Common() && BlockTables() && (sym < |codeSize0| || sym == 0)
      requires abs.phase.Undefined? || (Win() && abs.phase == AfterSymbol(Cfg(), final, Codes(), sym) && Block())
      modifies this`pc, this`counter, this`numExtra
      ensures Valid() && !pc.DecodeLit? && !pc.Start? && (sym < 256 <==> pc.PutLiteral?)
    {
      hide Safe, Tied, Placed, WindowOk, HuffTable.Built, EndBlock, BlockTables, LengthBase, LengthExtraBits;
      TablesBuilt();
      counter := sym;
      if sym < 256 {
        pc := PutLiteral;
        AtPutLiteral();
      } else if sym == 256 {
        EndOfBlock();
        AfterBlock();
      } else if sym <= 285 {
        numExtra, counter := LengthExtraBits(sym), LengthBase(sym);
        pc := LenBits;
        assert Valid() by { AtLenBits(); }
      } else {
        pc := Gone;
        GoneIsValid();
      }
    }

    lemma GoneIsValid()
      requires pc.Gone? && Common() && abs.phase.Undefined?
      ensures Valid()
    {
    }

    method PutLit() returns (run: bool)
      requires Valid() && pc.PutLiteral?
      modifies this, br, outBuf
      ensures Valid() && Kept() && (run ==> Progress()) && (!run ==> StopOk())
      ensures Follows(Cfg(), old(abs), old(br.Stream()), abs, br.Stream())
    {
      hide BitReader.Stream, BitReader.Valid, PcRank, Safe, Tied, Placed, Step, Follows, WindowOk, Stuck, LeVal,
           Byte, HuffTable.Built, Accepted, Whole, Partial, Separate, Pow2, HuffTable.Allocated, CutHere;
      AtPutLiteral();
      TablesAccepted();
      ghost var b0, a0 := br.Stream(), abs;
      if outCur >= outEnd {
        Full(a0, b0);
        assert Valid() by { AtPutLiteral(); }
        return false;
      }
      if !abs.phase.Undefined? { StepWrite(Cfg(), abs, b0); }
      Put(counter, b0);
      pc := DecodeLit;
      AtDecodeLit();
      run := true;
    }

    /** The fast loop: enough input and output for two symbols. */
    method DecodeFast()
      requires Valid() && pc.DecodeLit? && |br.inBuf| - br.inCur >= 4 && outEnd - outCur >= 2
      modifies this, br, outBuf
      ensures Valid() && Kept() && Progress()
      ensures Follows(Cfg(), old(abs), old(br.Stream()), abs, br.Stream())
    {
      hide BitReader.Stream, BitReader.Valid, PcRank, Safe, Tied, Placed, Step, Follows, WindowOk, HuffTable.Built,
           BlockTables, Win, Separate, Pow2, HuffTable.Allocated;
      ghost var b0, a0 := br.Stream(), abs;
      AtDecodeLit();
      br.RefillFirst();
      AtDecodeLit();
      DecodeOne();
      if pc.DecodeLit? {
        ghost var b1, a1 := br.Stream(), abs;
        AtDecodeLit();
        br.RefillSecond();
        AtDecodeLit();
        DecodeOne();
        FollowsTrans(Cfg(), a0, b0, a1, b1, abs, br.Stream());
      }
    }

    /** One symbol of the fast loop; a literal is written at once. */
    method DecodeOne()
      requires Valid() && pc.DecodeLit? && br.numBits >= 15 && outCur < outEnd
      modifies this, br, outBuf
      ensures Valid() && Kept() && br.inCur == old(br.inCur) && Left() <= old(Left())
      ensures if pc.DecodeLit? then outCur == old(outCur) + 1 && br.numBits >= old(br.numBits) - 15
              else outCur == old(outCur) && Left() < old(Left())
      ensures Follows(Cfg(), old(abs), old(br.Stream()), abs, br.Stream())
    {
      hide BitReader.Stream, BitReader.Valid, PcRank, Safe, Tied, Placed, Step, Follows, WindowOk, Stuck, LeVal,
           Byte, HuffTable.Built, Accepted, Whole, Partial, Separate, Pow2, HuffTable.Allocated, CutHere;
      hide DecodeSym, AfterSymbol, EndBlock, BlockTables;
      AtDecodeLit();
      TablesBuilt();
      ghost var b0, a0 := br.Stream(), abs;
      var sym := br.Take(table0, codeSize0);
      if !abs.phase.Undefined? { StepLiteral(Cfg(), abs, b0); }
      TakeSymbol(sym, b0);
      if sym < 256 {
        ghost var b1, a1 := br.Stream(), abs;
        PutFast();
        FollowsTrans(Cfg(), a0, b0, a1, b1, abs, b1);
      }
    }

    lemma TablesBuilt()
      requires BlockTables()
      ensures |codeSize0| <= 288 && table0.Built(codeSize0) && |codeSize1| <= 32 && table1.Built(codeSize1)
      ensures CodesOk(Codes())
    {
    }

    method PutFast()
      requires Valid() && pc.PutLiteral? && outCur < outEnd
      modifies this, outBuf
      ensures Valid() && Kept() && pc.DecodeLit? && outCur == old(outCur) + 1
      ensures Follows(Cfg(), old(abs), br.Stream(), abs, br.Stream())
    {
      hide BitReader.Stream, BitReader.Valid, PcRank, Safe, Tied, Placed, Step, Follows, WindowOk, Stuck, LeVal,
           Byte, HuffTable.Built, Accepted, Whole, Partial, Separate, Pow2, HuffTable.Allocated, CutHere;
      hide BlockTables;
      AtPutLiteral();
      TablesBuilt();
      ghost var b1 := br.Stream();
      if !abs.phase.Undefined? { StepWrite(Cfg(), abs, b1); }
      Put(counter, b1);
      pc := DecodeLit;
      AtDecodeLit();
    }

    method ReadLength() returns (run: bool)
      requires Valid() && pc.LenBits?
      modifies this, br
      ensures Valid() && Kept() && (run ==> Progress()) && (!run ==> StopOk())
      ensures Follows(Cfg(), old(abs), old(br.Stream()), abs, br.Stream())
    {
      hide BitReader.Stream, BitReader.Valid, PcRank, Safe, Tied, Placed, Step, Follows, WindowOk, Stuck, LeVal,
           Byte, HuffTable.Built, Accepted, Whole, Partial, Separate, Pow2, HuffTable.Allocated, CutHere;
      hide LengthBase, LengthExtraBits, BlockTables;
      AtLenBits();
      TablesBuilt();
      Ranks();
      ghost var b0, a0 := br.Stream(), abs;
      var v;
      run, v := br.GetExtra(numExtra);
      if !run {
        if !abs.phase.Undefined? { StuckExtra(Cfg(), abs, b0); }
        Starve(a0, b0);
        assert Valid() by { AtLenBits(); }
        return;
      }
      if !abs.phase.Undefined? { StepLength(Cfg(), abs, b0); }
      TakeLength(v, b0);
    }

    method TakeLength(v: nat, ghost b0: bits)
      requires Common() && BlockTables() && counter >= 3
      requires abs.phase.Undefined? || (Win() && Block() && StepsTo(b0, Distance(Codes(), counter + v)))
      modifies this`abs, this`pc, this`counter
      ensures Valid() && pc.DecodeDist? && Follows(Cfg(), old(abs), b0, abs, br.Stream())
    {
      hide BitReader.Stream, BitReader.Valid, Step, Follows, Safe, Tied, Placed, WindowOk, BlockTables, Separate;
      Advance(Cfg(), b0);
      counter := counter + v;
      pc := DecodeDist;
      AtDecodeDist();
    }

    method ReadDistance() returns (run: bool)
      requires Valid() && pc.DecodeDist?
      modifies this, br
      ensures Valid() && Kept() && (run ==> Progress()) && (!run ==> StopOk())
      ensures Follows(Cfg(), old(abs), old(br.Stream()), abs, br.Stream())
    {
      hide BitReader.Stream, BitReader.Valid, PcRank, Safe, Tied, Placed, Step, Follows, WindowOk, Stuck, LeVal,
           Byte, HuffTable.Built, Accepted, Whole, Partial, Separate, Pow2, HuffTable.Allocated, CutHere;
      hide DecodeSym, AfterDistSym;
      AtDecodeDist();
      TablesAccepted();
      Ranks();
      ghost var b0, a0 := br.Stream(), abs;
      var sym;
      run, sym := br.HuffDecode(table1, codeSize1);
      if !run {
        if !abs.phase.Undefined? { StuckSym(Cfg(), abs, b0); }
        Starve(a0, b0);
        assert Valid() by { AtDecodeDist(); }
        return;
      }
      if !abs.phase.Undefined? { StepDist(Cfg(), abs, b0); }
      TakeDistance(sym, b0);
    }

    method TakeDistance(sym: nat, ghost b0: bits)
      requires Common() && BlockTables() && (sym < |codeSize1| || sym == 0) && counter >= 3
      requires abs.phase.Undefined?
        || (Win() && Block() && (StepsTo(b0, Undefined) || StepsTo(b0, AfterDistSym(Codes(), counter, sym))))
      modifies this`abs, this`pc, this`dist, this`numExtra
      ensures Valid() && !pc.Start? && (sym == 0 ==> pc.DistBits?)
      ensures Follows(Cfg(), old(abs), b0, abs, br.Stream())
    {
      hide BitReader.Stream, BitReader.Valid, BlockTables, Step, Follows, AfterDistSym, Separate, WindowOk;
      Advance(Cfg(), b0);
      StartDistance(sym);
    }

    method StartDistance(sym: nat)
      requires Common() && BlockTables() && (sym < |codeSize1| || sym == 0) && counter >= 3
      requires abs.phase.Undefined? || (Win() && abs.phase == AfterDistSym(Codes(), counter, sym) && Block())
      modifies this`pc, this`dist, this`numExtra
      ensures Valid() && !pc.Start? && (sym == 0 ==> pc.DistBits?)
    {
      hide Safe, Tied, Placed, WindowOk, HuffTable.Built, BlockTables, DistBase, DistExtraBits;
      TablesBuilt();
      if sym < 30 {
        numExtra, dist := DistExtraBits(sym), DistBase(sym);
        pc := DistBits;
        AtDistBits();
      } else {
        pc := Gone;
        GoneIsValid();
      }
    }

    method ReadDistBits() returns (run: bool)
      requires Valid() && pc.DistBits?
      modifies this, br
      ensures Valid() && Kept() && (run ==> Progress()) && (!run ==> StopOk())
      ensures Follows(Cfg(), old(abs), old(br.Stream()), abs, br.Stream())
    {
      hide BitReader.Stream, BitReader.Valid, PcRank, Safe, Tied, Placed, Step, Follows, WindowOk, Stuck, LeVal,
           Byte, HuffTable.Built, Accepted, Whole, Partial, Separate, Pow2, HuffTable.Allocated, CutHere;
      hide DistBase, DistExtraBits, AfterDistance, BlockTables;
      AtDistBits();
      TablesBuilt();
      Ranks();
      ghost var b0, a0 := br.Stream(), abs;
      var v;
      run, v := br.GetExtra(numExtra);
      if !run {
        if !abs.phase.Undefined? { StuckExtra(Cfg(), abs, b0); }
        Starve(a0, b0);
        assert Valid() by { AtDistBits(); }
        return;
      }
      if !abs.phase.Undefined? { StepDistExtra(Cfg(), abs, b0); }
      TakeDistExtra(v, b0);
    }

    method TakeDistExtra(v: nat, ghost b0: bits)
      requires Common() && BlockTables() && counter >= 3 && dist >= 1
      requires abs.phase.Undefined?
        || (Win() && Block() && StepsTo(b0, AfterDistance(Cfg(), Codes(), counter, dist + v, |abs.out|)))
      modifies this`abs, this`dist, this`distFrom, this`pc
      ensures Valid() && (pc.CopyMatch? || pc.HasFailed?)
      ensures Follows(Cfg(), old(abs), b0, abs, br.Stream())
    {
      hide BitReader.Stream, BitReader.Valid, Step, Follows, WindowOk, BlockTables, AfterDistance, Separate;
      dist := dist + v;
      Advance(Cfg(), b0);
      CheckDistance();
    }

    lemma DoneFacts()
      requires Valid() && pc.AllDone? && !abs.phase.Undefined?
      ensures abs.phase == Done(zAdler32)
    {
      hide Safe, Placed, BlockTables;
    }

    lemma FailedFacts()
      requires Valid() && pc.HasFailed? && !abs.phase.Undefined?
      ensures abs.phase.Failed? || cutOff
    {
      hide Safe, Placed, BlockTables;
    }

    lemma WinLength()
      requires Win()
      ensures |abs.out| == base + outCur && (!wrap ==> base == 0)
    {
    }

    /** In flat mode, a distance that reaches back before the output is an error. */
    method CheckDistance()
      requires Common() && BlockTables() && counter >= 3 && dist >= 1
      requires abs.phase.Undefined? || (Win() && Block()
        && abs.phase == AfterDistance(Cfg(), Codes(), counter, dist, |abs.out|))
      modifies this`pc, this`distFrom
      ensures Valid() && (pc.CopyMatch? || pc.HasFailed?) && distFrom == outCur
    {
      hide Safe, Tied, Placed, HuffTable.Built, BlockTables, WindowOk;
      if !abs.phase.Undefined? { WinLength(); }
      distFrom := outCur;
      if dist > distFrom && !wrap {
        pc := HasFailed;
        AtHasFailed();
      } else {
        pc := CopyMatch;
        assert Valid() by { AtCopyMatch(); }
      }
    }

    // ----- matches

    /** Chooses between the suspendable byte copy and the three-byte loop. */
    method CopyWhole()
      requires Valid() && pc.CopyMatch?
      modifies this, br, outBuf
      ensures Valid() && Kept() && Progress()
      ensures Follows(Cfg(), old(abs), old(br.Stream()), abs, br.Stream())
    {
      hide BitReader.Stream, BitReader.Valid, PcRank, Safe, Tied, Placed, Step, Follows, WindowOk, HuffTable.Built,
           BlockTables, Win, SourceIndex, Separate, Pow2, HuffTable.Allocated, CutHere;
      AtCopyMatch();
      Ranks();
      distFrom := outCur;
      var src := SourceIndex(distFrom, dist, wrap, outBuf.Length);
      SourceRange(distFrom, dist, wrap, outBuf.Length);
      if (if outCur > src then outCur else src) + counter > outEnd {
        pc := CopyBytes;
        assert Valid() by { AtCopyBytes(); }
        FollowsRefl(Cfg(), abs, br.Stream());
      } else {
        assert Valid() by { AtCopyMatch(); }
        CopyFast(src);
      }
    }

    /** The invariant in the middle of a match: `counter` bytes of it are still to come. */
    ghost predicate Copying()
      reads this, br, table0, table0.lookUp, table0.tree, table1, table1.lookUp, table1.tree, outBuf
    {
      && Common() && BlockTables() && 1 <= dist && (wrap || dist <= outCur) && outBuf.Length > 0
      && (abs.phase.Undefined? || (Win() && Block() && abs.phase == Copy(Codes(), counter, dist)
                                   && dist <= |abs.out| && (wrap ==> dist <= outBuf.Length)))
    }

    /** Copies one byte from `src`, the place that `from` designates. */
    method CopyOne(src: nat, ghost from: nat)
      requires Copying() && counter > 0 && outCur < outEnd && src == SourceIndex(from, dist, wrap, outBuf.Length)
      requires src < outBuf.Length && SameSlot(from, outCur, wrap, outBuf.Length)
      modifies this`outCur, this`abs, this`counter, outBuf
      ensures Copying() && outCur == old(outCur) + 1 && counter == old(counter) - 1
      ensures Follows(Cfg(), old(abs), br.Stream(), abs, br.Stream())
    {
      hide Step, Follows, WindowOk, HuffTable.Built, BlockTables, SourceIndex, Separate, HuffTable.Allocated, Pow2,
           BitReader.Valid, BitReader.Stream, Stuck, LeVal, Byte, Accepted, CutHere;
      var c := outBuf[src];
      TablesBuilt();
      if !abs.phase.Undefined? {
        WindowSource(outBuf[..], outCur, base, wrap, abs.out, dist, from);
        StepWrite(Cfg(), abs, br.Stream());
      }
      Put(c, br.Stream());
      counter := counter - 1;
    }

    /** The match is complete. */
    method EndCopy()
      requires Copying() && counter == 0
      modifies this`pc, this`abs
      ensures Valid() && pc.DecodeLit? && Follows(Cfg(), old(abs), br.Stream(), abs, br.Stream())
    {
      hide BitReader.Stream, BitReader.Valid, PcRank, Safe, Tied, Placed, Step, Follows, WindowOk, HuffTable.Built,
           BlockTables, Separate, Pow2, HuffTable.Allocated;
      TablesBuilt();
      ghost var b := br.Stream();
      assert b[0..] == b;
      if !abs.phase.Undefined? { StepWrite(Cfg(), abs, b); }
      Advance(Cfg(), b);
      pc := DecodeLit;
      AtDecodeLit();
    }

    /** The three-byte copy loop; source and destination stay clear of the end of the buffer. */
    method CopyFast(from: nat)
      requires Valid() && pc.CopyMatch? && from == SourceIndex(outCur, dist, wrap, outBuf.Length)
      requires from + counter <= outEnd && outCur + counter <= outEnd
      modifies this, br, outBuf
      ensures Valid() && Kept() && Progress()
      ensures Follows(Cfg(), old(abs), old(br.Stream()), abs, br.Stream())
    {
      hide Safe, Tied, Placed, Step, Follows, WindowOk, HuffTable.Built, BlockTables, Win, SourceIndex, Separate,
           HuffTable.Allocated, Pow2, BitReader.Valid, BitReader.Stream, Stuck, LeVal, Byte, Accepted, CutHere;
      AtCopyMatch();
      ghost var b, a0, o0, c0 := br.Stream(), abs, outCur, counter;
      FollowsRefl(Cfg(), abs, b);
      CopyThree(from, a0);
      var src := from + 3;
      while counter > 2
        invariant Copying() && Kept() && br.Stream() == b && outCur + counter == o0 + c0 && outCur > o0
        invariant src == from + (outCur - o0) && dist == old(dist) && cutOff == old(cutOff)
        invariant Follows(Cfg(), a0, b, abs, b)
      {
        SourceShift(o0, dist, wrap, outBuf.Length, from, outCur - o0);
        CopyThree(src, a0);
        src := src + 3;
      }
      if counter > 0 { SourceShift(o0, dist, wrap, outBuf.Length, from, outCur - o0); }
      CopyTail(src, a0);
      ghost var a3 := abs;
      EndCopy();
      FollowsTrans(Cfg(), a0, b, a3, b, abs, b);
    }

    /** The one or two bytes that are left over. */
    method CopyTail(src: nat, ghost a0: State)
      requires Copying() && counter <= 2 && outCur + counter <= outEnd && src + counter <= outEnd
      requires counter > 0 ==> src == SourceIndex(outCur, dist, wrap, outBuf.Length)
      requires Follows(Cfg(), a0, br.Stream(), abs, br.Stream())
      modifies this`outCur, this`abs, this`counter, outBuf
      ensures Copying() && outCur == old(outCur + counter) && counter == 0
      ensures Follows(Cfg(), a0, br.Stream(), abs, br.Stream())
    {
      hide Step, Follows, WindowOk, HuffTable.Built, BlockTables, Win, SourceIndex;
      if counter > 0 {
        ghost var b, a1, o := br.Stream(), abs, outCur;
        CopyOne(src, outCur);
        FollowsTrans(Cfg(), a0, b, a1, b, abs, b);
        if counter > 0 {
          ghost var a2 := abs;
          SourceShift(o, dist, wrap, outBuf.Length, src, 1);
          CopyOne(src + 1, outCur);
          FollowsTrans(Cfg(), a0, b, a2, b, abs, b);
        }
      }
    }

    method CopyThree(src: nat, ghost a0: State)
      requires Copying() && counter >= 3 && outCur + counter <= outEnd && src + counter <= outEnd
      requires src == SourceIndex(outCur, dist, wrap, outBuf.Length)
        && Follows(Cfg(), a0, br.Stream(), abs, br.Stream())
      modifies this`outCur, this`abs, this`counter, outBuf
      ensures Copying() && outCur == old(outCur) + 3 && counter == old(counter) - 3
      ensures Follows(Cfg(), a0, br.Stream(), abs, br.Stream())
    {
      hide Step, Follows, WindowOk, HuffTable.Built, BlockTables, Win, SourceIndex;
      ghost var b, a1, o := br.Stream(), abs, outCur;
      CopyOne(src, outCur);
      ghost var a2 := abs;
      SourceShift(o, dist, wrap, outBuf.Length, src, 1);
      CopyOne(src + 1, outCur);
      ghost var a3 := abs;
      SourceShift(o, dist, wrap, outBuf.Length, src, 2);
      CopyOne(src + 2, outCur);
      FollowsTrans(Cfg(), a0, b, a1, b, a2, b);
      FollowsTrans(Cfg(), a0, b, a2, b, a3, b);
      FollowsTrans(Cfg(), a0, b, a3, b, abs, b);
    }

    method CopyTurn()
      requires Copying() && counter > 0 && outCur < outEnd && SameSlot(distFrom, outCur, wrap, outBuf.Length)
      modifies this`outCur, this`abs, this`counter, this`distFrom, outBuf
      ensures Copying() && outCur == old(outCur) + 1 && counter == old(counter) - 1
      ensures SameSlot(distFrom, outCur, wrap, outBuf.Length) && (wrap || dist <= distFrom)
      ensures Follows(Cfg(), old(abs), br.Stream(), abs, br.Stream())
    {
      hide Step, Follows, WindowOk, HuffTable.Built, BlockTables, Win, SameSlot, SourceIndex;
      if !wrap { FlatSlot(distFrom, outCur, outBuf.Length); }
      var src := SourceIndex(distFrom, dist, wrap, outBuf.Length);
      SourceRange(distFrom, dist, wrap, outBuf.Length);
      NextSlot(distFrom, outCur, wrap, outBuf.Length);
      CopyOne(src, distFrom);
      distFrom := distFrom + 1;
    }

    /** One turn of the byte copy, which can be suspended when the output space is used up. */
    method CopyByte() returns (run: bool)
      requires Valid() && pc.CopyBytes?
      modifies this, br, outBuf
      ensures Valid() && Kept() && (run ==> Progress()) && (!run ==> StopOk())
      ensures Follows(Cfg(), old(abs), old(br.Stream()), abs, br.Stream())
    {
      hide BitReader.Stream, BitReader.Valid, PcRank, Safe, Tied, Placed, Step, Follows, WindowOk, HuffTable.Built,
           BlockTables, Win, SameSlot, SourceIndex, Separate, Pow2, HuffTable.Allocated, CutHere;
      AtCopyBytes();
      ghost var b, a0 := br.Stream(), abs;
      if outCur >= outEnd {
        Full(a0, b);
        assert Valid() by { AtCopyBytes(); }
        return false;
      }
      if !wrap { FlatSlot(distFrom, outCur, outBuf.Length); }
      CopyTurn();
      if counter == 0 {
        ghost var a1 := abs;
        EndCopy();
        FollowsTrans(Cfg(), a0, b, a1, b, abs, b);
      } else {
        assert Valid() by { AtCopyBytes(); }
      }
      run := true;
    }

    // ----- a call

    /** Runs from the current point of the program to the next one. */
    method Run() returns (run: bool)
      requires Valid()
      modifies this, br, table0, table0.lookUp, table0.tree, table1, table1.lookUp, table1.tree,
               table2, table2.lookUp, table2.tree, outBuf
      ensures Valid() && Kept() && (run ==> Progress())
      ensures !pc.Start? && (!run ==> StopOk())
      ensures old(pc).HasFailed? ==> !run && pc.HasFailed? && status.StatusFailed?
      ensures old(pc).HasFailed? ==>
        abs == old(abs) && unchanged(br) && cutOff == old(cutOff) && outCur == old(outCur)
      ensures Follows(Cfg(), old(abs), old(br.Stream()), abs, br.Stream())
    {
      hide BitReader.Stream, BitReader.Valid, PcRank, Safe, Tied, Placed, Step, Follows, Stuck, BlockTables, Win,
           HuffTable.Built, Separate, Pow2, HuffTable.Allocated;
      run := true;
      match pc
      case Start => BeginStream();
      case ZHdr0 => run := ReadZHdr0();
      case ZHdr1 => run := ReadZHdr1();
      case BlockHead => run := ReadBlockHead();
      case SkipBits => AlignToByte();
      case RawHeader => run := ReadRawHeader();
      case StoredBits => run := ReadStoredBits();
      case StoredPut => run := PutStored();
      case StoredCopy => run := CopyStored();
      case TableSize => run := ReadTableSize();
      case ClSize => run := ReadClSize();
      case CodeLen => run := ReadCodeLen();
      case RepeatRun => run := ReadRepeat();
      case DecodeLit => run := DecodeSymbol();
      case PutLiteral => run := PutLit();
      case LenBits => run := ReadLength();
      case DecodeDist => run := ReadDistance();
      case DistBits => run := ReadDistBits();
      case CopyMatch => CopyWhole();
      case CopyBytes => run := CopyByte();
      case TrailerSkip => AlignTrailer();
      case TrailerByte => run := ReadTrailer();
      case AllDone => run := Stop(StatusDone);
      case HasFailed => run := Stop(StatusFailed);
      case Gone => GoneIsLost(); run := Stop(Unspecified);
    }

    lemma GoneIsLost()
      requires Valid() && pc.Gone?
      ensures abs.phase.Undefined?
    {
    }

    method Stop(st: Status) returns (run: bool)
      requires Valid()
      modifies this`status
      ensures Valid() && Kept() && status == st && !run && abs == old(abs) && pc == old(pc) && cutOff == old(cutOff)
      ensures Follows(Cfg(), old(abs), old(br.Stream()), abs, br.Stream())
    {
      hide Safe, Tied, Placed, Step, Follows, Win, CutHere;
      status, run := st, false;
      FollowsRefl(Cfg(), abs, br.Stream());
    }

    /** The symbol loop: fast while there is plenty of input and output. */
    method DecodeSymbol() returns (run: bool)
      requires Valid() && pc.DecodeLit?
      modifies this, br, outBuf
      ensures Valid() && Kept() && (run ==> Progress()) && (!run ==> StopOk())
      ensures Follows(Cfg(), old(abs), old(br.Stream()), abs, br.Stream())
    {
      hide BitReader.Stream, BitReader.Valid, PcRank, Safe, Tied, Placed, Step, Follows, Stuck, BlockTables, Win,
           HuffTable.Built, Separate, Pow2, HuffTable.Allocated, CutHere;
      if |br.inBuf| - br.inCur < 4 || outEnd - outCur < 2 {
        run := DecodeSlow();
      } else {
        DecodeFast();
        run := true;
      }
    }

    /** The bits left in the bit buffer between two calls. */
    ghost function Buffered(): bits
      reads br
    {
      BitsOf(br.bitBuf, br.numBits)
    }

    /** The checksum covers all output so far. */
    ghost predicate Summed()
      reads this
    {
      && Reduced(Unpack(checkAdler32)) && (pc.Start? && !abs.phase.Undefined? ==> checkAdler32 == 1)
      && (zlib && !pc.HasFailed? && !abs.phase.Undefined? ==> checkAdler32 == Pack(Adler(Sums(1, 0), abs.out)))
    }

    /** The output buffer that a caller may pass: in flat mode the position goes on, in wrapping
        mode it starts over when the end of the window was reached; the contents are still there. */
    ghost predicate Accepts(out: array<byte>, outNext: nat, outSize: nat, zl: bool, wr: bool)
      reads this, outBuf, out
    {
      && (pc.Start? || (zl == zlib && wr == wrap))
      && outNext + outSize <= out.Length
      && (if wr then
            outNext + outSize == out.Length > 0
            && (pc.Start? || out.Length == outBuf.Length)
            && (outNext == outCur || (outCur == out.Length && outNext == 0))
          else outNext == outCur)
      && (abs.phase.Undefined? || WindowOk(out[..], outNext, base + outCur - outNext, wr, abs.out))
    }

    /** Sets up the locals of a call. */
    method SetBuffers(inp: seq<byte>, out: array<byte>, outNext: nat, outSize: nat, more: bool)
      requires Valid() && Accepts(out, outNext, outSize, zlib, wrap)
      modifies this`base, this`outBuf, this`outCur, this`outEnd, this`hasMore, br`inBuf, br`inCur
      ensures Valid() && br.inBuf == inp && br.inCur == 0 && outBuf == out && outCur == outNext
        && outEnd == outNext + outSize
      ensures hasMore == more && br.Stream() == old(Buffered()) + ByteBits(inp) && base + outNext == old(base + outCur)
    {
      hide Safe, Tied, Placed, WindowOk, SameSlot, BitsOf, ByteBits, BitReader.Valid, Separate;
      NewPlace(out, outNext, outSize);
      Attach(inp, out, outNext, outSize, more, base + outCur - outNext);
      PlaceKept();
    }

    method Attach(inp: seq<byte>, out: array<byte>, outNext: nat, outSize: nat, more: bool, ghost lap: nat)
      requires br.Valid()
      modifies this`base, this`outBuf, this`outCur, this`outEnd, this`hasMore, br`inBuf, br`inCur
      ensures br.Valid() && br.inBuf == inp && br.inCur == 0 && br.Stream() == old(Buffered()) + ByteBits(inp)
      ensures outBuf == out && outCur == outNext && outEnd == outNext + outSize && hasMore == more && base == lap
    {
      hide BitsOf, ByteBits, Pow2;
      br.SetInput(inp);
      outBuf, outCur, outEnd, hasMore, base := out, outNext, outNext + outSize, more, lap;
    }

    lemma PlaceKept()
      requires pc.Start? ==> outCur == 0 && base == 0
      requires pc.CopyMatch? && !wrap ==> dist <= outCur
      requires pc.CopyBytes? ==>
        outBuf.Length > 0 && SameSlot(distFrom, outCur, wrap, outBuf.Length) && (wrap || dist <= distFrom)
      requires pc.CopyMatch? || pc.CopyBytes? ==> InWindow()
      ensures Placed()
    {
      hide SameSlot;
    }

    /** The program's position in the output survives the change of buffer. */
    lemma NewPlace(out: array<byte>, outNext: nat, outSize: nat)
      requires Valid() && Accepts(out, outNext, outSize, zlib, wrap)
      ensures pc.Start? ==> outNext == outCur == 0 && base == 0
      ensures pc.CopyMatch? && !wrap ==> dist <= outNext
      ensures pc.CopyBytes? ==>
        out.Length > 0 && SameSlot(distFrom, outNext, wrap, out.Length) && (wrap || dist <= distFrom)
      ensures pc.CopyMatch? || pc.CopyBytes? ==> InWindow() && (wrap ==> out.Length == outBuf.Length)
    {
      hide Safe, Tied, WindowOk, SameSlot, BitsOf, ByteBits, BitReader.Valid;
      if pc.CopyBytes? {
        AtCopyBytes();
        if !wrap { FlatSlot(distFrom, outCur, outBuf.Length); }
        Reslot(distFrom, outCur, outNext, wrap, outBuf.Length, out.Length);
      }
    }

    /** The same for the first call, which also fixes the flags. */
    method SetFirst(inp: seq<byte>, out: array<byte>, outNext: nat, outSize: nat, zl: bool, wr: bool, more: bool)
      requires Valid() && pc.Start? && Accepts(out, outNext, outSize, zl, wr)
      modifies this`base, this`outBuf, this`outCur, this`outEnd, this`hasMore, this`zlib, this`wrap, this`abs,
        br`inBuf, br`inCur
      ensures Valid() && br.inBuf == inp && br.inCur == 0 && outBuf == out && outCur == outNext
        && outEnd == outNext + outSize
      ensures zlib == zl && wrap == wr && hasMore == more && br.Stream() == old(Buffered()) + ByteBits(inp)
      ensures abs == (if old(abs).phase.Undefined? then old(abs) else Begin(Flat(zl)))
        && base + outNext == old(base + outCur)
    {
      hide Safe, Tied, Placed, WindowOk, BitsOf;
      AtStart();
      Attach(inp, out, outNext, outSize, more, 0);
      zlib, wrap := zl, wr;
      if !abs.phase.Undefined? { abs := Begin(Flat(zl)); }
      AtStart();
    }

    /** `tinfl_decompress`: runs until the end of the stream, of the input or of the output space. */
    method Decompress(inp: seq<byte>, out: array<byte>, outNext: nat, outSize: nat, zl: bool, wr: bool, more: bool)
      returns (st: Status, inUsed: nat, outUsed: nat)
      requires Valid() && Summed() && Accepts(out, outNext, outSize, zl, wr)
      modifies this, br, table0, table0.lookUp, table0.tree, table1, table1.lookUp, table1.tree,
               table2, table2.lookUp, table2.tree, out
      ensures wr && !IsPow2(outNext + outSize) <==> st.BadParam?
      ensures st.BadParam? ==> Valid() && Summed() && inUsed == outUsed == 0 && abs == old(abs)
      ensures !st.BadParam? ==>
        && Valid() && Summed() && zlib == zl && wrap == wr && !pc.Start?
        && br.inBuf == inp && inUsed == br.inCur && outBuf == out
        && outNext + outUsed == outCur <= outEnd == outNext + outSize
        && Ended(st, more, old(cutOff)) && base + outNext == old(base + outCur)
        && Follows(Mode(zl, wr, out.Length), old(First(zl, wr)), old(Buffered()) + ByteBits(inp), abs, br.Stream())
    {
      hide Common, Safe, Tied, Placed, Step, Follows, Stuck, Win, WindowOk, Pack, Unpack, Adler, BitReader.Valid,
           BitReader.Stream;
      hide Accepts, Hungry;
      if wr && !IsPow2(outNext + outSize) { return BadParam, 0, 0; }
      Enter(inp, out, outNext, outSize, zl, wr, more);
      ghost var a0, b0 := abs, br.Stream();
      RunAll(inp, out, outNext);
      EndIsIn();
      st, inUsed, outUsed := status, br.inCur, outCur - outNext;
      if zlib && !st.StatusFailed? {
        SumOutput(out, outNext, a0, b0);
        if st.StatusDone? && checkAdler32 != zAdler32 { st := AdlerMismatch; }
      }
    }

    lemma EndIsIn()
      requires Common()
      ensures outCur <= outEnd
    {
    }

    /** The start of a call. */
    method Enter(inp: seq<byte>, out: array<byte>, outNext: nat, outSize: nat, zl: bool, wr: bool, more: bool)
      requires Valid() && Summed() && Accepts(out, outNext, outSize, zl, wr)
      modifies this`base, this`outBuf, this`outCur, this`outEnd, this`hasMore, this`zlib, this`wrap, this`abs,
        br`inBuf, br`inCur
      ensures Valid() && br.inBuf == inp && br.inCur == 0 && outBuf == out && outCur == outNext
        && outEnd == outNext + outSize
      ensures zlib == zl && wrap == wr && hasMore == more && br.Stream() == old(Buffered()) + ByteBits(inp)
      ensures abs == old(First(zl, wr)) && base + outNext == old(base + outCur) && Reduced(Unpack(checkAdler32))
      ensures abs.phase.Undefined? || (|abs.out| == base + outNext
        && (!zlib || pc.HasFailed? || checkAdler32 == Pack(Adler(Sums(1, 0), abs.out))))
    {
      hide Safe, Tied, Placed, Win, WindowOk, Pack, Unpack, Adler, BitReader.Valid, BitReader.Stream;
      if pc.Start? {
        SetFirst(inp, out, outNext, outSize, zl, wr, more);
      } else {
        SetBuffers(inp, out, outNext, outSize, more);
      }
      if !abs.phase.Undefined? { WinLength(); }
      InitialSum();
    }

    /** The state of the specification machine that a call starts from. */
    ghost function First(zl: bool, wr: bool): State
      reads this
    {
      if pc.Start? && !abs.phase.Undefined? then Begin(Flat(zl)) else abs
    }

    /** The coroutine proper. */
    method RunAll(inp: seq<byte>, ghost out: array<byte>, ghost outNext: nat)
      requires Valid() && br.inBuf == inp && outBuf == out && outCur == outNext
      modifies this, br, table0, table0.lookUp, table0.tree, table1, table1.lookUp, table1.tree,
               table2, table2.lookUp, table2.tree, outBuf
      ensures Valid() && Kept() && StopOk() && !pc.Start?
      ensures old(pc).HasFailed? ==> pc.HasFailed? && status.StatusFailed?
      ensures Follows(Cfg(), old(abs), old(br.Stream()), abs, br.Stream())
    {
      hide PcRank, Safe, Tied, Placed, Step, Follows, Stuck, Win, WindowOk, BitReader.Valid, BitReader.Stream;
      ghost var a0, b0, c0 := abs, br.Stream(), cutOff;
      FollowsRefl(Cfg(), a0, b0);
      var run := true;
      while run
        invariant Valid() && Kept() && (!run ==> StopOk() && !pc.Start?)
        invariant old(pc).HasFailed? ==> pc.HasFailed? && (!run ==> status.StatusFailed?)
        invariant Follows(Cfg(), a0, b0, abs, br.Stream())
        decreases run, outEnd - outCur, Left(), Rank()
      {
        ghost var a1, b1 := abs, br.Stream();
        run := Run();
        FollowsTrans(Cfg(), a0, b0, a1, b1, abs, br.Stream());
      }
    }

    /** The checksum of the output of this call. */
    method SumOutput(out: array<byte>, outNext: nat, ghost was: State, ghost b0: bits)
      requires Valid() && out == outBuf && outNext <= outCur && Reduced(Unpack(checkAdler32)) && !pc.Start?
      requires Follows(Cfg(), was, b0, abs, br.Stream())
      requires was.phase.Undefined? || pc.HasFailed? ||
        (|was.out| == base + outNext && checkAdler32 == Pack(Adler(Sums(1, 0), was.out)))
      modifies this`checkAdler32
      ensures Valid() && Summed()
    {
      hide Safe, Tied, Pack, Unpack, Adler, BitReader.Valid, BitReader.Stream, WindowOk, Placed, Follows, Separate;
      ghost var data, before := out[outNext..outCur], was.out;
      FollowsGrows(Cfg(), was, b0, abs, br.Stream());
      if was.phase.Undefined? { FollowsUndefined(Cfg(), was, b0, abs, br.Stream()); }
      if !abs.phase.Undefined? && !pc.HasFailed? {
        WindowNew(out[..], outNext, outCur, base, wrap, before, abs.out);
        assert out[..][outNext..outCur] == data;
        AdlerConcat(Sums(1, 0), before, data);
        AdlerReduced(Sums(1, 0), before);
        PackUnpack(Adler(Sums(1, 0), before));
      }
      AdlerReduced(Unpack(checkAdler32), data);
      PackUnpack(Adler(Unpack(checkAdler32), data));
      checkAdler32 := UpdateChecksum(checkAdler32, out[outNext..outCur]);
    }

    /** What the returned status says. */
    ghost predicate Ended(st: Status, more: bool, wasCut: bool)
      reads this, br
      requires br.Valid()
    {
      (cutOff ==> wasCut || (!more && CutHere())) &&
      match st
      case NeedsMoreInput => more && Hungry()
      case Starved => !more && Hungry() && !abs.phase.StoredData?
      case HasMoreOutput => outCur == outEnd && !pc.HasFailed? && (abs.phase.Undefined? || WantsSpace(abs.phase))
      case StatusDone => pc.AllDone? && (zlib ==> checkAdler32 == zAdler32)
      case AdlerMismatch => pc.AllDone? && zlib && checkAdler32 != zAdler32
      case StatusFailed => pc.HasFailed?
      case Unspecified => abs.phase.Undefined?
      case BadParam => false
    }
  }

  /** Points that can follow each other without reading or writing come in falling rank. */
  ghost function PcRank(p: Pc): nat
  {
    match p
    case TrailerByte => 1
    case TrailerSkip => 2
    case BlockHead => 3
    case StoredCopy => 4
    case StoredPut => 5
    case StoredBits => 6
    case RawHeader => 7
    case SkipBits => 8
    case CopyBytes => 9
    case CopyMatch => 10
    case DistBits => 11
    case DecodeDist => 12
    case LenBits => 13
    case PutLiteral => 14
    case DecodeLit => 15
    case CodeLen => 16
    case RepeatRun => 1017
    case ClSize => 1018
    case TableSize => 1019
    case ZHdr1 => 1020
    case ZHdr0 => 1021
    case Start => 1022
    case _ => 0
  }

  lemma Ranks()
    ensures PcRank(CodeLen) > PcRank(DecodeLit) > PcRank(PutLiteral) > PcRank(LenBits) > PcRank(DecodeDist)
    ensures PcRank(DecodeDist) > PcRank(DistBits) > PcRank(CopyMatch) > PcRank(CopyBytes) > PcRank(SkipBits)
    ensures PcRank(SkipBits) > PcRank(RawHeader) > PcRank(StoredBits) > PcRank(StoredPut) > PcRank(StoredCopy)
    ensures PcRank(StoredCopy) > PcRank(BlockHead) > PcRank(TrailerSkip) > PcRank(TrailerByte) > PcRank(AllDone)
    ensures PcRank(RepeatRun) > PcRank(CodeLen) + 500 && PcRank(AllDone) == PcRank(HasFailed) == PcRank(Gone) == 0
  {
  }

  lemma SizeBits(k: nat, b: bits)
    requires k < 3 && |b| >= SIZE_BITS[k]
    ensures LeVal(b[..SIZE_BITS[k]]) < 32 && (k == 2 ==> LeVal(b[..SIZE_BITS[k]]) < 16)
  {
    LeValBound(b[..SIZE_BITS[k]]);
    assert Pow2(4) == 16 && Pow2(5) == 32;
  }

  lemma SizesBound(s: seq<nat>)
    requires |s| == 3 && SizesOk(s)
    ensures s[2] <= 19
  {
  }

  lemma Zigzag(i: nat)
    requires i < 19
    ensures |DEZIGZAG| == 19 && DEZIGZAG[i] < 19
  {
  }

  lemma BuiltIsAccepted(t: HuffTable, lens: Lengths)
    requires t.Built(lens)
    ensures Accepted(lens)
  {
  }

  lemma SourceRange(cur: nat, dist: nat, wrap: bool, size: nat)
    requires size > 0 && (wrap || (dist <= cur <= size && dist >= 1))
    ensures 0 <= SourceIndex(cur, dist, wrap, size) < size
  {
  }

  /** Moving on by `i` without crossing the end moves the source along. */
  lemma SourceShift(cur: nat, dist: nat, wrap: bool, size: nat, src: nat, i: nat)
    requires size > 0 && src == SourceIndex(cur, dist, wrap, size) && src + i < size
    ensures src + i == SourceIndex(cur + i, dist, wrap, size)
  {
    if wrap {
      var q := (cur - dist) / size;
      assert cur - dist == size * q + src;
      DivUnique(cur + i - dist, size, q, src + i);
    }
  }

  lemma InitialSum()
    ensures Pack(Adler(Sums(1, 0), [])) == 1
  {
  }

  lemma FlatSlot(a: nat, b: nat, n: nat)
    requires n > 0 && SameSlot(a, b, false, n)
    ensures a == b
  {
  }

  /** `((n - 1) & n) == 0` for a positive `n`. */
  predicate IsPow2(n: nat)
  {
    n == 1 || (n > 1 && n % 2 == 0 && IsPow2(n / 2))
  }

  lemma Reslot(from: nat, was: nat, now: nat, wrap: bool, n: nat, m: nat)
    requires n > 0 && m > 0 && (if wrap then n == m && (now == was || (was == n && now == 0)) else now == was)
    requires SameSlot(from, was, wrap, n)
    ensures SameSlot(from, now, wrap, m)
  {
    if wrap && now != was { WholeLap(n); }
  }

  lemma WholeLap(n: nat)
    requires n > 0
    ensures n % n == 0 % n
  {
  }

  lemma NextSlot(a: nat, b: nat, wrap: bool, n: nat)
    requires n > 0 && SameSlot(a, b, wrap, n)
    ensures SameSlot(a + 1, b + 1, wrap, n)
  {
    if wrap {
      var r := (b + 1) % n;
      var q := (b + 1) / n + a / n - b / n;
      assert a - b == n * (a / n - b / n);
      assert a + 1 == q * n + r;
      DivUnique(a + 1, n, q, r);
    }
  }

  ghost predicate SizesOk(s: seq<nat>)
  {
    && |s| <= 3
    && (|s| > 0 ==> s[0] <= 288) && (|s| > 1 ==> s[1] <= 32) && (|s| > 2 ==> s[2] <= 19)
  }

  /** `z_adler32` starts at one; each trailer byte shifts that one closer to the end of the word. */
  ghost predicate AdlerSoFar(k: nat, adler: nat, z: nat)
  {
    match k
    case 0 => adler == 0 && z == 1
    case 1 => adler < 0x100 && z == 0x100 + adler
    case 2 => adler < 0x1_0000 && z == 0x1_0000 + adler
    case 3 => adler < 0x100_0000 && z == 0x100_0000 + adler
    case _ => false
  }

  /** The next thing to do is to write a byte, perhaps after reading it. */
  predicate WantsSpace(p: Phase)
  {
    p.Literal? || p.StoredByte? || (p.StoredData? && p.left > 0) || (p.Copy? && p.len > 0 && p.dist > 0)
  }

  function Min(a: int, b: int): int { if a < b then a else b }

  /** The trailer byte shifts the checksum on; the initial one leaves the 32-bit word at the end. */
  lemma AdlerByte(k: nat, adler: nat, z: nat, v: byte)
    requires k < 4 && AdlerSoFar(k, adler, z)
    ensures var z' := (z * 256 + v) % 0x1_0000_0000;
      if k < 3 then AdlerSoFar(k + 1, adler * 256 + v, z') else z' == adler * 256 + v
  {
  }

  /** The header test as the source writes it. */
  predicate ChecksFail(wrap: bool, size: nat, cmf: byte, flg: byte)
  {
    || (cmf as int * 256 + flg) % 31 != 0 || flg / 32 % 2 == 1 || cmf % 16 != 8
    || (wrap && (Pow2(8 + cmf / 16) > LZ_DICT_SIZE || size < Pow2(8 + cmf / 16)))
  }

  lemma HeaderChecks(cfg: Config, cmf: byte, flg: byte)
    ensures HeaderOk(cfg, cmf, flg) <==> !ChecksFail(cfg.wrap, cfg.room, cmf, flg)
  {
    Exponent(cmf / 16);
  }

  lemma Exponent(e: nat)
    ensures Pow2(8 + e) > LZ_DICT_SIZE <==> e > 7
  {
    Pow2Facts();
    if e > 7 { Pow2Mono(16, 8 + e); } else { Pow2Mono(8 + e, 15); }
  }

  lemma NothingWritten(buf: seq<byte>, wrap: bool)
    ensures WindowOk(buf, 0, 0, wrap, [])
  {
  }
}
