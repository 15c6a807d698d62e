/** The machine code of a linked program. */
module DasmCode {
  import opened Numbers
  import opened DasmActions
  import opened DasmSpec
  import opened DasmItems
  import opened DasmLayout

  /** `len` bytes, least significant first, in two's complement. */
  function LE(n: int, len: nat): (s: seq<byte>)
    ensures |s| == len
    decreases len
  {
    if len == 0 then [] else [n % 256] + LE(n / 256, len - 1)
  }

  /** The final offset of the label a reference stands for. */
  function TargetOf(it: Item, b: map<int, int>): int
    requires it.at in b && b[it.at] in b
  {
    b[b[it.at]]
  }

  predicate Widened(a: Action, arg: int)
  {
    a.Imm? && (a.kind.ImmWB? || a.kind.ImmDB?) && FitsByte(arg)
  }

  /** In front of an action that patches opcode bytes there are such bytes. */
  predicate PatchesOpcode(all: seq<Item>, x: nat)
    requires x < |all|
  {
    var it := all[x];
    && (IsRel(it.a) && Shrinkable(it.a.op) == 3 ==> x >= 1 && all[x - 1].a == Lit(0xe9))
    && (IsRel(it.a) && Shrinkable(it.a.op) == 4 ==> x >= 2 && all[x - 1].a == Lit(it.a.op) && all[x - 2].a == Lit(0x0f))
    && (Widened(it.a, it.arg) ==> x >= 2 && all[x - 1].a.Lit? && all[x - 2].a.Lit?)
  }

  ghost predicate OpcodesInPlace(all: seq<Item>)
  {
    forall x | 0 <= x < |all| :: PatchesOpcode(all, x)
  }

  /** How many bytes in front of its own an action rewrites. */
  function Reach(it: Item, b: map<int, int>): nat
    requires IsRel(it.a) ==> it.at + 1 in b
  {
    if IsRel(it.a) then if b[it.at + 1] == 3 then 1 else if b[it.at + 1] == 4 then 2 else 0
    else if Widened(it.a, it.arg) then 2 else 0
  }

  ghost predicate HasWords(all: seq<Item>, b: map<int, int>)
  {
    forall x | 0 <= x < |all| ::
      (IsRef(all[x].a) ==> all[x].at in b && b[all[x].at] in b) && (IsRel(all[x].a) ==> all[x].at + 1 in b)
  }

  /** None of the actions before `n` rewrites the opcode byte of item `x`. */
  predicate Untouched(all: seq<Item>, x: nat, n: nat, b: map<int, int>)
    requires n <= |all| && HasWords(all, b)
  {
    && (x + 1 < n ==> Reach(all[x + 1], b) < 1)
    && (x + 2 < n ==> Reach(all[x + 2], b) < 2)
  }

  /** What the bytes of item `x` are once the items before `n` are encoded. */
  ghost predicate ItemBytes(all: seq<Item>, x: nat, n: nat, b: map<int, int>, fin: seq<int>, base: int, out: seq<byte>)
    requires x < n <= |all| && |fin| == |all| + 1 && HasWords(all, b) && PatchesOpcode(all, x)
  {
    var it, o, e := all[x], fin[x], fin[x + 1];
    0 <= o <= e <= |out| &&
    match it.a
    case Lit(c) => o < e && (Untouched(all, x, n, b) ==> out[o] == c)
    case Imm(kind) => out[o..e] == LE(it.arg, e - o)
      && (Widened(it.a, it.arg) ==> 2 <= o && out[o - 2] == (all[x - 2].a.c + 2) % 256)
    case RelA => out[o..e] == LE(it.arg - (base + e), e - o)
    case Space(fill) => forall j | o <= j < e :: out[j] == fill
    case Align(_) => forall j | o <= j < e :: out[j] == 0x90
    case RelLG(_, op) => BranchBytes(op, b[it.at + 1], TargetOf(it, b) - e, e, out)
    case RelPC(op) => BranchBytes(op, b[it.at + 1], TargetOf(it, b) - e, e, out)
    case ImmLG(_) => out[o..e] == LE(TargetOf(it, b) + base, e - o)
    case ImmPC => out[o..e] == LE(TargetOf(it, b) + base, e - o)
    case _ => true
  }

  /** A branch that ends at `e` and goes `disp` bytes on: near, short `jmp`, or short conditional. */
  predicate BranchBytes(op: byte, shrink: int, disp: int, e: int, out: seq<byte>)
  {
    if shrink == 3 then 2 <= e <= |out| && out[e - 2] == 0xeb && out[e - 1] == disp % 256
    else if shrink == 4 then 2 <= e <= |out| && op >= 0x10 && out[e - 2] == op - 0x10 && out[e - 1] == disp % 256
    else 4 <= e <= |out| && out[e - 4..e] == LE(disp, 4)
  }

  ghost predicate EncodedUpTo(all: seq<Item>, n: nat, b: map<int, int>, fin: seq<int>, base: int, out: seq<byte>)
    requires n <= |all| && |fin| == |all| + 1 && HasWords(all, b) && OpcodesInPlace(all)
  {
    forall x | 0 <= x < n :: ItemBytes(all, x, n, b, fin, base, out)
  }

  // ----- one item after the other

  lemma {:induction false} FinGrows(all: seq<Item>, b0: map<int, int>, b: map<int, int>, secOfs: seq<int>,
                                    fin: seq<int>, x: nat, y: nat)
    requires Laid(all, b0, b, secOfs, fin) && x <= y <= |all|
    ensures |fin| == |all| + 1 && 0 <= fin[x] <= fin[y]
    decreases y
  {
    FinSize(all, b0, b, secOfs, fin);
    if x < y {
      FinGrows(all, b0, b, secOfs, fin, x, y - 1);
      ItemShrinks(all, b0, b, secOfs, fin, y - 1);
    } else if y > 0 {
      FinGrows(all, b0, b, secOfs, fin, 0, y - 1);
      ItemShrinks(all, b0, b, secOfs, fin, y - 1);
    }
  }

  lemma LinkedHasWords(all: seq<Item>, b0: map<int, int>, b: map<int, int>, secOfs: seq<int>, fin: seq<int>)
    requires Laid(all, b0, b, secOfs, fin)
    ensures HasWords(all, b)
      && forall x | 0 <= x < |all| && IsRef(all[x].a) :: all[x].at in b0 && b[all[x].at] == b0[all[x].at]
  {
    forall x | 0 <= x < |all| && IsRef(all[x].a)
      ensures all[x].at in b && b[all[x].at] in b && (IsRel(all[x].a) ==> all[x].at + 1 in b)
      ensures all[x].at in b0 && b[all[x].at] == b0[all[x].at]
    {
      RelOk(all, x, b0, secOfs);
      ItemFacts(all, b0, b, secOfs, fin, x);
    }
  }

  /** Bytes written from here on do not disturb an item that lies before them. */
  lemma BytesStay(all: seq<Item>, x: nat, n: nat, b: map<int, int>, fin: seq<int>, base: int, out: seq<byte>,
                  out': seq<byte>, lo: nat)
    requires x < n < |all| && |fin| == |all| + 1 && HasWords(all, b) && PatchesOpcode(all, x)
    requires ItemBytes(all, x, n, b, fin, base, out) && fin[x + 1] <= lo <= |out| == |out'| && out[..lo] == out'[..lo]
    ensures ItemBytes(all, x, n + 1, b, fin, base, out')
  {
    hide LE, FitsByte, Reach, BranchBytes, Untouched;
    var it, o, e := all[x], fin[x], fin[x + 1];
    UntouchedBefore(all, x, n, b);
    forall j | 0 <= j < lo ensures out'[j] == out[j] { SameBelow(out, out', lo, j); }
    assert out'[o..e] == out[o..e];
    match it.a
    case RelLG(_, op) => BranchStays(op, b[it.at + 1], TargetOf(it, b) - e, e, out, out', lo);
    case RelPC(op) => BranchStays(op, b[it.at + 1], TargetOf(it, b) - e, e, out, out', lo);
    case _ =>
  }

  lemma UntouchedBefore(all: seq<Item>, x: nat, n: nat, b: map<int, int>)
    requires n < |all| && HasWords(all, b)
    ensures Untouched(all, x, n + 1, b) ==> Untouched(all, x, n, b)
  {
    hide HasWords, Reach;
  }

  lemma SameBelow(out: seq<byte>, out': seq<byte>, lo: nat, j: nat)
    requires j < lo <= |out| == |out'| && out[..lo] == out'[..lo]
    ensures out[j] == out'[j]
  {
    assert out[..lo][j] == out'[..lo][j];
  }

  lemma BranchStays(op: byte, shrink: int, disp: int, e: int, out: seq<byte>, out': seq<byte>, lo: nat)
    requires BranchBytes(op, shrink, disp, e, out) && e <= lo <= |out| == |out'| && out[..lo] == out'[..lo]
    ensures BranchBytes(op, shrink, disp, e, out')
  {
    hide LE;
    if shrink == 3 || shrink == 4 {
      SameBelow(out, out', lo, e - 1);
      SameBelow(out, out', lo, e - 2);
    } else {
      forall j | e - 4 <= j < e ensures out'[j] == out[j] { SameBelow(out, out', lo, j); }
      assert out'[e - 4..e] == out[e - 4..e];
    }
  }

  /** Encoding one more item, which may rewrite opcode bytes right in front of it. */
  lemma EncodeOne(all: seq<Item>, n: nat, b0: map<int, int>, b: map<int, int>, secOfs: seq<int>, fin: seq<int>,
                  base: int,
                  out: seq<byte>, out': seq<byte>, lo: nat, m: nat)
    requires m == n + 1 && Laid(all, b0, b, secOfs, fin) && n < |all| && |fin| == |all| + 1 && HasWords(all, b)
      && OpcodesInPlace(all)
    requires EncodedUpTo(all, n, b, fin, base, out) && lo <= |out| == |out'| && out[..lo] == out'[..lo]
    requires lo == fin[n] - Reach(all[n], b) && ItemBytes(all, n, m, b, fin, base, out')
    ensures EncodedUpTo(all, m, b, fin, base, out')
  {
    hide Laid, ItemBytes, LE;
    var t := Reach(all[n], b);
    assert PatchesOpcode(all, n);
    ReachIsLit(all, n, b0, b, secOfs, fin);
    forall x | 0 <= x < m ensures PatchesOpcode(all, x) && ItemBytes(all, x, m, b, fin, base, out') {
      if x < n - t {
        FinGrows(all, b0, b, secOfs, fin, x + 1, n - t);
        BytesStay(all, x, n, b, fin, base, out, out', lo);
      } else if x < n {
        assert ItemBytes(all, x, n, b, fin, base, out);
        TouchedLit(all, x, n, b, fin, base, out, out');
      }
    }
  }

  lemma TouchedLit(all: seq<Item>, x: nat, n: nat, b: map<int, int>, fin: seq<int>, base: int, out: seq<byte>,
                   out': seq<byte>)
    requires x < n < |all| && |fin| == |all| + 1 && HasWords(all, b) && PatchesOpcode(all, x)
    requires ItemBytes(all, x, n, b, fin, base, out) && |out| == |out'| && all[x].a.Lit? && n - Reach(all[n], b) <= x
    ensures ItemBytes(all, x, n + 1, b, fin, base, out')
  {
    hide HasWords;
  }

  lemma ReachIsLit(all: seq<Item>, n: nat, b0: map<int, int>, b: map<int, int>, secOfs: seq<int>, fin: seq<int>)
    requires Laid(all, b0, b, secOfs, fin) && n < |all| && HasWords(all, b) && PatchesOpcode(all, n)
    ensures |fin| == |all| + 1
    ensures var t := Reach(all[n], b);
      && t <= n && fin[n - t] == fin[n] - t && (t >= 1 ==> all[n - 1].a.Lit?) && (t >= 2 ==> all[n - 2].a.Lit?)
    ensures var it := all[n]; IsRel(it.a) ==> var s := b[it.at + 1];
      && (s == 0 || s == Shrinkable(it.a.op)) && (s == 3 ==> all[n - 1].a == Lit(0xe9))
      && (s == 4 ==> all[n - 1].a == Lit(it.a.op) && all[n - 2].a == Lit(0x0f))
  {
    hide Laid, HasWords, Shrinkable;
    FinSize(all, b0, b, secOfs, fin);
    if IsRel(all[n].a) { ShrinkIs(all, b0, b, secOfs, fin, n); }
    if n >= 1 { LitAdvances(all, b0, b, secOfs, fin, n - 1); }
    if n >= 2 { LitAdvances(all, b0, b, secOfs, fin, n - 2); }
  }

  lemma LitAdvances(all: seq<Item>, b0: map<int, int>, b: map<int, int>, secOfs: seq<int>, fin: seq<int>, x: nat)
    requires Laid(all, b0, b, secOfs, fin) && x < |all|
    ensures |fin| == |all| + 1 && (all[x].a.Lit? ==> fin[x + 1] == fin[x] + 1)
  {
    ItemFacts(all, b0, b, secOfs, fin, x);
  }

  lemma ShrinkIs(all: seq<Item>, b0: map<int, int>, b: map<int, int>, secOfs: seq<int>, fin: seq<int>, x: nat)
    requires Laid(all, b0, b, secOfs, fin) && x < |all| && IsRel(all[x].a)
    ensures all[x].at + 1 in b && (b[all[x].at + 1] == 0 || b[all[x].at + 1] == Shrinkable(all[x].a.op))
  {
    hide Distance;
    ItemFacts(all, b0, b, secOfs, fin, x);
    RelOk(all, x, b0, secOfs);
  }

  // ----- how a processor reads a displacement

  function SignedByte(c: byte): int { if c < 128 then c else c - 256 }

  lemma ByteDisplacement(d: int)
    requires FitsByte(d)
    ensures SignedByte(d % 256) == d
  {
  }

  function LeValue(s: seq<byte>): nat
  {
    if s == [] then 0 else s[0] + 256 * LeValue(s[1..])
  }

  function Power256(n: nat): (p: nat)
    ensures p > 0
  {
    if n == 0 then 1 else 256 * Power256(n - 1)
  }

  lemma {:induction false} LeMeans(n: int, len: nat)
    ensures LeValue(LE(n, len)) == n % Power256(len)
    decreases len
  {
    if len > 0 {
      LeMeans(n / 256, len - 1);
      var p := Power256(len - 1);
      var q, r := n / 256 / p, n / 256 % p;
      assert n / 256 == p * q + r;
      assert n == 256 * p * q + (256 * r + n % 256) by { Twist(p, q); }
      assert LE(n, len)[1..] == LE(n / 256, len - 1);
      DivUnique(n, 256 * p, q, 256 * r + n % 256);
    }
  }

  lemma Twist(p: int, q: int)
    ensures 256 * p * q == 256 * (p * q)
  {
  }

  /** The branch at item `x`, as a processor executes it, lands exactly on its label, item `y`. A near
      displacement is a 32-bit value. */
  lemma BranchLands(all: seq<Item>, b0: map<int, int>, b: map<int, int>, secOfs: seq<int>, fin: seq<int>, base: int,
                    out: seq<byte>, x: nat, y: nat)
    requires Laid(all, b0, b, secOfs, fin) && |fin| == |all| + 1 && HasWords(all, b) && OpcodesInPlace(all)
    requires EncodedUpTo(all, |all|, b, fin, base, out)
    requires x < |all| && IsRel(all[x].a) && LabelIndex(all, y, b[all[x].at])
    ensures var e, s := fin[x + 1], b[all[x].at + 1];
      if s != 0 then 2 <= e <= |out| && e + SignedByte(out[e - 1]) == fin[y]
        && out[e - 2] == (if s == 3 then 0xeb else all[x].a.op - 0x10)
      else 4 <= e <= |out| && LeValue(out[e - 4..e]) == (fin[y] - e) % Power256(4)
  {
    hide LE, LeValue, Power256, EncodedUpTo, LinkedUpTo;
    ItemFacts(all, b0, b, secOfs, fin, x);
    ItemFacts(all, b0, b, secOfs, fin, y);
    RelOk(all, x, b0, secOfs);
    assert ItemBytes(all, x, |all|, b, fin, base, out) by { AtItem(all, b, fin, base, out, x); }
    var e := fin[x + 1];
    if b[all[x].at + 1] != 0 {
      ShortBranchReaches(all, b0, b, secOfs, fin, x, y);
      ByteDisplacement(fin[y] - e);
    } else {
      LeMeans(fin[y] - e, 4);
    }
  }

  lemma AtItem(all: seq<Item>, b: map<int, int>, fin: seq<int>, base: int, out: seq<byte>, x: nat)
    requires |fin| == |all| + 1 && HasWords(all, b) && OpcodesInPlace(all)
      && EncodedUpTo(all, |all|, b, fin, base, out) && x < |all|
    ensures PatchesOpcode(all, x) && ItemBytes(all, x, |all|, b, fin, base, out)
  {
    assert PatchesOpcode(all, x);
  }
}
