/** The action list of DynASM: a byte string that describes code with holes in it. */
module DasmActions {
  import opened Numbers

  const DASM_DISP := 233
  const DASM_IMM_S := 234
  const DASM_IMM_B := 235
  const DASM_IMM_W := 236
  const DASM_IMM_D := 237
  const DASM_IMM_WB := 238
  const DASM_IMM_DB := 239
  const DASM_VREG := 240
  const DASM_SPACE := 241
  const DASM_SETLABEL := 242
  const DASM_REL_A := 243
  const DASM_REL_LG := 244
  const DASM_REL_PC := 245
  const DASM_IMM_LG := 246
  const DASM_IMM_PC := 247
  const DASM_LABEL_LG := 248
  const DASM_LABEL_PC := 249
  const DASM_ALIGN := 250
  const DASM_EXTERN := 251
  const DASM_ESC := 252
  const DASM_MARK := 253
  const DASM_SECTION := 254
  const DASM_STOP := 255

  /** Signed byte, byte, word, dword, signed byte or word, signed byte or dword. */
  datatype ImmKind = ImmS | ImmB | ImmW | ImmD | ImmWB | ImmDB

  /** One action together with its operands in the list. A branch also knows the byte in front of
      it, from which the passes tell whether it can be shortened. */
  datatype Action =
    | Begin                          // the position word that starts each call
    | Lit(c: byte)
    | Imm(kind: ImmKind)
    | RelA
    | Space(fill: byte)
    | RelLG(n: byte, op: byte)
    | RelPC(op: byte)
    | ImmLG(n: byte)
    | ImmPC
    | LabelLG(n: byte)
    | LabelPC
    | Align(mask: byte)
    | Section(n: byte)
    | Stop
    | Unsupported                    // DISP, VREG, SETLABEL, EXTERN, MARK; the end of the list

  datatype Fetched = Fetched(a: Action, next: nat)

  /** The action at `p` and where the next one starts. */
  function Fetch(act: seq<byte>, p: nat): (f: Fetched)
    ensures f.next > p
    ensures !f.a.Unsupported? ==> f.next <= |act|
    ensures !f.a.Begin?
  {
    if p >= |act| then Fetched(Unsupported, p + 1)
    else
      var c, op := act[p], if p > 0 then act[p - 1] else 0;
      if c < DASM_DISP then Fetched(Lit(c), p + 1)
      else if c == DASM_STOP then Fetched(Stop, p + 1)
      else if DASM_IMM_S <= c <= DASM_IMM_DB then Fetched(Imm(Kind(c)), p + 1)
      else if c == DASM_REL_A then Fetched(RelA, p + 1)
      else if c == DASM_REL_PC then Fetched(RelPC(op), p + 1)
      else if c == DASM_IMM_PC then Fetched(ImmPC, p + 1)
      else if c == DASM_LABEL_PC then Fetched(LabelPC, p + 1)
      else if p + 1 >= |act| then Fetched(Unsupported, p + 1)
      else
        var n := act[p + 1];
        if c == DASM_SPACE then Fetched(Space(n), p + 2)
        else if c == DASM_REL_LG then Fetched(RelLG(n, op), p + 2)
        else if c == DASM_IMM_LG then Fetched(ImmLG(n), p + 2)
        else if c == DASM_LABEL_LG then Fetched(LabelLG(n), p + 2)
        else if c == DASM_ALIGN then Fetched(Align(n), p + 2)
        else if c == DASM_ESC then Fetched(Lit(n), p + 2)
        else if c == DASM_SECTION then Fetched(Section(n), p + 2)
        else Fetched(Unsupported, p + 1)
  }

  function Kind(c: byte): ImmKind
    requires DASM_IMM_S <= c <= DASM_IMM_DB
  {
    if c == DASM_IMM_S then ImmS else if c == DASM_IMM_B then ImmB else if c == DASM_IMM_W then ImmW
    else if c == DASM_IMM_D then ImmD else if c == DASM_IMM_WB then ImmWB else ImmDB
  }

  predicate Ends(a: Action) { a.Section? || a.Stop? }

  predicate IsRel(a: Action) { a.RelLG? || a.RelPC? }

  predicate IsRef(a: Action) { IsRel(a) || a.ImmLG? || a.ImmPC? }

  predicate IsLabel(a: Action) { a.LabelLG? || a.LabelPC? }

  predicate TakesArg(a: Action) { a.Imm? || a.RelA? || a.Space? || a.RelPC? || a.ImmPC? || a.LabelPC? }

  /** How many words of the section buffer an action occupies. */
  function Words(a: Action): nat
  {
    if IsRel(a) then 2 else if a.Lit? || Ends(a) || a.Unsupported? then 0 else 1
  }

  predicate FitsByte(n: int) { -128 <= n <= 127 }

  /** The size of an immediate operand. */
  function ImmLen(k: ImmKind, n: int): nat
  {
    match k
    case ImmS => 1
    case ImmB => 1
    case ImmW => 2
    case ImmD => 4
    case ImmWB => if FitsByte(n) then 1 else 2
    case ImmDB => if FitsByte(n) then 1 else 4
  }

  /** The range checks of DASM_CHECKS. */
  predicate InRange(k: ImmKind, n: int)
  {
    match k
    case ImmS => FitsByte(n)
    case ImmB => 0 <= n < 0x100
    case ImmW => 0 <= n < 0x1_0000
    case ImmWB => FitsByte(n) || 0 <= n < 0x1_0000
    case _ => true
  }

  /** The most bytes the action can produce. */
  function MaxLen(a: Action, arg: int): int
  {
    match a
    case Lit(_) => 1
    case Imm(k) => ImmLen(k, arg)
    case RelA => 4
    case Space(_) => arg
    case RelLG(_, _) => 4
    case RelPC(_) => 4
    case ImmLG(_) => 4
    case ImmPC => 4
    case Align(mask) => mask
    case _ => 0
  }

  /** By how much a branch with this opcode byte can be shortened: `jmp` to its two-byte form,
      a conditional branch from its six-byte to its two-byte form. */
  function Shrinkable(op: byte): (s: nat)
    ensures s == 0 || s == 3 || s == 4
  {
    if op == 0xe9 then 3 else if op / 16 == 8 then 4 else 0
  }

  function OpOf(a: Action): byte
    requires IsRel(a)
  {
    a.op
  }

  /** `x & m`. */
  function BitAnd(x: nat, m: nat): nat
    decreases m
  {
    if m == 0 then 0 else x % 2 * (m % 2) + 2 * BitAnd(x / 2, m / 2)
  }

  /** `m` has the form 2**n - 1. */
  predicate IsMask(m: nat)
  {
    m == 0 || (m % 2 == 1 && IsMask(m / 2))
  }

  lemma {:induction false} AndIsMod(x: nat, m: nat)
    requires IsMask(m)
    ensures BitAnd(x, m) == x % (m + 1)
    decreases m
  {
    if m > 0 {
      var h := m / 2;
      AndIsMod(x / 2, h);
      var q, r := x / 2 / (h + 1), x / 2 % (h + 1);
      assert x / 2 == (h + 1) * q + r;
      assert x == (m + 1) * q + (2 * r + x % 2) by { assert m + 1 == 2 * (h + 1); Twice(h + 1, q); }
      DivUnique(x, m + 1, q, 2 * r + x % 2);
    }
  }

  lemma Twice(a: int, q: int)
    ensures 2 * a * q == 2 * (a * q)
  {
  }

}
