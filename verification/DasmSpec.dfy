/** What assembling means, without chains and without shrinking: the items laid down in each
    section, the labels, and for each reference the label position it stands for. */
module DasmSpec {
  import opened Numbers
  import opened DasmActions

  const SEC_SPAN := 0x100_0000  // positions: 8 bit section, 24 bit index
  const SEC_MAX := 0xff_ffff

  /** LG(n): local labels 1..9 and globals from 10; PC(n): labels given by number. */
  datatype Label = LG(n: nat) | PC(i: int)

  /** What a label is at some time: not seen, only referenced, or defined at a position. */
  datatype Lab = Unused | Wanted | Defined(pos: int)

  /** What a reference stands for: a label position, or the next definition of a label. */
  datatype Target = At(pos: int) | Waiting(l: Label)

  /** An action of a call: where the list goes on after it, its first word in the section buffer, its
      argument, and its offset in the section if everything before takes its maximal size. */
  datatype Item = Item(a: Action, next: nat, at: int, arg: int, est: int)

  datatype Status =
    | Ok | RangeI(ofs: int) | RangeSec(ofs: int) | RangeLG(ofs: int) | RangePC(ofs: int)
    | UndefL(n: nat) | UndefPC(n: nat) | MatchSec(n: nat) | Phase

  datatype Asm = Asm(secs: seq<seq<Item>>, cur: nat, lg: seq<Lab>, pc: seq<Lab>, refs: map<int, Target>)

  function EndPos(items: seq<Item>, sec: nat): int
  {
    if items == [] then sec * SEC_SPAN else var it := items[|items| - 1]; it.at + Words(it.a)
  }

  function EndEst(items: seq<Item>): int
  {
    if items == [] then 0 else var it := items[|items| - 1]; it.est + MaxLen(it.a, it.arg)
  }

  // ----- one call

  /** Forward references to local labels have the numbers from 247. */
  predicate Forward(a: Action) { (a.RelLG? || a.ImmLG?) && a.n > 246 }

  function LabelOf(a: Action, arg: int): Label
    requires IsRef(a) || IsLabel(a)
  {
    if a.RelPC? || a.ImmPC? || a.LabelPC? then PC(arg)
    else if Forward(a) then LG(a.n - 246) else LG(a.n)
  }

  predicate Known(s: Asm, l: Label)
  {
    if l.LG? then l.n < |s.lg| else 0 <= l.i < |s.pc|
  }

  function LabOf(s: Asm, l: Label): Lab
    requires Known(s, l)
  {
    if l.LG? then s.lg[l.n] else s.pc[l.i]
  }

  function SetLab(s: Asm, l: Label, v: Lab): Asm
    requires Known(s, l)
  {
    if l.LG? then s.(lg := s.lg[l.n := v]) else s.(pc := s.pc[l.i := v])
  }

  function Append(s: Asm, it: Item): Asm
    requires s.cur < |s.secs|
  {
    s.(secs := s.secs[s.cur := s.secs[s.cur] + [it]])
  }

  function NewItem(s: Asm, a: Action, next: nat, arg: int): Item
    requires s.cur < |s.secs|
  {
    Item(a, next, EndPos(s.secs[s.cur], s.cur), arg, EndEst(s.secs[s.cur]))
  }

  /** All references that wait for `l` stand for `pos`. */
  function Resolve(refs: map<int, Target>, l: Label, pos: int): map<int, Target>
  {
    map w | w in refs :: if refs[w] == Waiting(l) then At(pos) else refs[w]
  }

  /** The range error that an action at the end of which the list goes on at `next` can raise. */
  function Check(s: Asm, a: Action, next: nat, arg: int): Status
    requires |s.lg| >= 10
  {
    if a.Imm? then if InRange(a.kind, arg) then Ok else RangeI(next - 1)
    else if IsRef(a) then
      var l := LabelOf(a, arg);
      if l.PC? then if Known(s, l) then Ok else RangePC(next - 1)
      else if Forward(a) then Ok
      else if l.n < 10 then if s.lg[l.n].Defined? then Ok else RangeLG(next - 1)
      else if Known(s, l) then Ok else RangeLG(next - 1)
    else if a.LabelPC? then if Known(s, PC(arg)) then Ok else RangePC(next - 1)
    else if a.LabelLG? then if Known(s, LG(a.n)) then Ok else RangeLG(next - 1)
    else if a.Section? then if a.n < |s.secs| then Ok else RangeSec(next - 2)
    else Ok
  }

  /** A reference stands for the label's definition if there is one and it is not a forward reference;
      otherwise it waits for the next. */
  function PutRef(s: Asm, a: Action, arg: int, pos: int): Asm
    requires IsRef(a) && Known(s, LabelOf(a, arg))
  {
    var l := LabelOf(a, arg);
    var v := LabOf(s, l);
    if v.Defined? && !Forward(a) then s.(refs := s.refs[pos := At(v.pos)])
    else SetLab(s, l, Wanted).(refs := s.refs[pos := Waiting(l)])
  }

  function PutLabel(s: Asm, l: Label, pos: int): Asm
    requires Known(s, l)
  {
    SetLab(s, l, Defined(pos)).(refs := Resolve(s.refs, l, pos))
  }

  /** One action, its range check passed. */
  function PutAction(s: Asm, a: Action, next: nat, arg: int): Asm
    requires s.cur < |s.secs| && |s.lg| >= 10 && Check(s, a, next, arg).Ok? && !a.Unsupported?
  {
    var it := NewItem(s, a, next, arg);
    if a.Section? then s.(cur := a.n)
    else if a.Stop? then s
    else if IsRef(a) then Append(PutRef(s, a, arg, it.at), it)
    else if IsLabel(a) then Append(PutLabel(s, LabelOf(a, arg), it.at), it)
    else Append(s, it)
  }

  datatype Put = Done(s: Asm) | Refused(status: Status)

  /** The arguments a call consumes from `p` on, and the words it needs. */
  function ArgCount(act: seq<byte>, p: nat): nat
    decreases |act| - p
  {
    var f := Fetch(act, p);
    if Ends(f.a) || f.a.Unsupported? then 0 else (if TakesArg(f.a) then 1 else 0) + ArgCount(act, f.next)
  }

  function WordCount(act: seq<byte>, p: nat): nat
    decreases |act| - p
  {
    var f := Fetch(act, p);
    if Ends(f.a) || f.a.Unsupported? then 0 else Words(f.a) + WordCount(act, f.next)
  }

  /** What the front end guarantees: no negative space, alignment to a power of two. */
  predicate ArgOk(a: Action, arg: int)
  {
    (a.Space? ==> arg >= 0) && (a.Align? ==> IsMask(a.mask))
  }

  /** A call that the front end can produce: only supported actions up to the end, with all arguments. */
  predicate CallOk(act: seq<byte>, p: nat, args: seq<int>)
    decreases |act| - p
  {
    var f := Fetch(act, p);
    !f.a.Unsupported? &&
    (Ends(f.a) ||
     (if TakesArg(f.a) then |args| > 0 && ArgOk(f.a, args[0]) && CallOk(act, f.next, args[1..])
      else ArgOk(f.a, 0) && CallOk(act, f.next, args)))
  }

  /** The rest of a call: every action in turn, up to the first range error. */
  function PutRest(s: Asm, act: seq<byte>, p: nat, args: seq<int>): Put
    requires s.cur < |s.secs| && |s.lg| >= 10 && CallOk(act, p, args)
    decreases |act| - p
  {
    var f := Fetch(act, p);
    var arg := if TakesArg(f.a) then args[0] else 0;
    if !Check(s, f.a, f.next, arg).Ok? then Refused(Check(s, f.a, f.next, arg))
    else
      var s' := PutAction(s, f.a, f.next, arg);
      if Ends(f.a) then Done(s') else PutRest(s', act, f.next, if TakesArg(f.a) then args[1..] else args)
  }

  /** `dasm_put`. */
  function PutCall(s: Asm, act: seq<byte>, start: nat, args: seq<int>): Put
    requires s.cur < |s.secs| && |s.lg| >= 10 && CallOk(act, start, args)
  {
    PutRest(Append(s, NewItem(s, Begin, start, start)), act, start, args)
  }
}
