/** The head of a side trace: moving every value from where the parent trace leaves it to where the
    side trace expects it. Code is generated backwards: what is emitted later runs earlier. */
module Shuffle {
  type Reg = nat
  type Ref = nat

  /** `mov d, s`, a load from and a store to the stack frame. */
  datatype Ins = Mov(d: Reg, s: Reg) | Load(d: Reg, slot: int) | Store(s: Reg, slot: int)

  datatype Machine = Machine(regs: map<Reg, int>, mem: map<int, int>)

  function RegOf(m: Machine, r: Reg): int { if r in m.regs then m.regs[r] else 0 }

  function SlotOf(m: Machine, a: int): int { if a in m.mem then m.mem[a] else 0 }

  function Do(i: Ins, m: Machine): Machine
  {
    match i
    case Mov(d, s) => m.(regs := m.regs[d := RegOf(m, s)])
    case Load(d, a) => m.(regs := m.regs[d := SlotOf(m, a)])
    case Store(s, a) => m.(mem := m.mem[a := RegOf(m, s)])
  }

  /** Runs emitted code: the last instruction emitted comes first. */
  function Run(code: seq<Ins>, m: Machine): Machine
  {
    if code == [] then m else Run(code[..|code| - 1], Do(code[|code| - 1], m))
  }

  lemma RunEmitted(code: seq<Ins>, i: Ins, m: Machine)
    ensures Run(code + [i], m) == Run(code, Do(i, m))
  {
    assert (code + [i])[..|code|] == code;
  }

  /** Where the parent trace leaves a value. */
  datatype Loc = InReg(r: Reg) | InSlot(slot: int)

  function ValueAt(p: Machine, l: Loc): int
  {
    match l
    case InReg(r) => RegOf(p, r)
    case InSlot(a) => SlotOf(p, a)
  }

  predicate IsLeast(s: set<Reg>, r: Reg) { r in s && forall x | x in s :: r <= x }

  function PickBot(s: set<Reg>): (r: Reg)
    requires s != {}
    ensures IsLeast(s, r)
  {
    Least(s);
    var r :| IsLeast(s, r);
    r
  }

  lemma {:induction false} Least(s: set<Reg>)
    requires s != {}
    ensures exists r :: IsLeast(s, r)
  {
    var y :| y in s;
    var t := s - {y};
    if t == {} {
      assert s == {y};
      assert IsLeast(s, y);
    } else {
      Least(t);
      var z :| IsLeast(t, z);
      assert s == t + {y};
      assert IsLeast(s, if z < y then z else y);
    }
  }

  // ----- what the code emitted so far needs

  /** The values that have to be in place: one for every pending reference, in its present register, and
      the parent's own value in every register that is held. */
  ghost predicate Ready(q: Machine, p: Machine, pend: set<Ref>, reg: map<Ref, Reg>, loc: map<Ref, Loc>, held: set<Reg>)
    requires pend <= reg.Keys && pend <= loc.Keys
  {
    && q.mem == p.mem
    && (forall f | f in pend :: RegOf(q, reg[f]) == ValueAt(p, loc[f]))
    && (forall r | r in held :: RegOf(q, r) == RegOf(p, r))
  }

  /** The goal of the whole head: references are in these registers and in these slots of the frame. */
  ghost predicate Goal(m: Machine, p: Machine, loc: map<Ref, Loc>, wantReg: map<Ref, Reg>, wantSlot: map<Ref, int>)
    requires wantReg.Keys <= loc.Keys && wantSlot.Keys <= loc.Keys
  {
    && (forall f | f in wantReg :: RegOf(m, wantReg[f]) == ValueAt(p, loc[f]))
    && (forall f | f in wantSlot :: SlotOf(m, wantSlot[f]) == ValueAt(p, loc[f]))
  }

  ghost predicate Works(code: seq<Ins>, p: Machine, pend: set<Ref>, reg: map<Ref, Reg>, loc: map<Ref, Loc>,
                        held: set<Reg>,
                        wantReg: map<Ref, Reg>, wantSlot: map<Ref, int>)
    requires pend <= reg.Keys && pend <= loc.Keys && wantReg.Keys <= loc.Keys && wantSlot.Keys <= loc.Keys
  {
    forall q: Machine :: Ready(q, p, pend, reg, loc, held) ==> Goal(Run(code, q), p, loc, wantReg, wantSlot)
  }

  /** Distinct pending references are in distinct registers, none of which is held. */
  ghost predicate Apart(pend: set<Ref>, reg: map<Ref, Reg>, held: set<Reg>)
    requires pend <= reg.Keys
  {
    (forall f, g | f in pend && g in pend && f != g :: reg[f] != reg[g]) && (forall f | f in pend :: reg[f] !in held)
  }

  /** Emitting the move from its parent register settles a pending reference. */
  lemma MoveSettles(code: seq<Ins>, p: Machine, pend: set<Ref>, reg: map<Ref, Reg>, loc: map<Ref, Loc>, held: set<Reg>,
                    wantReg: map<Ref, Reg>, wantSlot: map<Ref, int>, f: Ref)
    requires pend <= reg.Keys && pend <= loc.Keys && wantReg.Keys <= loc.Keys && wantSlot.Keys <= loc.Keys
      && Apart(pend, reg, held) && Works(code, p, pend, reg, loc, held, wantReg, wantSlot)
    requires f in pend && loc[f].InReg?
    ensures Works(code + [Mov(reg[f], loc[f].r)], p, pend - {f}, reg, loc, held + {loc[f].r}, wantReg, wantSlot)
  {
    var i := Mov(reg[f], loc[f].r);
    forall q: Machine | Ready(q, p, pend - {f}, reg, loc, held + {loc[f].r})
      ensures Goal(Run(code + [i], q), p, loc, wantReg, wantSlot)
    {
      RunEmitted(code, i, q);
      assert Ready(Do(i, q), p, pend, reg, loc, held);
    }
  }

  /** So does emitting the load from its parent slot. */
  lemma LoadSettles(code: seq<Ins>, p: Machine, pend: set<Ref>, reg: map<Ref, Reg>, loc: map<Ref, Loc>, held: set<Reg>,
                    wantReg: map<Ref, Reg>, wantSlot: map<Ref, int>, f: Ref)
    requires pend <= reg.Keys && pend <= loc.Keys && wantReg.Keys <= loc.Keys && wantSlot.Keys <= loc.Keys
      && Apart(pend, reg, held) && Works(code, p, pend, reg, loc, held, wantReg, wantSlot)
    requires f in pend && loc[f].InSlot?
    ensures Works(code + [Load(reg[f], loc[f].slot)], p, pend - {f}, reg, loc, held, wantReg, wantSlot)
  {
    var i := Load(reg[f], loc[f].slot);
    forall q: Machine | Ready(q, p, pend - {f}, reg, loc, held)
      ensures Goal(Run(code + [i], q), p, loc, wantReg, wantSlot)
    {
      RunEmitted(code, i, q);
      assert Ready(Do(i, q), p, pend, reg, loc, held);
    }
  }

  /** Moving a pending reference to another register, with the inverse move emitted. */
  lemma RenameWorks(code: seq<Ins>, p: Machine, pend: set<Ref>, reg: map<Ref, Reg>, loc: map<Ref, Loc>, held: set<Reg>,
                    wantReg: map<Ref, Reg>, wantSlot: map<Ref, int>, f: Ref, up: Reg)
    requires pend <= reg.Keys && pend <= loc.Keys && wantReg.Keys <= loc.Keys && wantSlot.Keys <= loc.Keys
      && Apart(pend, reg, held) && Works(code, p, pend, reg, loc, held, wantReg, wantSlot)
    requires f in pend
    ensures Works(code + [Mov(reg[f], up)], p, pend, reg[f := up], loc, held, wantReg, wantSlot)
  {
    var i := Mov(reg[f], up);
    forall q: Machine | Ready(q, p, pend, reg[f := up], loc, held)
      ensures Goal(Run(code + [i], q), p, loc, wantReg, wantSlot)
    {
      RunEmitted(code, i, q);
      assert RegOf(q, up) == ValueAt(p, loc[f]) by { assert reg[f := up][f] == up; }
      forall g | g in pend ensures RegOf(Do(i, q), reg[g]) == ValueAt(p, loc[g]) {
        if g != f { assert reg[f := up][g] == reg[g]; }
      }
      assert Ready(Do(i, q), p, pend, reg, loc, held);
    }
  }

  /** With nothing pending, the parent's own registers will do. */
  lemma NothingPending(code: seq<Ins>, p: Machine, reg: map<Ref, Reg>, loc: map<Ref, Loc>, held: set<Reg>,
                       wantReg: map<Ref, Reg>, wantSlot: map<Ref, int>)
    requires wantReg.Keys <= loc.Keys && wantSlot.Keys <= loc.Keys
      && Works(code, p, {}, reg, loc, held, wantReg, wantSlot)
    ensures Goal(Run(code, p), p, loc, wantReg, wantSlot)
  {
    assert Ready(p, p, {}, reg, loc, held);
  }

  /** References that come from the parent: their locations there are distinct, and so are their spill slots. */
  ghost predicate Inherits(refs: set<Ref>, loc: map<Ref, Loc>, spill: map<Ref, int>, gprs: set<Ref>, maxGpr: nat,
                           maxReg: nat)
  {
    && refs <= loc.Keys && spill.Keys <= refs
    && (forall f, g | f in refs && g in refs && f != g && loc[f].InReg? :: loc[f] != loc[g])
    && (forall f, g | f in spill && g in spill && f != g :: spill[f] != spill[g])
    && (forall f | f in refs && loc[f].InReg? :: loc[f].r < maxReg && (loc[f].r < maxGpr) == (f in gprs))
  }

  /** Some of them have a register of their class, each its own. */
  ghost predicate Assigned(refs: set<Ref>, reg: map<Ref, Reg>, gprs: set<Ref>, maxGpr: nat, maxReg: nat)
  {
    && reg.Keys <= refs && (forall f, g | f in reg && g in reg && f != g :: reg[f] != reg[g])
    && (forall f | f in reg :: reg[f] < maxReg && (reg[f] < maxGpr) == (f in gprs))
  }

  /** `ASMState`, with the locals of `asm_head_side`. */
  class SideHead {
    const maxGpr: nat
    const maxReg: nat
    const loc: map<Ref, Loc>            // the parent's locations: `parentmap`
    const spill: map<Ref, int>          // the spill slots of instructions: `ir->s`
    const gprs: set<Ref>                // the instructions that need a general purpose register
    const hints: map<Ref, Reg>          // register hints
    var freeset: set<Reg>
    var allow: set<Reg>
    var live: set<Reg>
    var sloadins: map<Reg, Ref>
    var cost: map<Reg, Ref>
    var reg: map<Ref, Reg>              // the register of each instruction: `ir->r`
    var code: seq<Ins>
    ghost var pend: set<Ref>
    ghost var held: set<Reg>
    ghost var stored: seq<Ref>          // whose spill slots are stored to, in the order of emission

    /** The state after the rest of the trace was assembled: only inherited references still have registers. */
    constructor (maxGpr: nat, maxReg: nat, loc: map<Ref, Loc>, spill: map<Ref, int>, gprs: set<Ref>,
                 hints: map<Ref, Reg>, reg: map<Ref, Reg>, allow: set<Reg>, ghost refs: set<Ref>)
      requires Inherits(refs, loc, spill, gprs, maxGpr, maxReg) && Assigned(refs, reg, gprs, maxGpr, maxReg)
        && forall r | r in allow :: r < maxReg
      ensures Scanning(refs, refs, {}) && pend == {} && code == [] && stored == [] && live == {}
      ensures this.maxGpr == maxGpr && this.maxReg == maxReg && this.loc == loc && this.spill == spill
        && this.gprs == gprs && this.hints == hints && this.reg == reg && this.allow == allow
    {
      this.maxGpr, this.maxReg, this.loc, this.spill, this.gprs, this.hints := maxGpr, maxReg, loc, spill, gprs, hints;
      this.reg, this.allow, cost := reg, allow, map f | f in reg :: reg[f] := f;
      freeset := set r: Reg | 0 <= r < maxReg && r !in reg.Values;
      live, sloadins, code, pend, held, stored := {}, map[], [], {}, {}, [];
      new;
      forall f | f in reg ensures reg[f] in cost && cost[reg[f]] == f && reg[f] !in freeset { }
    }

    predicate IsGpr(r: Reg) { r < maxGpr }

    /** Every allocated register belongs to a pending reference, and the other way round. */
    ghost predicate Allocated()
      reads this
    {
      && pend <= reg.Keys && pend <= loc.Keys
      && (forall f | f in pend :: reg[f] < maxReg && reg[f] !in freeset && reg[f] in cost && cost[reg[f]] == f)
      && (forall r: Reg | r < maxReg && r !in freeset :: r in cost && cost[r] in pend && reg[cost[r]] == r)
    }

    /** `live` has the parent registers of the pending references; each is in a register of its class. */
    ghost predicate Sources()
      reads this
      requires pend <= reg.Keys && pend <= loc.Keys
    {
      && (forall f | f in pend ::
        loc[f].InReg? && loc[f].r in live && loc[f].r in sloadins && sloadins[loc[f].r] == f
        && IsGpr(loc[f].r) == IsGpr(reg[f]))
      && (forall r | r in live :: r < maxReg && r in sloadins && sloadins[r] in pend && loc[sloadins[r]] == InReg(r))
    }

    /** Registers that were read as they are stay free and are not allowed as temporaries. */
    ghost predicate Shielded()
      reads this
    {
      held <= freeset && held !! allow && forall r | r in freeset :: r < maxReg
    }

    ghost predicate Shuffling(p: Machine, wantReg: map<Ref, Reg>, wantSlot: map<Ref, int>)
      reads this
    {
      && Allocated() && Sources() && Shielded() && wantReg.Keys <= loc.Keys && wantSlot.Keys <= loc.Keys
      && Works(code, p, pend, reg, loc, held, wantReg, wantSlot)
    }

    /** `ra_rename`, as far as the allocation is concerned; the record of the renaming for snapshots is left out. */
    method Rename(down: Reg, up: Reg, ghost p: Machine, ghost wantReg: map<Ref, Reg>, ghost wantSlot: map<Ref, int>)
      requires Shuffling(p, wantReg, wantSlot)
      requires down < maxReg && down !in freeset && up in freeset && up in allow && IsGpr(down) == IsGpr(up)
      modifies this
      ensures Shuffling(p, wantReg, wantSlot) && pend == old(pend) && held == old(held) && live == old(live)
        && allow == old(allow)
      ensures freeset == old(freeset) + {down} - {up} && reg == old(reg)[old(cost[down]) := up]
        && sloadins == old(sloadins)
    {
      var f := cost[down];
      RenameWorks(code, p, pend, reg, loc, held, wantReg, wantSlot, f, up);
      cost := cost[up := f];
      reg := reg[f := up];
      freeset := freeset + {down} - {up};
      code := code + [Mov(down, up)];
    }

    /** Coalesces a free live register by moving it to its target. */
    method MoveToTarget(rp: Reg, ghost p: Machine, ghost wantReg: map<Ref, Reg>, ghost wantSlot: map<Ref, int>)
      requires Shuffling(p, wantReg, wantSlot) && rp in live && rp in freeset
      modifies this
      ensures Shuffling(p, wantReg, wantSlot) && live == old(live) - {rp} && allow == old(allow) - {rp}
      ensures freeset == old(freeset) + {old(reg[sloadins[rp]])} && reg == old(reg) && sloadins == old(sloadins)
      ensures pend == old(pend) - {old(sloadins[rp])}
    {
      var f := sloadins[rp];
      MoveSettles(code, p, pend, reg, loc, held, wantReg, wantSlot, f);
      live, allow := live - {rp}, allow - {rp};
      freeset := freeset + {reg[f]};
      code := code + [Mov(reg[f], rp)];
      pend, held := pend - {f}, held + {rp};
    }

    ghost function Targets(): (t: map<Reg, Reg>)
      reads this
      requires Allocated() && Sources()
    {
      map r | r in live :: reg[sloadins[r]]
    }

    /** In each class of registers, when no source is free, every target is a source. */
    lemma StuckPermutes(gpr: bool)
      requires Allocated() && Sources() && forall r | r in live && IsGpr(r) == gpr :: r !in freeset
      ensures forall f | f in pend && IsGpr(reg[f]) == gpr :: reg[f] in live
    {
      var a := set r | r in live && IsGpr(r) == gpr;
      var b := set f | f in pend && IsGpr(reg[f]) == gpr;
      forall r | r in a ensures r in cost && cost[r] in b && cost[r] in reg && reg[cost[r]] == r {
        assert r in live && r !in freeset;
      }
      var back := map f | f in b :: loc[f].r;
      Permutes(a, b, cost, reg, back, sloadins);
    }

    /** Registers of one class that are free, allowed and not the source of any value. */
    function Spare(free: set<Reg>, allow: set<Reg>, live: set<Reg>, gpr: bool): set<Reg>
    {
      set r | r in free && r in allow && r !in live && IsGpr(r) == gpr
    }

    /** Registers of one class that each have to be overwritten with the value of another one. */
    ghost predicate Cycle(c: set<Reg>, gpr: bool, t: map<Reg, Reg>)
    {
      c != {} && c <= t.Keys && forall r | r in c :: IsGpr(r) == gpr && Feeds(c, t, r)
    }

    ghost predicate Hopeless(free: set<Reg>, allow: set<Reg>, live: set<Reg>, t: map<Reg, Reg>, gpr: bool)
    {
      Spare(free, allow, live, gpr) == {} && exists c :: Cycle(c, gpr, t)
    }

    /** What the loop keeps, compared with its beginning: where there are no spare registers nothing is
        renamed, and cycles stay. */
    ghost predicate Tracks(free0: set<Reg>, allow0: set<Reg>, live0: set<Reg>, t0: map<Reg, Reg>)
      reads this
      requires Allocated() && Sources()
    {
      && live <= live0 && live0 == t0.Keys && allow == allow0 - (live0 - live)
      && (forall r | r in live && Spare(free0, allow0, live0, IsGpr(r)) == {} :: reg[sloadins[r]] == t0[r])
      && (forall gpr, c | Spare(free0, allow0, live0, gpr) == {} && Cycle(c, gpr, t0) :: c <= live)
    }

    /** No register of a cycle without spare is ever free. */
    lemma CycleBlocks(free0: set<Reg>, allow0: set<Reg>, live0: set<Reg>, t0: map<Reg, Reg>, rp: Reg, gpr: bool,
                      c: set<Reg>)
      requires Allocated() && Sources() && Tracks(free0, allow0, live0, t0)
      requires Spare(free0, allow0, live0, gpr) == {} && Cycle(c, gpr, t0) && rp in freeset
      ensures rp !in c
    {
    }

    /** When a class is stuck, the registers its cycles can be broken with are the spare ones of the beginning. */
    lemma SpareStays(free0: set<Reg>, allow0: set<Reg>, live0: set<Reg>, t0: map<Reg, Reg>, gpr: bool)
      requires Allocated() && Sources() && Tracks(free0, allow0, live0, t0) && allow0 <= free0
        && forall r | r in free0 :: r < maxReg
      requires forall r | r in live && IsGpr(r) == gpr :: r !in freeset
      ensures Spare(freeset, allow, live, gpr) == Spare(free0, allow0, live0, gpr)
    {
      StuckPermutes(gpr);
    }

    /** A class that is stuck without a spare register has a cycle. */
    lemma StuckCycle(free0: set<Reg>, allow0: set<Reg>, live0: set<Reg>, t0: map<Reg, Reg>, gpr: bool)
      requires Allocated() && Sources() && Tracks(free0, allow0, live0, t0) && Spare(free0, allow0, live0, gpr) == {}
      requires forall r | r in live && IsGpr(r) == gpr :: r !in freeset
      requires exists r :: r in live && IsGpr(r) == gpr
      ensures Hopeless(free0, allow0, live0, t0, gpr)
    {
      var c := set r | r in live && IsGpr(r) == gpr;
      forall r | r in c ensures IsGpr(r) == gpr && Feeds(c, t0, r) {
        var f := cost[r];
        assert reg[f] == r && f in pend;
        assert loc[f].r in c && t0[loc[f].r] == r;
      }
      var r :| r in live && IsGpr(r) == gpr;
      assert r in c;
      assert Cycle(c, gpr, t0);
    }

    /** Renaming a target to a spare register leaves the other class and all hopeless cycles alone. */
    lemma RenameTracks(free0: set<Reg>, allow0: set<Reg>, live0: set<Reg>, t0: map<Reg, Reg>, reg1: map<Ref, Reg>,
                       down: Reg, up: Reg)
      requires Allocated() && Sources() && live <= live0 && live0 == t0.Keys && allow == allow0 - (live0 - live)
      requires pend <= reg1.Keys && cost.Keys >= {up} && reg == reg1[cost[up] := up] && cost[up] in pend
        && reg1[cost[up]] == down
      requires IsGpr(down) == IsGpr(up) && Spare(free0, allow0, live0, IsGpr(up)) != {}
      requires forall r | r in live && Spare(free0, allow0, live0, IsGpr(r)) == {} ::
        sloadins[r] in reg1 && reg1[sloadins[r]] == t0[r]
      requires forall gpr, c | Spare(free0, allow0, live0, gpr) == {} && Cycle(c, gpr, t0) :: c <= live
      ensures Tracks(free0, allow0, live0, t0)
    {
      forall r | r in live && Spare(free0, allow0, live0, IsGpr(r)) == {} ensures reg[sloadins[r]] == t0[r] {
        assert IsGpr(reg[sloadins[r]]) == IsGpr(r);
        assert sloadins[r] != cost[up];
      }
    }

    /** Breaks the cycles of one class by renaming one target to a temporary register. */
    method BreakCycle(gpr: bool, ghost p: Machine, ghost wantReg: map<Ref, Reg>, ghost wantSlot: map<Ref, int>,
                      ghost free0: set<Reg>, ghost allow0: set<Reg>, ghost live0: set<Reg>, ghost t0: map<Reg,
                        Reg>) returns (ok: bool)
      requires Shuffling(p, wantReg, wantSlot) && Tracks(free0, allow0, live0, t0) && allow0 <= free0
        && forall r | r in free0 :: r < maxReg
      requires forall r | r in live && IsGpr(r) == gpr :: r !in freeset
      modifies this
      ensures !ok ==> Hopeless(free0, allow0, live0, t0, gpr)
      ensures ok ==> Shuffling(p, wantReg, wantSlot) && Tracks(free0, allow0, live0, t0) && live == old(live)
      ensures ok ==> forall r | r in live && IsGpr(r) != gpr :: r in freeset <==> r in old(freeset)
      ensures ok && (exists r :: r in live && IsGpr(r) == gpr) ==> exists d :: d in freeset * live && IsGpr(d) == gpr
    {
      hide Works, Tracks, Allocated, Sources, Shielded, Hopeless;
      assert forall r | r in live :: r < maxReg by { LiveBound(); }
      var work := set r | r in live && IsGpr(r) == gpr;
      assert forall r | r in live && IsGpr(r) == gpr :: r in work;
      if work == {} { return true; }
      SpareStays(free0, allow0, live0, t0, gpr);
      var tmpset := set r | r in freeset && r !in live && r in allow && IsGpr(r) == gpr;
      assert tmpset == Spare(freeset, allow, live, gpr);
      assert exists r :: r in live && IsGpr(r) == gpr by { assert PickBot(work) in work; }
      if tmpset == {} {
        StuckCycle(free0, allow0, live0, t0, gpr);
        return false;
      }
      var down, up := PickBot(work), PickBot(tmpset);
      assert down in work && up in tmpset;
      RenameTo(down, up, p, wantReg, wantSlot, free0, allow0, live0, t0);
      assert down in freeset * live;
      return true;
    }

    method RenameTo(down: Reg, up: Reg, ghost p: Machine, ghost wantReg: map<Ref, Reg>, ghost wantSlot: map<Ref, int>,
                    ghost free0: set<Reg>, ghost allow0: set<Reg>, ghost live0: set<Reg>, ghost t0: map<Reg, Reg>)
      requires Shuffling(p, wantReg, wantSlot) && Tracks(free0, allow0, live0, t0)
      requires down < maxReg && down !in freeset && up in freeset && up in allow && IsGpr(down) == IsGpr(up)
      requires Spare(free0, allow0, live0, IsGpr(up)) != {}
      modifies this
      ensures Shuffling(p, wantReg, wantSlot) && Tracks(free0, allow0, live0, t0)
      ensures live == old(live) && freeset == old(freeset) + {down} - {up}
    {
      hide Works;
      ghost var reg1 := reg;
      Rename(down, up, p, wantReg, wantSlot);
      RenameTracks(free0, allow0, live0, t0, reg1, down, up);
    }

    lemma LiveBound()
      requires Allocated() && Sources()
      ensures forall r | r in live :: r < maxReg
    {
    }

    /** The shuffle loop. It gives up with NYICOAL exactly when there is a cycle of registers of one class
        that each hold the value another one is to get, and no spare register in that class. */
    method Shuffle(ghost p: Machine, ghost wantReg: map<Ref, Reg>, ghost wantSlot: map<Ref, int>) returns (ok: bool)
      requires Shuffling(p, wantReg, wantSlot) && allow <= freeset
      modifies this
      ensures ok <==> forall gpr :: !Hopeless(old(freeset), old(allow), old(live), old(Targets()), gpr)
      ensures wantReg.Keys <= loc.Keys && wantSlot.Keys <= loc.Keys
        && (ok ==> Goal(Run(code, p), p, loc, wantReg, wantSlot))
    {
      hide Works, Goal, Run, Tracks, Allocated, Sources, Shielded;
      ghost var free0, allow0, live0, t0 := freeset, allow, live, Targets();
      StartTracks();
      assert forall r | r in free0 :: r < maxReg by { FreeBound(); }
      while true
        invariant Shuffling(p, wantReg, wantSlot) && Tracks(free0, allow0, live0, t0)
        decreases |live|, if freeset * live == {} then 1 else 0
      {
        CoalesceFree(p, wantReg, wantSlot, free0, allow0, live0, t0);
        if live == {} {
          NonePending();
          NothingPending(code, p, reg, loc, held, wantReg, wantSlot);
          NoCycleLeft(free0, allow0, live0, t0);
          return true;
        }
        ghost var any :| any in live;
        assert forall r | r in live :: r !in freeset by {
          assert forall r | r in live && r in freeset :: r in freeset * live;
        }
        ok := BreakCycle(true, p, wantReg, wantSlot, free0, allow0, live0, t0);
        if !ok { return; }
        ghost var d := any;
        if IsGpr(any) { d :| d in freeset * live && IsGpr(d); }
        ok := BreakCycle(false, p, wantReg, wantSlot, free0, allow0, live0, t0);
        if !ok { return; }
        if IsGpr(any) { assert d in freeset * live; }
      }
    }

    /** Repeatedly coalesces free live registers by moving to their target. */
    method CoalesceFree(ghost p: Machine, ghost wantReg: map<Ref, Reg>, ghost wantSlot: map<Ref, int>,
                        ghost free0: set<Reg>, ghost allow0: set<Reg>, ghost live0: set<Reg>, ghost t0: map<Reg, Reg>)
      requires Shuffling(p, wantReg, wantSlot) && Tracks(free0, allow0, live0, t0)
      modifies this
      ensures Shuffling(p, wantReg, wantSlot) && Tracks(free0, allow0, live0, t0) && freeset * live == {}
      ensures |live| <= |old(live)| && (old(freeset * live) != {} ==> |live| < |old(live)|)
    {
      hide Works, Tracks;
      while freeset * live != {}
        invariant Shuffling(p, wantReg, wantSlot) && Tracks(free0, allow0, live0, t0)
        invariant live <= old(live) && |live| <= |old(live)| && (live == old(live) ==> freeset == old(freeset))
        invariant live != old(live) ==> |live| < |old(live)|
        decreases |live|
      {
        CoalesceOne(p, wantReg, wantSlot, free0, allow0, live0, t0);
      }
    }

    method CoalesceOne(ghost p: Machine, ghost wantReg: map<Ref, Reg>, ghost wantSlot: map<Ref, int>,
                       ghost free0: set<Reg>, ghost allow0: set<Reg>, ghost live0: set<Reg>, ghost t0: map<Reg, Reg>)
      requires Shuffling(p, wantReg, wantSlot) && Tracks(free0, allow0, live0, t0) && freeset * live != {}
      modifies this
      ensures Shuffling(p, wantReg, wantSlot) && Tracks(free0, allow0, live0, t0)
      ensures live < old(live) && |live| < |old(live)|
    {
      hide Works, Shielded, Cycle, Spare;
      var rp := PickBot(freeset * live);
      forall gpr, c | Spare(free0, allow0, live0, gpr) == {} && Cycle(c, gpr, t0) ensures rp !in c {
        CycleBlocks(free0, allow0, live0, t0, rp, gpr, c);
      }
      MoveToTarget(rp, p, wantReg, wantSlot);
    }

    lemma StartTracks()
      requires Allocated() && Sources()
      ensures Tracks(freeset, allow, live, Targets())
    {
    }

    lemma FreeBound()
      requires Shielded()
      ensures forall r | r in freeset :: r < maxReg
    {
    }

    lemma NonePending()
      requires Allocated() && Sources() && live == {}
      ensures pend == {}
    {
    }

    lemma NoCycleLeft(free0: set<Reg>, allow0: set<Reg>, live0: set<Reg>, t0: map<Reg, Reg>)
      requires Allocated() && Sources() && Tracks(free0, allow0, live0, t0) && live == {}
      ensures forall gpr :: !Hopeless(free0, allow0, live0, t0, gpr)
    {
    }

    // ----- the passes before the shuffle

    /** The references of the side trace that come from the parent: locations are distinct, and so are slots. */
    ghost predicate Inherited(refs: set<Ref>) { Inherits(refs, loc, spill, gprs, maxGpr, maxReg) }

    /** `left` is still to be scanned, `marked` has a spill slot and waits for a register, and everything else
        is pending, held where it is, or finished. */
    ghost predicate Scanning(refs: set<Ref>, left: set<Ref>, marked: set<Ref>)
      reads this`freeset, this`allow, this`live, this`sloadins, this`cost, this`reg, this`pend, this`held
    {
      Inherited(refs) && Owned(refs, left, marked) && Listed(pend + marked)
    }

    /** Which references own which registers. */
    ghost predicate Owned(refs: set<Ref>, left: set<Ref>, marked: set<Ref>)
      reads this`freeset, this`allow, this`cost, this`reg, this`pend, this`held
    {
      && pend <= refs && left <= refs && marked <= refs && pend !! left && reg.Keys <= refs && refs <= loc.Keys
      && (forall f | f in pend || (f in left && f in reg) ::
            f in reg && reg[f] < maxReg && reg[f] !in freeset && reg[f] in cost && cost[reg[f]] == f
              && IsGpr(reg[f]) == (f in gprs))
      && (forall r: Reg | r < maxReg && r !in freeset ::
        r in cost && cost[r] in pend + left && cost[r] in reg && reg[cost[r]] == r)
      && (forall f | f in pend :: reg[f] !in allow && loc[f] != InReg(reg[f]))
      && held <= freeset && held !! allow && (forall r | r in freeset || r in allow :: r < maxReg)
      && (forall f | f in refs - left - pend && f in reg :: loc[f] == InReg(reg[f]) && reg[f] in held)
      && (forall f | f in marked :: f !in reg && f in spill && f !in left)
    }

    /** The parent registers of `fs` are live. */
    ghost predicate Listed(fs: set<Ref>)
      reads this`live, this`sloadins
    {
      && fs <= loc.Keys
      && (forall f | f in fs && loc[f].InReg? :: loc[f].r in live && loc[f].r in sloadins && sloadins[loc[f].r] == f)
      && (forall r | r in live :: r < maxReg && r in sloadins && sloadins[r] in fs && loc[sloadins[r]] == InReg(r))
    }

    /** The code so far stores to the spill slots of `stored`, and of everything else that was dealt with. */
    ghost predicate Stores(left: set<Ref>, marked: set<Ref>)
      reads this`code, this`stored, this`reg
    {
      && |code| == |stored| && (forall f | f in stored :: f in reg && f in spill && f !in left)
      && (forall i | 0 <= i < |code| :: code[i] == Store(reg[stored[i]], spill[stored[i]]))
      && (forall f | f in spill && f !in left && f !in marked ::
        f in stored || (f in loc && loc[f] == InSlot(spill[f])))
    }

    /** The scan of the parent loads: stores, coalescing of matching registers, and the parent registers
        that are live. */
    method Scan(order: seq<Ref>, ghost refs: set<Ref>) returns (marked: set<Ref>)
      requires refs == SetOf(order) && (forall i, j | 0 <= i < j < |order| :: order[i] != order[j])
      requires Scanning(refs, refs, {}) && pend == {} && code == [] && stored == [] && live == {}
      modifies this`freeset, this`allow, this`live, this`sloadins, this`code, this`pend, this`held, this`stored
      ensures Scanning(refs, {}, marked) && Stores({}, marked) && held >= old(held)
      ensures allow == old(allow) - Taken(refs) && marked == Marked(refs)
    {
      hide Scanning, Stores;
      marked := {};
      StartStores(refs);
      assert order[0..] == order && SetOf(order[0..]) == refs;
      var i := 0;
      while i < |order|
        invariant 0 <= i <= |order| && Scanning(refs, SetOf(order[i..]), marked) && Stores(SetOf(order[i..]), marked)
        invariant held >= old(held) && freeset >= old(freeset)
        invariant allow == old(allow) - Taken(refs - SetOf(order[i..])) && marked == Marked(refs - SetOf(order[i..]))
      {
        marked := ScanOne(order[i], refs, SetOf(order[i..]), marked);
        assert SetOf(order[i..]) - {order[i]} == SetOf(order[i + 1..]);
        assert refs - SetOf(order[i + 1..]) == refs - SetOf(order[i..]) + {order[i]};
        i := i + 1;
      }
      assert SetOf(order[i..]) == {} && refs - SetOf(order[i..]) == refs;
    }

    lemma StartStores(refs: set<Ref>)
      requires Scanning(refs, refs, {}) && code == [] && stored == []
      ensures Stores(refs, {})
    {
    }

    /** The registers of the instructions among `done`. */
    ghost function Taken(done: set<Ref>): set<Reg>
      reads this`reg
    {
      set f | f in done && f in reg :: reg[f]
    }

    /** The instructions among `done` that have a spill slot, but no register. */
    ghost function Marked(done: set<Ref>): set<Ref>
      reads this`reg
    {
      set f | f in done && f !in reg && f in spill
    }

    method ScanOne(f: Ref, ghost refs: set<Ref>, ghost left: set<Ref>, marked: set<Ref>) returns (marked': set<Ref>)
      requires Scanning(refs, left, marked) && Stores(left, marked) && f in left
      modifies this`freeset, this`allow, this`live, this`sloadins, this`code, this`pend, this`held, this`stored
      ensures Scanning(refs, left - {f}, marked') && Stores(left - {f}, marked')
      ensures held >= old(held) && freeset >= old(freeset)
        && allow == if f in reg then old(allow) - {reg[f]} else old(allow)
      ensures marked' == if f !in reg && f in spill then marked + {f} else marked
    {
      hide Scanning, Stores;
      Save(f, left, marked);
      marked' := if f !in reg && f in spill then marked + {f} else marked;
      Place(f, refs, left, marked);
    }

    /** `ra_save` for an instruction that has both a register and a spill slot. */
    method Save(f: Ref, ghost left: set<Ref>, ghost marked: set<Ref>)
      requires Stores(left, marked) && f in left
      modifies this`code, this`stored
      ensures Stores(left - {f}, if f !in reg && f in spill then marked + {f} else marked)
    {
      if f in reg && f in spill {
        code := code + [Store(reg[f], spill[f])];
        stored := stored + [f];
      }
    }

    /** Notes where the instruction and its parent register are; coalesces matching registers right away. */
    method Place(f: Ref, ghost refs: set<Ref>, ghost left: set<Ref>, ghost marked: set<Ref>)
      requires Scanning(refs, left, marked) && f in left
      modifies this`freeset, this`allow, this`live, this`sloadins, this`pend, this`held
      ensures Scanning(refs, left - {f}, if f !in reg && f in spill then marked + {f} else marked)
      ensures held >= old(held) && freeset >= old(freeset)
        && allow == if f in reg then old(allow) - {reg[f]} else old(allow)
    {
      hide Inherited, Owned, Listed;
      LeftIn(refs, left, marked, f);
      ghost var fs := pend + marked;
      if f in reg && loc[f] == InReg(reg[f]) {
        Match(f, refs, left, marked);
      } else {
        if loc[f].InReg? && (f in reg || f in spill) {
          List(f, refs, fs);
        } else if f in reg || f in spill {
          ListSlot(f, fs);
        }
        if f in reg {
          Pend(f, refs, left, marked);
          assert pend + marked == fs + {f};
        } else {
          Skip(f, refs, left, marked);
          if f in spill { assert pend + (marked + {f}) == fs + {f}; }
        }
      }
    }

    lemma LeftIn(refs: set<Ref>, left: set<Ref>, marked: set<Ref>, f: Ref)
      requires Owned(refs, left, marked) && f in left
      ensures f in loc && f in refs && f !in pend && f !in marked && pend + marked <= refs
    {
    }

    /** Blocks a live parent register. */
    method List(f: Ref, ghost refs: set<Ref>, ghost fs: set<Ref>)
      requires Inherited(refs) && Listed(fs) && fs <= refs && f in refs && f !in fs && loc[f].InReg?
      modifies this`live, this`sloadins
      ensures Listed(fs + {f})
    {
      sloadins := sloadins[loc[f].r := f];
      live := live + {loc[f].r};
    }

    lemma ListSlot(f: Ref, fs: set<Ref>)
      requires Listed(fs) && f in loc && loc[f].InSlot?
      ensures Listed(fs + {f})
    {
    }

    /** The register of the instruction is not the one of its parent. */
    method Pend(f: Ref, ghost refs: set<Ref>, ghost left: set<Ref>, ghost marked: set<Ref>)
      requires Owned(refs, left, marked) && f in left && f in reg && loc[f] != InReg(reg[f])
      modifies this`allow, this`pend
      ensures Owned(refs, left - {f}, marked) && allow == old(allow) - {reg[f]} && pend == old(pend) + {f}
    {
      allow := allow - {reg[f]};
      pend := pend + {f};
    }

    /** `ra_free` for an instruction whose register already is its parent's. */
    method Match(f: Ref, ghost refs: set<Ref>, ghost left: set<Ref>, ghost marked: set<Ref>)
      requires Owned(refs, left, marked) && f in left && f in reg && loc[f] == InReg(reg[f])
      modifies this`freeset, this`held, this`allow
      ensures Owned(refs, left - {f}, marked) && allow == old(allow) - {reg[f]}
      ensures held == old(held) + {reg[f]} && freeset == old(freeset) + {reg[f]}
    {
      allow := allow - {reg[f]};
      freeset := freeset + {reg[f]};
      held := held + {reg[f]};
    }

    lemma Skip(f: Ref, refs: set<Ref>, left: set<Ref>, marked: set<Ref>)
      requires Owned(refs, left, marked) && f in left && f !in reg
      ensures Owned(refs, left - {f}, if f in spill then marked + {f} else marked)
    {
    }

    /** The second pass: gives a register to every spilled target that is not in the same slot already. */
    method Reload(order: seq<Ref>, ghost refs: set<Ref>, marked: set<Ref>) returns (ok: bool)
      requires Scanning(refs, {}, marked) && Stores({}, marked) && refs == SetOf(order) && allow <= freeset
      modifies this`freeset, this`allow, this`live, this`cost, this`reg, this`code, this`pend, this`held, this`stored
      ensures ok <==> forall gpr :: |Wanting(marked, gpr)| <= |Room(old(allow), gpr)|
      ensures ok ==> Scanning(refs, {}, {}) && Stores({}, {}) && allow <= freeset && held >= old(held)
      ensures ok ==> Reloaded(marked, old(reg), old(allow), reg) && allow == old(allow) - Regs(reg)
    {
      hide Scanning, Stores, Wanting, Room, Reloaded, Reloads, InPlace;
      NothingReloaded(refs, marked);
      var i, todo := 0, marked;
      assert order[0..] == order && marked <= refs by { MarkedIn(refs, marked); }
      while i < |order|
        invariant 0 <= i <= |order| && Scanning(refs, {}, todo) && Stores({}, todo) && allow <= freeset
          && held >= old(held)
        invariant todo <= SetOf(order[i..]) && todo <= marked
          && Reloaded(marked - todo, old(reg), old(allow), reg) && allow == old(allow) - Regs(reg)
        invariant forall gpr ::
          |Room(allow, gpr)| - |Wanting(todo, gpr)| == |Room(old(allow), gpr)| - |Wanting(marked, gpr)|
      {
        var f := order[i];
        if f in todo {
          ghost var allow1, reg1 := allow, reg;
          ok := ReloadOne(f, refs, todo);
          if !ok {
            OutOfRegs(f, todo, allow1);
            return;
          }
          ReloadedOne(f, marked - todo, old(reg), old(allow), reg1, allow1, reg, allow);
          OneLess(f, todo, reg1, allow1, reg, allow);
          assert marked - todo + {f} == marked - (todo - {f});
          todo := todo - {f};
        }
        assert forall g | g in SetOf(order[i..]) && g != f :: g in SetOf(order[i + 1..]);
        i := i + 1;
      }
      assert todo == {} && marked - todo == marked;
      NoneWanting();
      return true;
    }

    ghost function Regs(reg: map<Ref, Reg>): set<Reg> { set f | f in reg :: reg[f] }

    /** The instructions of `done` that are not in their slot already got allowed registers of their classes, and all
        others have theirs as before. A reload misses its parent's register only if that is taken or not allowed. */
    ghost predicate Reloaded(done: set<Ref>, reg0: map<Ref, Reg>, allow0: set<Reg>, reg1: map<Ref, Reg>)
    {
      && (forall f :: f in reg1 <==> f in reg0 || (f in done && !InPlace(f)))
      && (forall f | f in reg0 :: f in reg1 && reg1[f] == reg0[f])
      && (forall f | f in reg1 && f !in reg0 :: reg1[f] in allow0 && IsGpr(reg1[f]) == (f in gprs))
      && (forall f | f in reg1 && f !in reg0 && f in loc && loc[f].InReg? && loc[f].r in allow0 ::
        loc[f].r in Regs(reg1))
    }

    lemma NothingReloaded(refs: set<Ref>, marked: set<Ref>)
      requires Scanning(refs, {}, marked)
      ensures Reloaded(marked - marked, reg, allow, reg) && allow == allow - Regs(reg)
    {
      forall f | f in reg ensures reg[f] !in allow {
        assert f in refs && (f in pend || reg[f] in held);
      }
    }

    lemma ReloadedOne(f: Ref, done: set<Ref>, reg0: map<Ref, Reg>, allow0: set<Reg>, reg1: map<Ref, Reg>,
                      allow1: set<Reg>, reg2: map<Ref, Reg>, allow2: set<Reg>)
      requires Reloaded(done, reg0, allow0, reg1) && allow1 == allow0 - Regs(reg1)
      requires if InPlace(f) then reg2 == reg1 && allow2 == allow1 else Reloads(f, reg1, allow1, reg2, allow2)
      ensures Reloaded(done + {f}, reg0, allow0, reg2) && allow2 == allow0 - Regs(reg2)
    {
      hide InPlace;
      if !InPlace(f) {
        assert reg2[f] in Regs(reg2);
        forall r ensures r in Regs(reg2) <==> r in Regs(reg1) || r == reg2[f] {
          if r in Regs(reg1) {
            var g :| g in reg1 && reg1[g] == r;
            assert reg2[g] == r;
          }
        }
      }
    }

    /** The marked instructions of one class that are not in their slot already. */
    ghost function Wanting(todo: set<Ref>, gpr: bool): set<Ref>
    {
      set f | f in todo && (f in gprs) == gpr && !InPlace(f)
    }

    predicate InPlace(f: Ref) { f in loc && f in spill && loc[f] == InSlot(spill[f]) }

    ghost function Room(allow: set<Reg>, gpr: bool): set<Reg>
    {
      set r | r in allow && IsGpr(r) == gpr
    }

    lemma NoneWanting()
      ensures forall gpr :: Wanting({}, gpr) == {}
    {
    }

    lemma OutOfRegs(f: Ref, todo: set<Ref>, allow1: set<Reg>)
      requires f in todo && !InPlace(f) && forall r | r in allow1 :: IsGpr(r) != (f in gprs)
      ensures |Room(allow1, f in gprs)| < |Wanting(todo, f in gprs)|
    {
      assert Room(allow1, f in gprs) == {};
      assert f in Wanting(todo, f in gprs);
    }

    /** A reload takes one register of the class, and there is one instruction less that wants one. */
    lemma OneLess(f: Ref, todo: set<Ref>, reg1: map<Ref, Reg>, allow1: set<Reg>, reg2: map<Ref, Reg>,
                  allow2: set<Reg>)
      requires f in todo
      requires if InPlace(f) then reg2 == reg1 && allow2 == allow1 else Reloads(f, reg1, allow1, reg2, allow2)
      ensures forall gpr ::
        |Room(allow2, gpr)| - |Wanting(todo - {f}, gpr)| == |Room(allow1, gpr)| - |Wanting(todo, gpr)|
    {
      hide Room, Wanting, InPlace;
      forall gpr
        ensures |Room(allow2, gpr)| - |Wanting(todo - {f}, gpr)| == |Room(allow1, gpr)| - |Wanting(todo, gpr)|
      {
        WantingLess(f, todo, gpr);
        if !InPlace(f) { RoomLess(reg2[f], allow1, gpr); }
      }
    }

    lemma WantingLess(f: Ref, todo: set<Ref>, gpr: bool)
      requires f in todo
      ensures |Wanting(todo - {f}, gpr)| == |Wanting(todo, gpr)| - if InPlace(f) || (f in gprs) != gpr then 0 else 1
    {
      hide InPlace;
      if InPlace(f) || (f in gprs) != gpr {
        assert Wanting(todo - {f}, gpr) == Wanting(todo, gpr);
      } else {
        assert Wanting(todo - {f}, gpr) == Wanting(todo, gpr) - {f};
      }
    }

    lemma RoomLess(r: Reg, allow1: set<Reg>, gpr: bool)
      requires r in allow1
      ensures |Room(allow1 - {r}, gpr)| == |Room(allow1, gpr)| - if IsGpr(r) == gpr then 1 else 0
    {
      if IsGpr(r) == gpr {
        assert Room(allow1 - {r}, gpr) == Room(allow1, gpr) - {r};
      } else {
        assert Room(allow1 - {r}, gpr) == Room(allow1, gpr);
      }
    }

    lemma MarkedIn(refs: set<Ref>, marked: set<Ref>)
      requires Scanning(refs, {}, marked)
      ensures marked <= refs
    {
    }

    /** The hint for a reload: the second pass sets it again to the parent's register, if there is one. */
    predicate Hints(f: Ref, r: Reg)
    {
      if f in loc && loc[f].InReg? then r == loc[f].r else f in hints && hints[f] == r
    }

    /** `ra_allocref` with a free register in the allowed set: the hint if possible, otherwise by preference. */
    method AllocRef(f: Ref, mask: set<Reg>) returns (r: Reg)
      requires freeset * mask != {} && f !in reg
      modifies this`freeset, this`cost, this`reg
      ensures r in old(freeset) * mask && forall h | h in old(freeset) * mask && Hints(f, h) :: r == h
      ensures freeset == old(freeset) - {r} && cost == old(cost)[r := f] && reg == old(reg)[f := r]
    {
      var pick := freeset * mask;
      r :| r in pick;
      if f in loc && loc[f].InReg? {
        if loc[f].r in pick { r := loc[f].r; }
      } else if f in hints && hints[f] in pick {
        r := hints[f];
      }
      reg, cost := reg[f := r], cost[r := f];
      freeset := freeset - {r};
    }

    method ReloadOne(f: Ref, ghost refs: set<Ref>, ghost todo: set<Ref>) returns (ok: bool)
      requires Scanning(refs, {}, todo) && Stores({}, todo) && f in todo && allow <= freeset
      modifies this`freeset, this`allow, this`live, this`cost, this`reg, this`code, this`pend, this`held, this`stored
      ensures ok <==> InPlace(f) || exists r :: r in old(allow) && IsGpr(r) == (f in gprs)
      ensures ok ==> Scanning(refs, {}, todo - {f}) && Stores({}, todo - {f}) && allow <= freeset && held >= old(held)
      ensures ok ==>
        if InPlace(f) then reg == old(reg) && allow == old(allow) else Reloads(f, old(reg), old(allow), reg, allow)
    {
      hide Inherited, Owned, Listed, Stores, Hints;
      TodoIn(refs, todo, f);
      if loc[f].InSlot? && loc[f].slot == spill[f] {
        SameSlot(f, refs, todo, pend + todo);
        return true;
      }
      var mask := set r | r in allow && IsGpr(r) == (f in gprs);
      if mask == {} {
        assert forall r | r in allow && IsGpr(r) == (f in gprs) :: r in mask;
        return false;
      }
      ghost var fs := pend + todo;
      var r := TakeReg(f, refs, todo, mask);
      HintInMask(f, refs, old(allow), mask, r);
      SaveNew(f, todo);
      SettleReg(f, r, refs, todo, fs);
      return true;
    }

    /** `f` got an allowed register of its class: its parent's, if that was allowed. */
    ghost predicate Reloads(f: Ref, reg0: map<Ref, Reg>, allow0: set<Reg>, reg1: map<Ref, Reg>, allow1: set<Reg>)
    {
      && f !in reg0 && f in reg1 && reg1 == reg0[f := reg1[f]] && allow1 == allow0 - {reg1[f]}
      && reg1[f] in allow0 && IsGpr(reg1[f]) == (f in gprs)
      && (f in loc && loc[f].InReg? && loc[f].r in allow0 ==> reg1[f] == loc[f].r)
    }

    lemma HintInMask(f: Ref, refs: set<Ref>, allow0: set<Reg>, mask: set<Reg>, r: Reg)
      requires Inherited(refs) && f in refs && mask == (set r | r in allow0 && IsGpr(r) == (f in gprs))
      requires forall h | h in mask && Hints(f, h) :: r == h
      ensures f in loc && (loc[f].InReg? && loc[f].r in allow0 ==> r == loc[f].r)
    {
      if f in loc && loc[f].InReg? && loc[f].r in allow0 { assert loc[f].r in mask && Hints(f, loc[f].r); }
    }

    /** The instruction, now in register `r`, either is where its parent has it, or becomes pending. */
    method SettleReg(f: Ref, r: Reg, ghost refs: set<Ref>, ghost todo: set<Ref>, ghost fs: set<Ref>)
      requires Owned(refs, {f}, todo - {f}) && Listed(fs) && fs == pend + todo && f in todo && f !in pend
      requires f in loc && f in reg && reg[f] == r && freeset + {r} >= allow
      modifies this`freeset, this`allow, this`live, this`pend, this`held
      ensures Owned(refs, {}, todo - {f}) && Listed(pend + (todo - {f})) && allow == old(allow) - {r}
        && allow <= freeset && held >= old(held)
    {
      hide Owned, Listed;
      assert {f} - {f} == {};
      if loc[f] == InReg(r) {
        Match(f, refs, {f}, todo - {f});
        Unlist(f, fs);
        assert pend + (todo - {f}) == fs - {f};
      } else {
        Pend(f, refs, {f}, todo - {f});
        assert pend + (todo - {f}) == fs;
      }
    }

    lemma TodoIn(refs: set<Ref>, todo: set<Ref>, f: Ref)
      requires Owned(refs, {}, todo) && f in todo
      ensures f in loc && f in spill && f !in reg && f in refs && f !in pend
      ensures forall g | g in pend :: g in reg
    {
    }

    lemma SameSlot(f: Ref, refs: set<Ref>, todo: set<Ref>, fs: set<Ref>)
      requires Owned(refs, {}, todo) && Listed(pend + todo) && Stores({}, todo) && f in todo && f in loc && f in spill
        && loc[f] == InSlot(spill[f])
      ensures Owned(refs, {}, todo - {f}) && Listed(pend + (todo - {f})) && Stores({}, todo - {f})
    {
    }

    method TakeReg(f: Ref, ghost refs: set<Ref>, ghost todo: set<Ref>, mask: set<Reg>) returns (r: Reg)
      requires Owned(refs, {}, todo) && f in todo && mask != {} && mask <= allow <= freeset
      requires f !in reg && (forall r | r in mask :: IsGpr(r) == (f in gprs)) && Stores({}, todo)
      modifies this`freeset, this`cost, this`reg
      ensures Stores({}, todo) && Owned(refs, {f}, todo - {f}) && reg == old(reg)[f := r] && r in mask
        && freeset == old(freeset) - {r}
      ensures forall h | h in mask && Hints(f, h) :: r == h
    {
      assert freeset * mask == mask;
      r := AllocRef(f, mask);
    }

    /** `ra_save` of a register that was just allocated. */
    method SaveNew(f: Ref, ghost todo: set<Ref>)
      requires f in todo && f in spill && f in reg && Stores({}, todo)
      modifies this`code, this`stored
      ensures Stores({}, todo - {f})
    {
      code := code + [Store(reg[f], spill[f])];
      stored := stored + [f];
    }

    method Unlist(f: Ref, ghost fs: set<Ref>)
      requires Listed(fs) && f in fs && f in loc && loc[f].InReg?
      modifies this`live
      ensures Listed(fs - {f})
    {
      live := live - {loc[f].r};
    }

    /** After the first two passes: the code emitted so far works once every pending reference is in place. */
    lemma StoresWork(p: Machine, refs: set<Ref>, wantReg: map<Ref, Reg>)
      requires Scanning(refs, {}, {}) && Stores({}, {}) && wantReg.Keys <= reg.Keys
        && forall f | f in wantReg :: reg[f] == wantReg[f]
      ensures pend <= reg.Keys && pend <= loc.Keys && wantReg.Keys <= loc.Keys && spill.Keys <= loc.Keys
      ensures Works(code, p, pend, reg, loc, held, wantReg, spill)
    {
      forall q: Machine | Ready(q, p, pend, reg, loc, held) ensures Goal(Run(code, q), p, loc, wantReg, spill) {
        RunStores(code, stored, reg, spill, q);
        forall f | f in refs && f in reg ensures RegOf(q, reg[f]) == ValueAt(p, loc[f]) {
        }
      }
    }

    /** The third pass: target registers whose parent value is in a spill slot are loaded from there. */
    method Restore(ghost p: Machine, ghost wantReg: map<Ref, Reg>, ghost wantSlot: map<Ref, int>)
      requires Restoring(p, wantReg, wantSlot) && allow <= freeset
      modifies this`freeset, this`code, this`pend
      ensures Shuffling(p, wantReg, wantSlot) && allow <= freeset
    {
      hide Works, Restoring, Shuffling;
      var work: set<Reg> := set r: Reg | 0 <= r < maxReg && r !in freeset;
      Holders(p, wantReg, wantSlot);
      while work != {}
        invariant Restoring(p, wantReg, wantSlot) && allow <= freeset
        invariant forall r | r in work :: r < maxReg && r !in freeset
        invariant forall f | f in pend :: f in loc && f in reg && (loc[f].InSlot? ==> reg[f] in work)
        decreases |work|
      {
        var r := PickBot(work);
        assert r in work;
        Holders(p, wantReg, wantSlot);
        var f := cost[r];
        work := work - {r};
        if loc[f].InSlot? {
          LoadFromSlot(f, p, wantReg, wantSlot);
        }
      }
      AllInRegs(p, wantReg, wantSlot);
    }

    method LoadFromSlot(f: Ref, ghost p: Machine, ghost wantReg: map<Ref, Reg>, ghost wantSlot: map<Ref, int>)
      requires Restoring(p, wantReg, wantSlot) && f in pend && loc[f].InSlot?
      modifies this`freeset, this`code, this`pend
      ensures Restoring(p, wantReg, wantSlot) && pend == old(pend) - {f} && freeset == old(freeset) + {reg[f]}
    {
      LoadSettles(code, p, pend, reg, loc, held, wantReg, wantSlot, f);
      freeset := freeset + {reg[f]};
      code := code + [Load(reg[f], loc[f].slot)];
      pend := pend - {f};
    }

    lemma AllInRegs(p: Machine, wantReg: map<Ref, Reg>, wantSlot: map<Ref, int>)
      requires Restoring(p, wantReg, wantSlot) && forall f | f in pend :: loc[f].InReg?
      ensures Shuffling(p, wantReg, wantSlot)
    {
      hide Works;
    }

    lemma Holders(p: Machine, wantReg: map<Ref, Reg>, wantSlot: map<Ref, int>)
      requires Restoring(p, wantReg, wantSlot)
      ensures forall f | f in pend ::
        f in reg && f in loc && reg[f] < maxReg && reg[f] !in freeset && reg[f] in cost && cost[reg[f]] == f
      ensures forall r: Reg | r < maxReg && r !in freeset ::
        r in cost && cost[r] in pend && cost[r] in reg && reg[cost[r]] == r
    {
    }

    ghost predicate Restoring(p: Machine, wantReg: map<Ref, Reg>, wantSlot: map<Ref, int>)
      reads this
    {
      && Allocated() && Shielded() && wantReg.Keys <= loc.Keys && wantSlot.Keys <= loc.Keys
      && (forall f | f in pend && loc[f].InReg? ::
        loc[f].r in live && loc[f].r in sloadins && sloadins[loc[f].r] == f && IsGpr(loc[f].r) == IsGpr(reg[f]))
      && (forall r | r in live :: r < maxReg && r in sloadins && sloadins[r] in pend && loc[sloadins[r]] == InReg(r))
      && Works(code, p, pend, reg, loc, held, wantReg, wantSlot)
    }

    lemma ReadyToRestore(p: Machine, refs: set<Ref>, wantReg: map<Ref, Reg>)
      requires Scanning(refs, {}, {}) && pend <= reg.Keys && wantReg.Keys <= loc.Keys && spill.Keys <= loc.Keys
      requires Works(code, p, pend, reg, loc, held, wantReg, spill)
      ensures Restoring(p, wantReg, spill)
    {
      hide Works;
    }

    // ----- the whole head

    /** Each class has as many registers that no instruction occupies as it has reloads that need one. */
    ghost predicate EnoughRegs(refs: set<Ref>)
      reads this`allow, this`reg
    {
      forall gpr :: |Wanting(Marked(refs), gpr)| <= |Room(allow - Taken(refs), gpr)|
    }

    /** The instructions whose value is in another register than their own, with the parent's register. */
    ghost function Unsettled(reg1: map<Ref, Reg>): map<Ref, Reg>
    {
      map f | f in reg1 && f in loc && loc[f].InReg? && loc[f].r != reg1[f] :: loc[f].r
    }

    /** The allowed registers of a class that no instruction has and no value comes from. */
    ghost function Idle(allow0: set<Reg>, reg1: map<Ref, Reg>, gpr: bool): set<Reg>
    {
      set r | r in allow0 && r !in Regs(reg1) && r !in Regs(Unsettled(reg1)) && IsGpr(r) == gpr
    }

    /** Instructions of one class, each of which has its value in the register of one of them. */
    ghost predicate Ring(c: set<Ref>, gpr: bool, from: map<Ref, Reg>, to: map<Ref, Reg>)
    {
      c != {} && c <= from.Keys && c <= to.Keys
      && forall f | f in c :: IsGpr(from[f]) == gpr && Feeds(c, to, from[f])
    }

    /** A class with registers to exchange, and none to do it with. */
    ghost predicate Blocked(allow0: set<Reg>, reg1: map<Ref, Reg>, gpr: bool)
    {
      Idle(allow0, reg1, gpr) == {} && exists c :: Ring(c, gpr, Unsettled(reg1), reg1)
    }

    /** `asm_head_side` from the scan to the end of the shuffle. If it does not give up, then the code leaves
        every inherited value in its register and in its slot, whatever the parent's registers and frame hold.
        With `reg1`, the registers of all instructions after the reloads, it gives up exactly when a class has fewer
        registers left than reloads that need one, or has registers to exchange and no idle one. */
    method Head(order: seq<Ref>, ghost refs: set<Ref>, ghost p: Machine) returns (ok: bool, ghost reg1: map<Ref, Reg>)
      requires refs == SetOf(order) && (forall i, j | 0 <= i < j < |order| :: order[i] != order[j])
      requires Scanning(refs, refs, {}) && pend == {} && code == [] && stored == [] && live == {}
      modifies this
      ensures old(reg).Keys <= loc.Keys && spill.Keys <= loc.Keys
      ensures ok ==> Goal(Run(code, p), p, loc, old(reg), spill)
      ensures ok <==> old(EnoughRegs(refs)) && forall gpr :: !Blocked(old(allow), reg1, gpr)
      ensures old(EnoughRegs(refs)) ==> Reloaded(old(Marked(refs)), old(reg), old(allow - Regs(reg)), reg1)
    {
      hide Scanning, Stores, Works, Goal, Run, Restoring, Shuffling, Hopeless, Wanting, Room, Taken, Marked, Blocked;
      hide Reloaded, Regs, Unsettled;
      reg1 := reg;
      ghost var reg0, allow0 := reg, allow;
      KeysIn(refs);
      var marked := Scan(order, refs);
      AllowIsFree(refs, marked);
      ok := Reload(order, refs, marked);
      if !ok {
        return;
      }
      reg1 := reg;
      RegsGrow(marked, reg0, allow0, reg1);
      StoresWork(p, refs, reg0);
      ReadyToRestore(p, refs, reg0);
      ShuffleStart(refs);
      Restore(p, reg0, spill);
      StuckIsBlocked(p, reg0, allow0);
      ok := Shuffle(p, reg0, spill);
    }

    /** The parent's registers of one class. */
    ghost function Parents(refs: set<Ref>, gpr: bool): set<Reg>
      requires refs <= loc.Keys
    {
      set f | f in refs && loc[f].InReg? && IsGpr(loc[f].r) == gpr :: loc[f].r
    }

    /** A class cannot get stuck if, before anything is reloaded, it has more registers that are not taken and not the
        parent's than reloads that need one: whatever registers the reloads get, one is idle afterwards. */
    lemma RoomSuffices(refs: set<Ref>, marked: set<Ref>, reg0: map<Ref, Reg>, allow0: set<Reg>, reg1: map<Ref, Reg>,
                       gpr: bool)
      requires refs <= loc.Keys && reg0.Keys <= refs && marked <= refs
      requires Reloaded(marked, reg0, allow0 - Regs(reg0), reg1)
      requires |Room(allow0 - Regs(reg0) - Parents(refs, gpr), gpr)| > |Wanting(marked, gpr)|
      ensures !Blocked(allow0, reg1, gpr)
    {
      hide InPlace, Ring;
      var room, want := Room(allow0 - Regs(reg0) - Parents(refs, gpr), gpr), Wanting(marked, gpr);
      var got := set f | f in want && f in reg1 :: reg1[f];
      ImageAtMost(want, reg1);
      if room <= got { SubsetSize(room, got); }
      var r :| r in room && r !in got;
      forall f | f in reg1 ensures reg1[f] != r { RegOrigin(marked, reg0, allow0 - Regs(reg0), reg1, f); }
      assert r !in Regs(Unsettled(reg1));
      assert r in Idle(allow0, reg1, gpr);
    }

    /** A register was there before or was given to an instruction that wanted one of its class. */
    lemma RegOrigin(marked: set<Ref>, reg0: map<Ref, Reg>, allow0: set<Reg>, reg1: map<Ref, Reg>, f: Ref)
      requires Reloaded(marked, reg0, allow0, reg1) && f in reg1
      ensures reg1[f] in Regs(reg0) || f in Wanting(marked, IsGpr(reg1[f]))
    {
      if f in reg0 { RegIn(reg0, f); }
    }

    lemma RegsGrow(done: set<Ref>, reg0: map<Ref, Reg>, allow0: set<Reg>, reg1: map<Ref, Reg>)
      requires Reloaded(done, reg0, allow0 - Regs(reg0), reg1)
      ensures allow0 - Regs(reg0) - Regs(reg1) == allow0 - Regs(reg1)
      ensures reg0.Keys <= reg1.Keys && forall f | f in reg0 :: reg1[f] == reg0[f]
    {
      hide InPlace;
      forall r | r in Regs(reg0) ensures r in Regs(reg1) {
        var f :| f in reg0 && reg0[f] == r;
        assert reg1[f] == r;
      }
    }

    /** What is pending when the shuffle starts. */
    lemma ShuffleStart(refs: set<Ref>)
      requires Scanning(refs, {}, {})
      ensures live == Regs(Unsettled(reg)) && Chases(Unsettled(reg), sloadins)
    {
      var from := Unsettled(reg);
      assert pend + {} == pend;
      forall f | f in from ensures f in pend { assert f in refs; }
      forall r ensures r in live <==> r in Regs(from) {
        if r in live { assert sloadins[r] in from && from[sloadins[r]] == r; }
      }
    }

    /** `back` leads from a register to the instruction whose value is there. */
    ghost predicate Chases(from: map<Ref, Reg>, back: map<Reg, Ref>)
    {
      forall f | f in from :: from[f] in back && back[from[f]] == f
    }

    lemma StuckIsBlocked(p: Machine, reg0: map<Ref, Reg>, allow0: set<Reg>)
      requires Shuffling(p, reg0, spill) && allow <= freeset && allow == allow0 - Regs(reg)
        && live == Regs(Unsettled(reg)) && Chases(Unsettled(reg), sloadins)
      ensures forall gpr :: Hopeless(freeset, allow, live, Targets(), gpr) <==> Blocked(allow0, reg, gpr)
    {
      hide Works, Regs, Ring, Cycle;
      var from, t := Unsettled(reg), Targets();
      forall f | f in from ensures from[f] in t && t[from[f]] == reg[f] { RegIn(from, f); }
      hide Unsettled;
      forall gpr ensures Hopeless(freeset, allow, live, t, gpr) <==> Blocked(allow0, reg, gpr) {
        assert Spare(freeset, allow, live, gpr) == Idle(allow0, reg, gpr);
        if c :| Cycle(c, gpr, t) { CycleIsRing(c, gpr, from, reg, t); }
        if d :| Ring(d, gpr, from, reg) { RingIsCycle(d, gpr, from, reg, t); }
      }
    }

    lemma RegIn(reg1: map<Ref, Reg>, f: Ref)
      requires f in reg1
      ensures reg1[f] in Regs(reg1)
    {
    }

    lemma CycleIsRing(c: set<Reg>, gpr: bool, from: map<Ref, Reg>, to: map<Ref, Reg>, t: map<Reg, Reg>)
      requires t.Keys == Regs(from) && forall f | f in from :: f in to && from[f] in t && t[from[f]] == to[f]
      requires Cycle(c, gpr, t)
      ensures exists d :: Ring(d, gpr, from, to)
    {
      hide Feeds;
      var d := set f | f in from && from[f] in c;
      var r :| r in c;
      var f0 :| f0 in from && from[f0] == r;
      assert f0 in d;
      forall f | f in d ensures Feeds(d, to, from[f]) { FeedsBack(c, d, from, to, t, from[f]); }
      assert Ring(d, gpr, from, to);
    }

    lemma FeedsBack(c: set<Reg>, d: set<Ref>, from: map<Ref, Reg>, to: map<Ref, Reg>, t: map<Reg, Reg>, r: Reg)
      requires t.Keys == Regs(from) && forall f | f in from :: f in to && from[f] in t && t[from[f]] == to[f]
      requires c <= t.Keys && Feeds(c, t, r) && d == set f | f in from && from[f] in c
      ensures Feeds(d, to, r)
    {
      var s :| s in c && t[s] == r;
      var g :| g in from && from[g] == s;
      assert g in d && to[g] == r;
    }

    lemma RingIsCycle(d: set<Ref>, gpr: bool, from: map<Ref, Reg>, to: map<Ref, Reg>, t: map<Reg, Reg>)
      requires t.Keys == Regs(from) && forall f | f in from :: f in to && from[f] in t && t[from[f]] == to[f]
      requires Ring(d, gpr, from, to)
      ensures exists c :: Cycle(c, gpr, t)
    {
      hide Feeds;
      var c := set f | f in d :: from[f];
      var f0 :| f0 in d;
      assert from[f0] in c;
      forall r | r in c ensures r in t && IsGpr(r) == gpr && Feeds(c, t, r) {
        var f :| f in d && from[f] == r;
        FeedsOn(c, d, from, to, t, r);
      }
      assert Cycle(c, gpr, t);
    }

    lemma FeedsOn(c: set<Reg>, d: set<Ref>, from: map<Ref, Reg>, to: map<Ref, Reg>, t: map<Reg, Reg>, r: Reg)
      requires forall f | f in from :: f in to && from[f] in t && t[from[f]] == to[f]
      requires d <= from.Keys && Feeds(d, to, r) && c == set f | f in d :: from[f]
      ensures c <= t.Keys && Feeds(c, t, r)
    {
      var g :| g in d && to[g] == r;
      assert from[g] in c && t[from[g]] == r;
    }

    /** Where every instruction with a spill slot has a register, nothing is reloaded. */
    lemma NoReloads(refs: set<Ref>)
      requires Marked(refs) == {}
      ensures EnoughRegs(refs)
      ensures forall allow0, reg1 :: Reloaded(Marked(refs), reg, allow0, reg1) ==> reg1 == reg
    {
      forall gpr ensures |Wanting({}, gpr)| == 0 { NoneWanting(); }
    }

    lemma KeysIn(refs: set<Ref>)
      requires Scanning(refs, refs, {})
      ensures reg.Keys <= loc.Keys && spill.Keys <= loc.Keys && Taken(refs) == Regs(reg)
    {
    }

    lemma AllowIsFree(refs: set<Ref>, marked: set<Ref>)
      requires Scanning(refs, {}, marked)
      ensures allow <= freeset
    {
    }
  }

  /** Two values that have to change places: one idle register is what it takes. */
  method Exchange(idle: bool, ghost p: Machine) returns (ok: bool, code: seq<Ins>)
    ensures ok <==> idle
    ensures ok ==> RegOf(Run(code, p), 0) == RegOf(p, 1) && RegOf(Run(code, p), 1) == RegOf(p, 0)
  {
    hide Run, SetOf, SideHead.Blocked, SideHead.Scanning, SideHead.Reloaded, SideHead.EnoughRegs, SideHead.Regs;
    var loc, reg := map[5 := InReg(0), 6 := InReg(1)], map[5 := 1, 6 := 0];
    var allow := if idle then {0, 1, 2} else {0, 1};
    var head := new SideHead(3, 3, loc, map[], {5, 6}, map[], reg, allow, {5, 6});
    head.NoReloads({5, 6});
    ExchangeBlocked(head, reg, allow, idle);
    TwoOf(5, 6);
    ghost var reg1;
    ok, reg1 := head.Head([5, 6], {5, 6}, p);
    assert head.Blocked(allow, reg, true) <==> !idle;
    code := head.code;
  }

  lemma TwoOf(f: Ref, g: Ref)
    ensures SetOf([f, g]) == {f, g}
  {
  }

  lemma ExchangeBlocked(head: SideHead, reg: map<Ref, Reg>, allow: set<Reg>, idle: bool)
    requires head.loc == map[5 := InReg(0), 6 := InReg(1)] && head.maxGpr == 3
    requires reg == map[5 := 1, 6 := 0] && allow == if idle then {0, 1, 2} else {0, 1}
    ensures forall gpr :: head.Blocked(allow, reg, gpr) <==> gpr && !idle
  {
    var from := head.Unsettled(reg);
    assert from == map[5 := 0, 6 := 1];
    assert head.Regs(reg) == {0, 1} by { assert reg[5] in head.Regs(reg) && reg[6] in head.Regs(reg); }
    assert head.Regs(from) == {0, 1} by { assert from[5] in head.Regs(from) && from[6] in head.Regs(from); }
    assert idle ==> 2 in head.Idle(allow, reg, true);
    assert head.Ring({5, 6}, true, from, reg) by {
      assert 6 in {5, 6} && reg[6] == from[5] && 5 in {5, 6} && reg[5] == from[6];
    }
  }

  lemma {:induction false} RunStores(code: seq<Ins>, stored: seq<Ref>, reg: map<Ref, Reg>, spill: map<Ref, int>,
                                     q: Machine)
    requires |code| == |stored|
      && forall i | 0 <= i < |code| ::
      stored[i] in reg && stored[i] in spill && code[i] == Store(reg[stored[i]], spill[stored[i]])
    requires forall f, g | f in spill && g in spill && f != g :: spill[f] != spill[g]
    ensures Run(code, q).regs == q.regs
    ensures forall f | f in spill ::
      SlotOf(Run(code, q), spill[f]) == if f in stored && f in reg then RegOf(q, reg[f]) else SlotOf(q, spill[f])
    decreases |code|
  {
    if code != [] {
      var n := |code| - 1;
      RunStores(code[..n], stored[..n], reg, spill, Do(code[n], q));
      assert stored == stored[..n] + [stored[n]];
    }
  }

  /** One of `c` is mapped to `r`. */
  ghost predicate Feeds(c: set<nat>, to: map<nat, nat>, r: nat)
    requires c <= to.Keys
  {
    exists g :: g in c && to[g] == r
  }

  ghost function SetOf(s: seq<Ref>): set<Ref> { set f | f in s }

  lemma Permutes(a: set<Reg>, b: set<Ref>, cost: map<Reg, Ref>, reg: map<Ref, Reg>, back: map<Ref, Reg>,
                 sloadins: map<Reg, Ref>)
    requires forall r | r in a :: r in cost && cost[r] in b && cost[r] in reg && reg[cost[r]] == r
    requires forall f | f in b :: f in back && back[f] in a && back[f] in sloadins && sloadins[back[f]] == f
    ensures forall f | f in b :: f in reg && reg[f] in a
  {
    InjectiveImage(a, cost, b);
    InjectiveImage(b, back, a);
  }

  lemma {:induction false} ImageSize(a: set<nat>, m: map<nat, nat>)
    requires a <= m.Keys && forall x, y | x in a && y in a && x != y :: m[x] != m[y]
    ensures |set x | x in a :: m[x]| == |a|
  {
    if a != {} {
      var x :| x in a;
      var b := a - {x};
      ImageSize(b, m);
      assert (set y | y in a :: m[y]) == (set y | y in b :: m[y]) + {m[x]};
      assert m[x] !in (set y | y in b :: m[y]);
    }
  }

  lemma {:induction false} ImageAtMost(a: set<nat>, m: map<nat, nat>)
    ensures |set x | x in a && x in m :: m[x]| <= |a|
  {
    if a != {} {
      var x :| x in a;
      var b := a - {x};
      ImageAtMost(b, m);
      var s, t := set y | y in b && y in m :: m[y], set y | y in a && y in m :: m[y];
      if x in m { assert t == s + {m[x]}; } else { assert t == s; }
    }
  }

  lemma SubsetSize(a: set<nat>, b: set<nat>)
    requires a <= b
    ensures |a| <= |b|
  {
    assert b == a + (b - a);
  }

  lemma InjectiveImage(a: set<nat>, m: map<nat, nat>, b: set<nat>)
    requires a <= m.Keys && (forall x, y | x in a && y in a && x != y :: m[x] != m[y]) && forall x | x in a :: m[x] in b
    ensures |a| <= |b| && (|a| == |b| ==> forall y | y in b :: exists x :: x in a && m[x] == y)
  {
    var image := set x | x in a :: m[x];
    ImageSize(a, m);
    assert image <= b;
    assert b == image + (b - image);
  }
}
