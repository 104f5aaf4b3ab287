/** The processor: its state, and the program's methods that run it. Each is proved to do what the
    functions of the other modules say. */
module CpuCore {
  import opened Words
  import opened CpuState
  import opened CpuInterrupts
  import opened CpuTfm
  import opened CpuCopies
  import opened CpuAlu

  class Cpu {
    var r: Regs
    const mem: array<byte>
    var irqLine: bool
    var firqLine: bool
    var nmiPending: bool
    var waitSync: bool
    var halted: bool
    var cwaiPushed: bool

    ghost predicate Valid() { mem.Length == WORD_16 }

    ghost function State(): Machine
      requires Valid()
      reads this, mem
    {
      Machine(r, mem[..], irqLine, firqLine, nmiPending, waitSync, halted, cwaiPushed)
    }

    constructor (contents: Ram)
      ensures Valid() && fresh(mem)
      ensures r.pc == 0x100 * contents[0xFFFE] as int + contents[0xFFFF]
      ensures State() == Machine(Regs(Read16(contents, VEC_RESET), 0, 0, 0, 0, 0, 0, 0, 0, 0, 0, 0,
                                      Flags(false, true, false, true, false, false, false, false)),
                                 contents, false, false, false, false, false, false)
    {
      r := Regs(Read16(contents, VEC_RESET), 0, 0, 0, 0, 0, 0, 0, 0, 0, 0, 0,
                Flags(false, true, false, true, false, false, false, false));
      mem := new byte[WORD_16](i requires 0 <= i < WORD_16 => contents[i]);
      irqLine, firqLine, nmiPending, waitSync, halted, cwaiPushed := false, false, false, false, false, false;
    }

    /** The bytes pushed since the stack was at `top` and memory was `base`, last one first. */
    ghost predicate Stacked(base: Ram, top: u16, bytes: Bytes)
      requires Valid()
      reads this, mem
    {
      |bytes| < 20 && r.s == ToU16(top - |bytes|) && mem[..] == Laid(base, r.s, bytes)
    }

    method Push8(v: byte, ghost base: Ram, ghost top: u16, ghost below: Bytes)
      requires Valid() && Stacked(base, top, below) && |below| < 19
      modifies this`r, mem
      ensures r == old(r).(s := r.s) && Stacked(base, top, [v] + below)
    {
      LaidPush(base, r.s, below, v);
      r := r.(s := ToU16(r.s - 1));
      mem[r.s] := v;
    }

    method Push16(v: u16, ghost base: Ram, ghost top: u16, ghost below: Bytes)
      requires Valid() && Stacked(base, top, below) && |below| < 18
      modifies this`r, mem
      ensures r == old(r).(s := r.s) && Stacked(base, top, BigEndian(v) + below)
    {
      Push8(v % 0x100, base, top, below);
      Push8(v / 0x100, base, top, [v % 0x100] + below);
      assert [v / 0x100] + ([v % 0x100] + below) == BigEndian(v) + below;
    }

    method PushUpper(ghost base: Ram, ghost top: u16)
      requires Valid() && Stacked(base, top, [])
      modifies this`r, mem
      ensures r == old(r).(s := r.s) && Stacked(base, top, UpperFrame(r))
    {
      ghost var pc, u, y, x := BigEndian(r.pc), BigEndian(r.u), BigEndian(r.y), BigEndian(r.x);
      Push16(r.pc, base, top, []);
      Push16(r.u, base, top, pc + []);
      Push16(r.y, base, top, u + (pc + []));
      Push16(r.x, base, top, y + (u + (pc + [])));
      Push8(r.dp, base, top, x + (y + (u + (pc + []))));
      assert [r.dp] + (x + (y + (u + (pc + [])))) == UpperFrame(r);
    }

    method PushLower(ghost base: Ram, ghost top: u16, ghost below: Bytes)
      requires Valid() && Stacked(base, top, below) && |below| == 9
      modifies this`r, mem
      ensures r == old(r).(s := r.s) && Stacked(base, top, LowerFrame(r) + below)
    {
      ghost var w: Bytes := if r.Native() then [r.e] + ([r.f] + below) else below;
      if r.Native() {
        Push8(r.f, base, top, below);
        Push8(r.e, base, top, [r.f] + below);
      }
      Push8(r.b, base, top, w);
      Push8(r.a, base, top, [r.b] + w);
      Push8(r.cc.Byte(), base, top, [r.a] + ([r.b] + w));
      assert [r.cc.Byte()] + ([r.a] + ([r.b] + w)) == LowerFrame(r) + below;
    }

    method PushFullSet()
      requires Valid()
      modifies this`r, mem
      ensures State() == Pushed(old(State()), true)
    {
      ghost var base, top := mem[..], r.s;
      LaidNothing(base, top);
      r := r.(cc := r.cc.(e := true));
      PushUpper(base, top);
      PushLower(base, top, UpperFrame(r));
      assert LowerFrame(r) + UpperFrame(r) == FullFrame(old(r));
    }

    method PushPartialSet()
      requires Valid()
      modifies this`r, mem
      ensures State() == Pushed(old(State()), false)
    {
      ghost var base, top := mem[..], r.s;
      LaidNothing(base, top);
      r := r.(cc := r.cc.(e := false));
      Push16(r.pc, base, top, []);
      Push8(r.cc.Byte(), base, top, BigEndian(r.pc) + []);
      assert [r.cc.Byte()] + (BigEndian(r.pc) + []) == PartialFrame(old(r));
    }

    method ReadWord(a: u16) returns (v: u16)
      requires Valid()
      ensures v == Read16(mem[..], a)
    {
      v := Word(mem[a], mem[ToU16(a + 1)]);
    }

    method Vector(vector: u16, maskIrq: bool, maskFirq: bool)
      requires Valid()
      modifies this`r
      ensures State() == Vectored(old(State()), vector, maskIrq, maskFirq)
    {
      r := r.(cc := r.cc.(i := r.cc.i || maskIrq, f := r.cc.f || maskFirq));
      var handler := ReadWord(vector);
      r := r.(pc := handler);
    }

    method EnterInterrupt(vector: u16, maskFirq: bool, full: bool)
      requires Valid()
      modifies this`r, this`cwaiPushed, mem
      ensures State() == Entered(old(State()), vector, maskFirq, full)
    {
      var skip := cwaiPushed;
      cwaiPushed := false;
      if !skip {
        if full {
          PushFullSet();
        } else {
          PushPartialSet();
        }
      }
      Vector(vector, true, maskFirq);
    }

    method Trap(cause: nat)
      requires Valid() && (cause == MD_ILLEGAL || cause == MD_DIVZERO)
      modifies this`r, this`cwaiPushed, mem
      ensures State() == Trapped(old(State()), cause)
    {
      r := r.(md := WithBit(r.md, cause));
      EnterInterrupt(VEC_TRAP, true, true);
    }

    /** An interrupt taken ends any waiting. */
    method TakeInterrupt(vector: u16, maskFirq: bool, full: bool)
      requires Valid()
      modifies this, mem
      ensures State() == Entered(old(State()).(waitSync := false), vector, maskFirq, full)
    {
      waitSync := false;
      EnterInterrupt(vector, maskFirq, full);
    }

    method ServiceInterrupts() returns (taken: Interrupt)
      requires Valid()
      modifies this, mem
      ensures State() == Serviced(old(State())) && taken == Due(old(State()))
    {
      if nmiPending {
        nmiPending := false;
        TakeInterrupt(VEC_NMI, true, true);
        taken := Nmi;
      } else if firqLine && !r.cc.f {
        TakeInterrupt(VEC_FIRQ, true, r.FirqFull());
        taken := Firq;
      } else if irqLine && !r.cc.i {
        TakeInterrupt(VEC_IRQ, false, true);
        taken := Irq;
      } else {
        taken := NoInterrupt;
      }
    }

    method Pull8(ghost top: u16, ghost k: nat) returns (v: byte)
      requires Valid() && r.s == ToU16(top + k)
      modifies this`r
      ensures r == old(r).(s := ToU16(top + k + 1)) && v == mem[ToU16(top + k)]
    {
      v := mem[r.s];
      r := r.(s := ToU16(r.s + 1));
    }

    method Pull16(ghost top: u16, ghost k: nat) returns (v: u16)
      requires Valid() && r.s == ToU16(top + k)
      modifies this`r
      ensures r == old(r).(s := ToU16(top + k + 2)) && v == Word(mem[ToU16(top + k)], mem[ToU16(top + k + 1)])
    {
      var hi := Pull8(top, k);
      var lo := Pull8(top, k + 1);
      v := Word(hi, lo);
    }

    method PullUpper(ghost top: u16, ghost k: nat)
      requires Valid() && r.s == ToU16(top + k)
      modifies this`r
      ensures r == UpperPulled(old(r), mem[..], top, k)
    {
      var dp := Pull8(top, k);
      var x := Pull16(top, k + 1);
      var y := Pull16(top, k + 3);
      var u := Pull16(top, k + 5);
      var pc := Pull16(top, k + 7);
      r := r.(dp := dp, x := x, y := y, u := u, pc := pc);
    }

    method PullLower(ghost top: u16)
      requires Valid() && r.s == ToU16(top + 1)
      modifies this`r
      ensures r == LowerPulled(old(r), mem[..], top).(s := ToU16(top + if r.Native() then 5 else 3))
    {
      var a := Pull8(top, 1);
      var b := Pull8(top, 2);
      r := r.(a := a, b := b);
      if r.Native() {
        var e := Pull8(top, 3);
        var f := Pull8(top, 4);
        r := r.(e := e, f := f);
      }
    }

    method Rti()
      requires Valid()
      modifies this`r
      ensures r == Pulled(old(r), mem[..])
    {
      ghost var top := r.s;
      var cc := Pull8(top, 0);
      r := r.(cc := FlagsOf(cc));
      if r.cc.e {
        PullLower(top);
        PullUpper(top, if r.Native() then 5 else 3);
      } else {
        var pc := Pull16(top, 1);
        r := r.(pc := pc);
      }
    }

    method Cwai(mask: byte)
      requires Valid()
      modifies this, mem
      ensures State() == Waiting(old(State()), mask)
    {
      r := r.(cc := r.cc.Masked(mask));
      PushFullSet();
      cwaiPushed := true;
      waitSync := true;
    }

    method Swi(vector: u16, mask: bool)
      requires Valid()
      modifies this`r, mem
      ensures State() == SoftwareInterrupt(old(State()), vector, mask)
    {
      PushFullSet();
      Vector(vector, mask, mask);
    }

    method Advance(n: nat)
      requires Valid()
      modifies this`r
      ensures State() == Skip(old(State()), n)
    {
      r := r.(pc := ToU16(r.pc + n));
    }

    method RunRti()
      requires Valid()
      modifies this`r
      ensures State() == Returned(Skip(old(State()), 1))
    {
      Advance(1);
      Rti();
    }

    method RunCwai()
      requires Valid()
      modifies this, mem
      ensures State() == Waiting(Skip(old(State()), 2), Fetch(old(State()), 1))
    {
      var mask := mem[ToU16(r.pc + 1)];
      Advance(2);
      Cwai(mask);
    }

    method RunSwi(size: nat, vector: u16, mask: bool)
      requires Valid()
      modifies this`r, mem
      ensures State() == SoftwareInterrupt(Skip(old(State()), size), vector, mask)
    {
      Advance(size);
      Swi(vector, mask);
    }

    method Execute(i: Instruction)
      requires Valid() && i == Decode(State())
      modifies this, mem
      ensures State() == Ran(old(State()), i)
    {
      match i {
        case IRti => RunRti();
        case ICwai => RunCwai();
        case ISwi(size, vector, mask) => RunSwi(size, vector, mask);
        case IOther =>
      }
    }

    method Step() returns (outcome: Outcome)
      requires Valid()
      modifies this, mem
      ensures (State(), outcome) == Stepped(old(State()))
    {
      if halted {
        return Halted;
      }
      var due := ServiceInterrupts();
      if due != NoInterrupt {
        return Took(due);
      }
      if waitSync {
        return Waits;
      }
      var i := Decoded(mem[r.pc], mem[ToU16(r.pc + 1)]);
      Execute(i);
      outcome := if i == IOther then Elsewhere else Executed;
    }

    // ---- block copies ----

    method Fetch8() returns (v: byte)
      requires Valid()
      modifies this`r
      ensures v == mem[old(r).pc] && r == old(r).(pc := ToU16(old(r).pc + 1))
    {
      v := mem[r.pc];
      r := r.(pc := ToU16(r.pc + 1));
    }

    /** One byte, and both pointers and the count back in their registers. */
    method CopyByte(ghost t: Tfm, ghost past: Regs, ghost before: Ram, ghost k: nat, from: u16, to: u16, src: nat,
                    dst: nat, srcStep: int, dstStep: int, count: u16) returns (sp: u16, dp: u16)
      requires Valid() && CopyAt(t, past, before, k, from, to, r, mem[..]) && count == past.W() - k - 1
      requires src == t.src && dst == t.dst && srcStep == t.Ss() && dstStep == t.Ds()
      modifies this`r, mem
      ensures CopyAt(t, past, before, k + 1, sp, dp, r, mem[..])
    {
      CopyOne(t, past, before, k, from, to, r, mem[..]);
      mem[to] := mem[from];
      sp := ToU16(from + srcStep);
      dp := ToU16(to + dstStep);
      r := SetReg(r, src, sp);
      r := SetReg(r, dst, dp);
      r := WithW(r, count);
    }

    /** What the devices behind the memory do to the inputs while byte k is copied. */
    method Drive(devices: seq<Inputs>, k: nat)
      requires Valid()
      modifies this`irqLine, this`firqLine, this`nmiPending
      ensures State() == Driven(old(State()), devices, k)
    {
      if k < |devices| {
        irqLine, firqLine, nmiPending := devices[k].irq, devices[k].firq, nmiPending || devices[k].nmi;
      }
    }

    /** The loop's variables and the machine when k bytes have been copied. */
    ghost predicate InCopy(t: Tfm, start: Machine, devices: seq<Inputs>, k: nat, sp: u16, dp: u16)
      requires Valid()
      reads this, mem
    {
      && CopyAt(t, start.r, start.mem, k, sp, dp, r, mem[..])
      && State() == Copying(t, start, devices, k)
    }

    /** One round of the loop, which ends with the question whether an interrupt is due. */
    method CopyNext(ghost t: Tfm, ghost start: Machine, devices: seq<Inputs>, k: nat, from: u16, to: u16, src: nat,
                    dst: nat, srcStep: int, dstStep: int, count: u16)
      returns (sp: u16, dp: u16, interrupted: bool)
      requires Valid() && InCopy(t, start, devices, k, from, to) && count == start.r.W() - k - 1
      requires src == t.src && dst == t.dst && srcStep == t.Ss() && dstStep == t.Ds()
      requires Undecided(t, start, devices, k, false)
      modifies this`r, this`irqLine, this`firqLine, this`nmiPending, mem
      ensures InCopy(t, start, devices, k + 1, sp, dp) && Undecided(t, start, devices, k + 1, interrupted)
    {
      CopiesOn(t, start, devices, k);
      sp, dp := CopyByte(t, start.r, start.mem, k, from, to, src, dst, srcStep, dstStep, count);
      CopyingOn(t, start, devices, k, State());
      Drive(devices, k);
      interrupted := count != 0 && (nmiPending || (firqLine && !r.cc.f) || (irqLine && !r.cc.i));
    }

    method CopyAll(ghost t: Tfm, ghost start: Machine, devices: seq<Inputs>, src: nat, dst: nat, opcode: byte)
      returns (interrupted: bool, copies: nat)
      requires Valid() && State() == start && t == Tfm(opcode, src, dst)
      modifies this`r, this`irqLine, this`firqLine, this`nmiPending, mem
      ensures copies == CopiesOf(t, start, devices, 0) && State() == Copying(t, start, devices, copies)
      ensures interrupted == (copies < start.r.W())
    {
      var sp, dp := GetReg(r, src), GetReg(r, dst);
      var srcStep, dstStep := SourceStep(opcode), TargetStep(opcode);
      var count: u16 := r.W();
      interrupted, copies := false, 0;
      CopyStart(t, start.r, start.mem);
      while count != 0 && !interrupted
        invariant copies <= start.r.W() && count == start.r.W() - copies && InCopy(t, start, devices, copies, sp, dp)
        invariant Undecided(t, start, devices, copies, interrupted)
        decreases count
      {
        sp, dp, interrupted :=
          CopyNext(t, start, devices, copies, sp, dp, src, dst, srcStep, dstStep, count - 1);
        count, copies := count - 1, copies + 1;
      }
      CopiesEnd(t, start, devices, copies);
    }

    method FetchPostbyte() returns (pb: byte)
      requires Valid()
      modifies this`r
      ensures State() == Skip(old(State()), 1) && pb == Fetch(old(State()), 0)
    {
      pb := Fetch8();
    }

    /** TFM, PC being at its postbyte: copies until done or until an interrupt is due. */
    method DoTfm(opcode: byte, insnPc: u16, devices: seq<Inputs>) returns (ghost t: Tfm, ghost copies: nat)
      requires Valid()
      modifies this`r, this`irqLine, this`firqLine, this`nmiPending, mem
      ensures t == Tfm(opcode, Fetch(old(State()), 0) / 0x10, Fetch(old(State()), 0) % 0x10)
      ensures var start := Skip(old(State()), 1);
              && copies == CopiesOf(t, start, devices, 0)
              && State() == Copying(t, start, devices, copies).(r := Broken(t, start.r, insnPc, copies))
    {
      var pb := FetchPostbyte();
      var src, dst := pb / 0x10, pb % 0x10;
      t := Tfm(opcode, src, dst);
      ghost var start := State();
      var interrupted;
      interrupted, copies := CopyAll(t, start, devices, src, dst, opcode);
      if interrupted {
        r := r.(pc := insnPc);
      }
    }

    /** The opcode after a prefix. */
    method FetchOpcode() returns (opcode: byte)
      requires Valid()
      modifies this`r
      ensures State() == Skip(old(State()), 2) && opcode == Fetch(old(State()), 1)
    {
      SkipOn(State(), 1);
      var prefix := Fetch8();
      opcode := Fetch8();
    }

    /** The whole instruction, from its prefix: with two different pointers it leaves the machine as it is
        when a copy stops, and an interrupt is due if that is before the last byte. */
    method RunTfm(devices: seq<Inputs>) returns (ghost t: Tfm, ghost copies: nat)
      requires Valid() && IsTfm(State())
      modifies this`r, this`irqLine, this`firqLine, this`nmiPending, mem
      ensures t == TfmAt(old(State())) && copies == CopiesOf(t, Skip(old(State()), 3), devices, 0)
      ensures TwoPointers(t) ==> RanTfm(old(State()), devices, copies, State())
    {
      ghost var m := State();
      var at := r.pc;
      var opcode := FetchOpcode();
      ghost var mid := State();
      t, copies := DoTfm(opcode, at, devices);
      ghost var start := Skip(mid, 1);
      DoneTfm(m, mid, start, t, devices, copies, State());
    }

    /** A step of the processor, TFM included: what the devices do while it copies is theirs to decide. */
    method StepWith(devices: seq<Inputs>) returns (outcome: Outcome, ghost copies: nat)
      requires Valid()
      modifies this, mem
      ensures var m := old(State());
              if Stepped(m).1 == Elsewhere && IsTfm(m) then
                outcome == Executed && (TwoPointers(TfmAt(m)) ==> RanTfm(m, devices, copies, State()))
              else (State(), outcome) == Stepped(m)
    {
      ghost var m := State();
      copies := 0;
      outcome := Step();
      ElsewhereStays(m);
      if outcome == Elsewhere && mem[r.pc] == 0x11 && 0x38 <= mem[ToU16(r.pc + 1)] <= 0x3B {
        ghost var t;
        t, copies := RunTfm(devices);
        outcome := Executed;
      }
    }

    // ---- arithmetic ----

    method SetNz8(v: byte)
      modifies this`r
      ensures r == old(r).(cc := old(r).cc.(n := Negative(v), z := v == 0))
    {
      r := r.(cc := r.cc.(n := v >= 0x80, z := v == 0));
    }

    method Add8(a: byte, b: byte, carryIn: bool) returns (v: byte)
      modifies this`r
      ensures Result(v, r.cc) == Added(old(r).cc, a, b, carryIn) && r == old(r).(cc := r.cc)
    {
      var sum: int := a + b + Digit(carryIn);
      v := sum % 0x100;
      var half := a % 0x10 + b % 0x10 + Digit(carryIn);
      r := r.(cc := r.cc.(h := half > 0xF, c := sum > 0xFF,
                          v := Negative(a) == Negative(b) && Negative(a) != Negative(v)));
      SetNz8(v);
    }

    method Sub8(a: byte, b: byte, borrowIn: bool) returns (v: byte)
      modifies this`r
      ensures Result(v, r.cc) == Subtracted(old(r).cc, a, b, borrowIn) && r == old(r).(cc := r.cc)
    {
      var diff: int := a - b - Digit(borrowIn);
      v := diff % 0x100;
      r := r.(cc := r.cc.(c := diff < 0, v := Negative(a) != Negative(b) && Negative(a) != Negative(v)));
      SetNz8(v);
    }

    /** DAA, on A. */
    method DoDaa()
      modifies this`r
      ensures Result(r.a, r.cc) == Adjusted(old(r).cc, old(r).a) && r == old(r).(a := r.a, cc := r.cc)
    {
      var lo, hi := r.a % 0x10, r.a / 0x10;
      var correction, carryOut := 0, r.cc.c;
      if r.cc.h || lo > 9 {
        correction := correction + 0x06;
      }
      if carryOut || hi > 9 || (hi >= 9 && lo > 9) {
        correction := correction + 0x60;
        carryOut := true;
      }
      var sum: int := r.a + correction;
      r := r.(a := sum % 0x100, cc := r.cc.(c := carryOut));
      SetNz8(r.a);
    }
  }
}
