/** Interrupt entry, CWAI, the software interrupts and RTI: what each does to the machine. */
module CpuInterrupts {
  import opened Words
  import opened CpuState

  const VEC_TRAP := 0xFFF0
  const VEC_SWI3 := 0xFFF2
  const VEC_SWI2 := 0xFFF4
  const VEC_FIRQ := 0xFFF6
  const VEC_IRQ := 0xFFF8
  const VEC_SWI := 0xFFFA
  const VEC_NMI := 0xFFFC
  const VEC_RESET := 0xFFFE

  // ---- what each does ----

  /** The registers stacked, E telling how many. */
  function Pushed(m: Machine, full: bool): Machine {
    var f := Saved(m.r, full);
    m.(mem := Laid(m.mem, f.Where(), f.Bytes()), r := m.r.(s := f.Where(), cc := m.r.cc.(e := full)))
  }

  /** To where a vector points, with one or both interrupts masked. */
  function Vectored(m: Machine, vector: u16, maskIrq: bool, maskFirq: bool): Machine {
    m.(r := m.r.(pc := Read16(m.mem, vector), cc := m.r.cc.(i := m.r.cc.i || maskIrq, f := m.r.cc.f || maskFirq)))
  }

  /** Into an interrupt's handler. After CWAI the registers are stacked already. */
  function Entered(m: Machine, vector: u16, maskFirq: bool, full: bool): Machine {
    Vectored(if m.cwaiPushed then m.(cwaiPushed := false) else Pushed(m, full), vector, true, maskFirq)
  }

  datatype Interrupt = NoInterrupt | Nmi | Firq | Irq

  /** The interrupt that is taken before the next instruction. */
  function Due(m: Machine): Interrupt {
    if m.nmiPending then Nmi
    else if m.firqLine && !m.r.cc.f then Firq
    else if m.irqLine && !m.r.cc.i then Irq
    else NoInterrupt
  }

  function Serviced(m: Machine): Machine {
    match Due(m)
    case NoInterrupt => m
    case Nmi => Entered(m.(nmiPending := false, waitSync := false), VEC_NMI, true, true)
    case Firq => Entered(m.(waitSync := false), VEC_FIRQ, true, m.r.FirqFull())
    case Irq => Entered(m.(waitSync := false), VEC_IRQ, false, true)
  }

  const MD_ILLEGAL := 0x40
  const MD_DIVZERO := 0x80

  function WithBit(b: byte, bit: nat): byte
    requires bit == MD_ILLEGAL || bit == MD_DIVZERO
  {
    if b / bit % 2 == 1 then b else b + bit
  }

  /** An illegal opcode or a division by zero, which MD tells apart. */
  function Trapped(m: Machine, cause: nat): Machine
    requires cause == MD_ILLEGAL || cause == MD_DIVZERO
  {
    Entered(m.(r := m.r.(md := WithBit(m.r.md, cause))), VEC_TRAP, true, true)
  }

  /** SWI masks both interrupts, SWI2 and SWI3 none. */
  function SoftwareInterrupt(m: Machine, vector: u16, mask: bool): Machine {
    Vectored(Pushed(m, true), vector, mask, mask)
  }

  /** CC masked, everything stacked, and waiting. */
  function Waiting(m: Machine, mask: byte): Machine {
    Pushed(m.(r := m.r.(cc := m.r.cc.Masked(mask))), true).(cwaiPushed := true, waitSync := true)
  }

  function OnStack(m: Ram, top: u16, k: nat): byte { m[ToU16(top + k)] }
  function WordOnStack(m: Ram, top: u16, k: nat): u16 { Word(OnStack(m, top, k), OnStack(m, top, k + 1)) }

  /** The registers pulled from the k-th byte on the stack up: DP, X, Y, U and PC. */
  function UpperPulled(r: Regs, m: Ram, top: u16, k: nat): Regs {
    r.(dp := OnStack(m, top, k), x := WordOnStack(m, top, k + 1), y := WordOnStack(m, top, k + 3),
       u := WordOnStack(m, top, k + 5), pc := WordOnStack(m, top, k + 7), s := ToU16(top + k + 9))
  }

  /** The accumulators, which are above CC. */
  function LowerPulled(r: Regs, m: Ram, top: u16): Regs {
    var ab := r.(a := OnStack(m, top, 1), b := OnStack(m, top, 2));
    if r.Native() then ab.(e := OnStack(m, top, 3), f := OnStack(m, top, 4)) else ab
  }

  /** The registers after RTI: E in the stacked CC tells how much to pull. */
  function Pulled(r: Regs, m: Ram): Regs {
    var cc := FlagsOf(OnStack(m, r.s, 0));
    if cc.e then UpperPulled(LowerPulled(r.(cc := cc), m, r.s), m, r.s, if r.Native() then 5 else 3)
    else r.(cc := cc, pc := WordOnStack(m, r.s, 1), s := ToU16(r.s + 3))
  }

  function Returned(m: Machine): Machine { m.(r := Pulled(m.r, m.mem)) }

  datatype Outcome = Halted | Took(interrupt: Interrupt) | Waits | Executed | Elsewhere

  function Skip(m: Machine, n: nat): Machine { m.(r := m.r.(pc := ToU16(m.r.pc + n))) }

  function Fetch(m: Machine, k: nat): byte { m.mem[ToU16(m.r.pc + k)] }

  datatype Instruction = IRti | ICwai | ISwi(size: nat, vector: u16, mask: bool) | IOther

  /** The instructions this model is about: RTI, CWAI, SWI, SWI2 and SWI3. */
  function Decoded(opcode: byte, next: byte): Instruction {
    if opcode == 0x3B then IRti
    else if opcode == 0x3C then ICwai
    else if opcode == 0x3F then ISwi(1, VEC_SWI, true)
    else if opcode == 0x10 && next == 0x3F then ISwi(2, VEC_SWI2, false)
    else if opcode == 0x11 && next == 0x3F then ISwi(2, VEC_SWI3, false)
    else IOther
  }

  function Decode(m: Machine): Instruction { Decoded(Fetch(m, 0), Fetch(m, 1)) }

  function Ran(m: Machine, i: Instruction): Machine {
    match i
    case IRti => Returned(Skip(m, 1))
    case ICwai => Waiting(Skip(m, 2), Fetch(m, 1))
    case ISwi(size, vector, mask) => SoftwareInterrupt(Skip(m, size), vector, mask)
    case IOther => m
  }

  /** One step of the processor: an interrupt if one is due, else an instruction, unless it waits for
      an interrupt. An instruction this model is not about is `Elsewhere`, and left to be run. */
  function Stepped(m: Machine): (Machine, Outcome) {
    if m.halted then (m, Halted)
    else if Due(m) != NoInterrupt then (Serviced(m), Took(Due(m)))
    else if m.waitSync then (m, Waits)
    else (Ran(m, Decode(m)), if Decode(m) == IOther then Elsewhere else Executed)
  }
}
