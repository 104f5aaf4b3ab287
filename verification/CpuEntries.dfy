/** What an interrupt's entry leaves: what is on the stack byte by byte, where the processor goes on, and
    which interrupts can come next. */
module CpuEntries {
  import opened Words
  import opened CpuState
  import opened CpuInterrupts
  import opened CpuRuns

  /** CC as it is stacked: E, F, H, I, N, Z, V and C from bit 7 down. */
  function Codes(cc: Flags): byte {
    (if cc.e then 0x80 else 0) + (if cc.f then 0x40 else 0) + (if cc.h then 0x20 else 0) + (if cc.i then 0x10 else 0)
    + (if cc.n then 0x08 else 0) + (if cc.z then 0x04 else 0) + (if cc.v then 0x02 else 0) + (if cc.c then 0x01 else 0)
  }

  /** What an entry stacks, from the new top of the stack up. A full one has E set, and W after B if bit 0
      of MD is set; a fast one is CC and PC alone, E clear. */
  function Image(r: Regs, full: bool): Bytes {
    if !full then [Codes(r.cc.(e := false)), r.pc / 0x100, r.pc % 0x100]
    else
      [Codes(r.cc.(e := true)), r.a, r.b]
      + (if r.md % 2 == 1 then [r.e, r.f] else [])
      + [r.dp, r.x / 0x100, r.x % 0x100, r.y / 0x100, r.y % 0x100, r.u / 0x100, r.u % 0x100,
         r.pc / 0x100, r.pc % 0x100]
  }

  /** Some bytes have gone onto the stack, which was at `s` and is at `top` now, and no other memory has
      changed. */
  ghost predicate StackedOn(before: Ram, after: Ram, s: u16, top: u16, bytes: Bytes) {
    && top == (s - |bytes|) % 0x1_0000
    && (forall k :: 0 <= k < |bytes| ==> after[(top + k) % 0x1_0000] == bytes[k])
    && (forall a: u16 :: (a - top) % 0x1_0000 >= |bytes| ==> after[a] == before[a])
  }

  /** The registers `r` are stacked by going from `m` to `now`. */
  ghost predicate Stacks(m: Machine, now: Machine, r: Regs, full: bool) {
    StackedOn(m.mem, now.mem, m.r.s, now.r.s, Image(r, full)) && now.r.cc.e == full
  }

  /** The processor goes on where a vector points, with IRQ and FIRQ masked if they are asked to be and
      otherwise as they were; the registers but for PC, S and E stay. */
  predicate GoesTo(m: Machine, now: Machine, vector: nat, masksIrq: bool, masksFirq: bool)
    requires vector < 0xFFFF
  {
    && now.r.pc == 0x100 * now.mem[vector] as int + now.mem[vector + 1]
    && now.r.cc.i == (masksIrq || m.r.cc.i) && now.r.cc.f == (masksFirq || m.r.cc.f)
    && now.r == m.r.(pc := now.r.pc, s := now.r.s, cc := m.r.cc.(e := now.r.cc.e, i := now.r.cc.i, f := now.r.cc.f))
    && now.irqLine == m.irqLine && now.firqLine == m.firqLine && now.halted == m.halted
  }

  /** An interrupt's entry: after CWAI nothing more is stacked. */
  ghost predicate Enters(m: Machine, now: Machine, vector: nat, masksFirq: bool, full: bool)
    requires vector < 0xFFFF
  {
    && GoesTo(m, now, vector, true, masksFirq) && !now.cwaiPushed
    && if m.cwaiPushed then now.mem == m.mem && now.r.s == m.r.s && now.r.cc.e == m.r.cc.e
       else Stacks(m, now, m.r, full)
  }

  lemma CodesAre(cc: Flags)
    ensures cc.Byte() == Codes(cc)
  {
  }

  lemma ImageIs(r: Regs, full: bool)
    ensures Saved(r, full).Bytes() == Image(r, full)
  {
    CodesAre(r.cc.(e := full));
  }

  lemma LaidOnStack(m: Ram, s: u16, bytes: Bytes)
    requires |bytes| < 100
    ensures StackedOn(m, Laid(m, ToU16(s - |bytes|), bytes), s, ToU16(s - |bytes|), bytes)
  {
    LaidHolds(m, ToU16(s - |bytes|), bytes);
  }

  lemma PushedStacks(m: Machine, full: bool)
    ensures Stacks(m, Pushed(m, full), m.r, full)
    ensures var now := Pushed(m, full); now == m.(mem := now.mem, r := m.r.(s := now.r.s, cc := m.r.cc.(e := full)))
  {
    ImageIs(m.r, full);
    LaidOnStack(m.mem, m.r.s, Image(m.r, full));
  }

  lemma VectoredGoes(m: Machine, vector: u16, maskIrq: bool, maskFirq: bool)
    requires vector < 0xFFFF
    ensures var now := Vectored(m, vector, maskIrq, maskFirq);
            && GoesTo(m, now, vector, maskIrq, maskFirq) && now == m.(r := now.r)
            && now.r.s == m.r.s && now.r.cc.e == m.r.cc.e
  {
  }

  lemma EnteredMeans(m: Machine, vector: u16, maskFirq: bool, full: bool)
    requires vector < 0xFFFF
    ensures Enters(m, Entered(m, vector, maskFirq, full), vector, maskFirq, full)
    ensures var now := Entered(m, vector, maskFirq, full); now.waitSync == m.waitSync && now.nmiPending == m.nmiPending
  {
    if m.cwaiPushed {
      VectoredGoes(m.(cwaiPushed := false), vector, true, maskFirq);
    } else {
      PushedStacks(m, full);
      VectoredGoes(Pushed(m, full), vector, true, maskFirq);
    }
  }

  /** An entry that also ends a wait. */
  lemma TakenMeans(m: Machine, vector: u16, maskFirq: bool, full: bool, nmi: bool)
    requires vector < 0xFFFF
    ensures var now := Entered(m.(nmiPending := nmi, waitSync := false), vector, maskFirq, full);
            Enters(m, now, vector, maskFirq, full) && !now.waitSync && now.nmiPending == nmi
  {
    EnteredMeans(m.(nmiPending := nmi, waitSync := false), vector, maskFirq, full);
  }

  /** Which interrupt the processor, unless it is halted, takes next, and its entry: NMI first and always, then
      FIRQ unless F masks it, then IRQ unless I does. NMI and FIRQ mask both, IRQ only itself; FIRQ stacks
      all only if bit 1 of MD says so. */
  lemma InterruptTaken(m: Machine)
    ensures var (now, outcome) := Stepped(m);
            var firq, irq := m.firqLine && !m.r.cc.f, m.irqLine && !m.r.cc.i;
            if m.halted then outcome == Halted && now == m
            else if m.nmiPending then
              outcome == Took(Nmi) && Enters(m, now, 0xFFFC, true, true) && !now.waitSync && !now.nmiPending
            else if firq then
              && outcome == Took(Firq) && Enters(m, now, 0xFFF6, true, m.r.md / 2 % 2 == 1)
              && !now.waitSync && !now.nmiPending
            else if irq then
              outcome == Took(Irq) && Enters(m, now, 0xFFF8, false, true) && !now.waitSync && !now.nmiPending
            else if m.waitSync then outcome == Waits && now == m
            else !outcome.Took? && !outcome.Waits?
  {
    if m.halted {
    } else if m.nmiPending {
      TakenMeans(m, VEC_NMI, true, true, false);
    } else if m.firqLine && !m.r.cc.f {
      TakenMeans(m, VEC_FIRQ, true, m.r.FirqFull(), false);
    } else if m.irqLine && !m.r.cc.i {
      TakenMeans(m, VEC_IRQ, false, true, false);
    }
  }

  /** Both kinds of trap mask both interrupts, and each sets its bit of MD, 6 or 7, which is all of MD it
      changes. */
  lemma TrapTaken(m: Machine, illegal: bool)
    ensures var now := Trapped(m, if illegal then MD_ILLEGAL else MD_DIVZERO);
            var bit := if illegal then 0x40 else 0x80;
            var marked := m.r.md + if m.r.md / bit % 2 == 1 then 0 else bit;
            0 <= marked < 0x100 && Enters(m.(r := m.r.(md := marked)), now, 0xFFF0, true, true)
  {
    var cause := if illegal then MD_ILLEGAL else MD_DIVZERO;
    EnteredMeans(m.(r := m.r.(md := WithBit(m.r.md, cause))), VEC_TRAP, true, true);
  }

  /** A processor about to run the instruction at PC. */
  predicate Runs(m: Machine) { !m.halted && !m.waitSync && Due(m) == NoInterrupt }

  function Opcode(m: Machine, k: nat): byte { m.mem[(m.r.pc + k) % 0x1_0000] }

  lemma SwiEnters(m: Machine, size: nat, vector: u16, masks: bool)
    requires vector < 0xFFFF
    ensures var now := SoftwareInterrupt(Skip(m, size), vector, masks);
            && GoesTo(m, now, vector, masks, masks)
            && Stacks(m, now, m.r.(pc := (m.r.pc + size) % 0x1_0000), true)
            && now.waitSync == m.waitSync && now.cwaiPushed == m.cwaiPushed
  {
    PushedStacks(Skip(m, size), true);
    VectoredGoes(Pushed(Skip(m, size), true), vector, masks, masks);
  }

  predicate IsSwi(opcode: byte, next: byte, size: nat, vector: nat, masks: bool) {
    || (opcode == 0x3F && size == 1 && vector == 0xFFFA && masks)
    || (opcode == 0x10 && next == 0x3F && size == 2 && vector == 0xFFF4 && !masks)
    || (opcode == 0x11 && next == 0x3F && size == 2 && vector == 0xFFF2 && !masks)
  }

  lemma SwiStep(m: Machine, size: nat, vector: nat, masks: bool)
    requires Runs(m) && IsSwi(Opcode(m, 0), Opcode(m, 1), size, vector, masks)
    ensures Stepped(m) == (SoftwareInterrupt(Skip(m, size), vector, masks), Executed)
  {
    assert Fetch(m, 0) == Opcode(m, 0) && Fetch(m, 1) == Opcode(m, 1);
    assert Decode(m) == ISwi(size, vector, masks);
  }

  /** SWI, SWI2 and SWI3 stack all with PC past the instruction; SWI masks both interrupts, the others
      none. */
  lemma SoftwareEntry(m: Machine, size: nat, vector: nat, masks: bool)
    requires Runs(m) && IsSwi(Opcode(m, 0), Opcode(m, 1), size, vector, masks)
    ensures var (now, outcome) := Stepped(m);
            && outcome == Executed && GoesTo(m, now, vector, masks, masks)
            && Stacks(m, now, m.r.(pc := (m.r.pc + size) % 0x1_0000), true)
            && !now.waitSync && now.cwaiPushed == m.cwaiPushed
  {
    SwiStep(m, size, vector, masks);
    SwiEnters(m, size, vector, masks);
  }

  lemma HighBits(mask: byte)
    ensures var hi := mask / 0x10;
            (hi / 8 == 1) == (mask >= 0x80) && (hi / 4 % 2 == 1) == (mask / 0x40 % 2 == 1)
            && (hi / 2 % 2 == 1) == (mask / 0x20 % 2 == 1)
  {
    assert mask / 0x10 / 4 == mask / 0x40;
  }

  lemma LowBits(mask: byte)
    ensures var lo := mask % 0x10;
            (lo / 8 == 1) == (mask / 8 % 2 == 1) && (lo / 4 % 2 == 1) == (mask / 4 % 2 == 1)
            && (lo / 2 % 2 == 1) == (mask / 2 % 2 == 1) && (lo % 2 == 1) == (mask % 2 == 1)
  {
    var q := mask / 0x10;
    assert mask == 0x10 * q + mask % 0x10;
    assert mask / 8 == 2 * q + mask % 0x10 / 8;
    assert mask / 4 == 4 * q + mask % 0x10 / 4;
    assert mask / 2 == 8 * q + mask % 0x10 / 2;
  }

  lemma MaskBits(mask: byte)
    ensures FlagsOf(mask) == Flags(mask >= 0x80, mask / 0x40 % 2 == 1, mask / 0x20 % 2 == 1, mask / 0x10 % 2 == 1,
                                   mask / 0x08 % 2 == 1, mask / 0x04 % 2 == 1, mask / 0x02 % 2 == 1, mask % 2 == 1)
  {
    HighBits(mask);
    LowBits(mask);
  }

  function Kept(cc: Flags, mask: byte): Flags {
    Flags(cc.e && mask >= 0x80, cc.f && mask / 0x40 % 2 == 1, cc.h && mask / 0x20 % 2 == 1,
          cc.i && mask / 0x10 % 2 == 1, cc.n && mask / 0x08 % 2 == 1, cc.z && mask / 0x04 % 2 == 1,
          cc.v && mask / 0x02 % 2 == 1, cc.c && mask % 2 == 1)
  }

  lemma CwaiStep(m: Machine)
    requires Runs(m) && Opcode(m, 0) == 0x3C
    ensures Stepped(m) == (Waiting(Skip(m, 2), Opcode(m, 1)), Executed)
    ensures m.r.cc.Masked(Opcode(m, 1)) == Kept(m.r.cc, Opcode(m, 1))
  {
    assert Fetch(m, 0) == Opcode(m, 0) && Fetch(m, 1) == Opcode(m, 1);
    assert Decode(m) == ICwai;
    MaskBits(Opcode(m, 1));
  }

  /** CWAI clears the flags its mask has clear, stacks all with PC past the instruction, and waits. */
  lemma CwaiStacks(m: Machine)
    requires Runs(m) && Opcode(m, 0) == 0x3C
    ensures var (now, outcome) := Stepped(m);
            var r := m.r.(cc := Kept(m.r.cc, Opcode(m, 1)), pc := (m.r.pc + 2) % 0x1_0000);
            && outcome == Executed && Stacks(m, now, r, true) && now.r == r.(s := now.r.s, cc := r.cc.(e := true))
            && now.waitSync && now.cwaiPushed
  {
    CwaiStep(m);
    PushedStacks(Skip(m, 2).(r := Skip(m, 2).r.(cc := Kept(m.r.cc, Opcode(m, 1)))), true);
  }

  /** RTI, CWAI and the three software interrupts are run here, and every other instruction elsewhere. */
  lemma RunHere(m: Machine)
    requires Runs(m)
    ensures var op, next := Opcode(m, 0), Opcode(m, 1);
            if op == 0x3B || op == 0x3C || op == 0x3F || (next == 0x3F && (op == 0x10 || op == 0x11))
            then Stepped(m).1 == Executed else Stepped(m) == (m, Elsewhere)
  {
    assert Fetch(m, 0) == Opcode(m, 0) && Fetch(m, 1) == Opcode(m, 1);
  }

  // ---- what can come next ----

  /** Events that leave a mask set: not RTI or CWAI, and of the other instructions those that do. */
  predicate LeavesMask(m: Machine, e: Event, firq: bool) {
    match e
    case Step => Stepped(m).1 == Executed ==> Opcode(m, 0) != 0x3B && Opcode(m, 0) != 0x3C
    case Other(after) => after.r.cc.i && (firq ==> after.r.cc.f)
    case _ => true
  }

  predicate Masks(m: Machine, firq: bool) { m.r.cc.i && (firq ==> m.r.cc.f) }

  /** No step of a run takes IRQ, nor FIRQ if that is masked too. */
  ghost predicate NoneTaken(m: Machine, run: seq<Event>, firq: bool)
    decreases |run|
  {
    run == [] ||
    ((run[0] == Step ==> Stepped(m).1 != Took(Irq) && (firq ==> Stepped(m).1 != Took(Firq)))
     && NoneTaken(Effect(m, run[0]), run[1..], firq))
  }

  ghost predicate LeaveMask(m: Machine, run: seq<Event>, firq: bool)
    decreases |run|
  {
    run == [] || (LeavesMask(m, run[0], firq) && LeaveMask(Effect(m, run[0]), run[1..], firq))
  }

  lemma StepLeaves(m: Machine, firq: bool)
    requires Masks(m, firq) && LeavesMask(m, Step, firq)
    ensures Masks(Stepped(m).0, firq) && Stepped(m).1 != Took(Irq) && (firq ==> Stepped(m).1 != Took(Firq))
  {
    if Due(m) != NoInterrupt {
    } else if Stepped(m).1 == Executed {
      assert Fetch(m, 0) == Opcode(m, 0);
      assert Decode(m).ISwi?;
    }
  }

  lemma MaskStays(m: Machine, e: Event, firq: bool)
    requires Masks(m, firq) && LeavesMask(m, e, firq)
    ensures Masks(Effect(m, e), firq)
    ensures e == Step ==> Stepped(m).1 != Took(Irq) && (firq ==> Stepped(m).1 != Took(Firq))
  {
    match e
    case Step => StepLeaves(m, firq);
    case Trap(pc, illegal) =>
    case Lines(_, _, _, _) =>
    case Other(_) =>
  }

  lemma {:induction false} MaskedRun(m: Machine, run: seq<Event>, firq: bool)
    requires Masks(m, firq) && LeaveMask(m, run, firq)
    ensures NoneTaken(m, run, firq)
    decreases |run|
  {
    if run != [] {
      MaskStays(m, run[0], firq);
      MaskedRun(Effect(m, run[0]), run[1..], firq);
    }
  }

  /** After an interrupt's entry no IRQ is taken, whatever the lines do, until an instruction of the
      handler clears I; and after that of NMI or FIRQ no FIRQ either, until one clears F. */
  lemma MaskedUntilCleared(m: Machine, run: seq<Event>)
    requires Stepped(m).1.Took? && LeaveMask(Stepped(m).0, run, Stepped(m).1 != Took(Irq))
    ensures NoneTaken(Stepped(m).0, run, Stepped(m).1 != Took(Irq))
  {
    InterruptTaken(m);
    MaskedRun(Stepped(m).0, run, Stepped(m).1 != Took(Irq));
  }
}
