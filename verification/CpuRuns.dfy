/** Whole runs of interrupt entries and returns: what a handler's RTI gives back. */
module CpuRuns {
  import opened Words
  import opened CpuState
  import opened CpuInterrupts

  ghost predicate Intact(m: Ram, f: Saved) { Holds(m, f.Where(), f.Bytes()) }

  /** The registers a return must give: S, PC and all that was stacked as they were, CC but for E;
      what was not stacked as the handler left it. */
  function Restored(f: Saved, now: Regs): Regs {
    if f.full then
      var all := f.r.(cc := f.r.cc.(e := true), v := now.v, md := now.md);
      if f.r.Native() then all else all.(e := now.e, f := now.f)
    else now.(cc := f.r.cc.(e := false), pc := f.r.pc, s := f.r.s)
  }

  lemma WordBack(v: u16)
    ensures Word(BigEndian(v)[0], BigEndian(v)[1]) == v
  {
  }

  lemma StackByte(m: Ram, at: u16, bytes: Bytes, k: nat)
    requires Holds(m, at, bytes) && k < |bytes|
    ensures OnStack(m, at, k) == bytes[k]
  {
  }

  /** What is pulled from where the upper part of a frame is. */
  lemma UpperBack(m: Ram, top: u16, k: nat, f: Regs, now: Regs)
    requires forall i :: 0 <= i < 9 ==> OnStack(m, top, k + i) == UpperFrame(f)[i]
    ensures UpperPulled(now, m, top, k)
         == now.(dp := f.dp, x := f.x, y := f.y, u := f.u, pc := f.pc, s := ToU16(top + k + 9))
  {
    var u := UpperFrame(f);
    assert u[0] == f.dp && u[1..3] == BigEndian(f.x) && u[3..5] == BigEndian(f.y);
    assert u[5..7] == BigEndian(f.u) && u[7..9] == BigEndian(f.pc);
    assert OnStack(m, top, k + 0) == u[0];
    assert OnStack(m, top, k + 1) == u[1] && OnStack(m, top, k + 2) == u[2];
    assert OnStack(m, top, k + 3) == u[3] && OnStack(m, top, k + 4) == u[4];
    assert OnStack(m, top, k + 5) == u[5] && OnStack(m, top, k + 6) == u[6];
    assert OnStack(m, top, k + 7) == u[7] && OnStack(m, top, k + 8) == u[8];
    WordBack(f.x);
    WordBack(f.y);
    WordBack(f.u);
    WordBack(f.pc);
  }

  lemma LowerBack(m: Ram, top: u16, f: Regs, now: Regs)
    requires now.Native() == f.Native()
    requires forall i :: 0 <= i < |LowerFrame(f)| ==> OnStack(m, top, i) == LowerFrame(f)[i]
    ensures OnStack(m, top, 0) == f.cc.Byte()
    ensures LowerPulled(now, m, top)
         == if f.Native() then now.(a := f.a, b := f.b, e := f.e, f := f.f) else now.(a := f.a, b := f.b)
  {
    var l := LowerFrame(f);
    assert OnStack(m, top, 0) == l[0] && OnStack(m, top, 1) == l[1] && OnStack(m, top, 2) == l[2];
    if f.Native() {
      assert OnStack(m, top, 3) == l[3] && OnStack(m, top, 4) == l[4];
    }
  }

  /** A return from a frame that is still on the stack restores what it saved. */
  lemma ReturnRestores(m: Ram, f: Saved, now: Regs)
    requires now.s == f.Where() && Intact(m, f) && now.Native() == f.r.Native()
    ensures Pulled(now, m) == Restored(f, now)
  {
    if f.full {
      FullReturn(m, f, now);
    } else {
      PartialReturn(m, f, now);
    }
  }

  lemma PartialReturn(m: Ram, f: Saved, now: Regs)
    requires now.s == f.Where() && Intact(m, f) && !f.full
    ensures Pulled(now, m) == Restored(f, now)
  {
    StackByte(m, now.s, f.Bytes(), 0);
    StackByte(m, now.s, f.Bytes(), 1);
    StackByte(m, now.s, f.Bytes(), 2);
    FlagsReadBack(f.r.cc.(e := false));
    WordBack(f.r.pc);
  }

  lemma PartsOnStack(m: Ram, top: u16, lower: Bytes, upper: Bytes)
    requires Holds(m, top, lower + upper)
    ensures forall i :: 0 <= i < |lower| ==> OnStack(m, top, i) == lower[i]
    ensures forall i :: 0 <= i < |upper| ==> OnStack(m, top, |lower| + i) == upper[i]
  {
    forall i: nat | i < |lower|
      ensures OnStack(m, top, i) == lower[i]
    {
      StackByte(m, top, lower + upper, i);
    }
    forall i: nat | i < |upper|
      ensures OnStack(m, top, |lower| + i) == upper[i]
    {
      StackByte(m, top, lower + upper, |lower| + i);
    }
  }

  /** The registers that were stacked, with the E they were stacked with. */
  function Entire(r: Regs): Regs { r.(cc := r.cc.(e := true)) }

  lemma FullFrameParts(m: Ram, f: Saved)
    requires Intact(m, f) && f.full
    ensures forall i :: 0 <= i < |LowerFrame(Entire(f.r))| ==> OnStack(m, f.Where(), i) == LowerFrame(Entire(f.r))[i]
    ensures var n := if f.r.Native() then 5 else 3;
            forall i :: 0 <= i < 9 ==> OnStack(m, f.Where(), n + i) == UpperFrame(f.r)[i]
  {
    assert f.Bytes() == LowerFrame(Entire(f.r)) + UpperFrame(f.r);
    PartsOnStack(m, f.Where(), LowerFrame(Entire(f.r)), UpperFrame(f.r));
  }

  lemma LowerRestored(m: Ram, f: Saved, now: Regs)
    requires Intact(m, f) && now.Native() == f.r.Native() && f.full
    ensures FlagsOf(OnStack(m, f.Where(), 0)) == f.r.cc.(e := true)
    ensures var r := f.r;
            LowerPulled(now, m, f.Where())
              == if r.Native() then now.(a := r.a, b := r.b, e := r.e, f := r.f) else now.(a := r.a, b := r.b)
  {
    FullFrameParts(m, f);
    LowerBack(m, f.Where(), Entire(f.r), now);
    FlagsReadBack(f.r.cc.(e := true));
  }

  lemma UpperRestored(m: Ram, f: Saved, now: Regs)
    requires Intact(m, f) && f.full
    ensures var r := f.r;
            UpperPulled(now, m, f.Where(), if r.Native() then 5 else 3)
              == now.(dp := r.dp, x := r.x, y := r.y, u := r.u, pc := r.pc, s := r.s)
  {
    FullFrameParts(m, f);
    UpperBack(m, f.Where(), if f.r.Native() then 5 else 3, f.r, now);
    WrapBack(f.r.s, if f.r.Native() then 14 else 12);
  }

  lemma WrapBack(s: u16, n: nat)
    ensures ToU16(ToU16(s - n) + n) == s
  {
  }

  lemma FullReturn(m: Ram, f: Saved, now: Regs)
    requires now.s == f.Where() && Intact(m, f) && now.Native() == f.r.Native() && f.full
    ensures Pulled(now, m) == Restored(f, now)
  {
    var cc := f.r.cc.(e := true);
    LowerRestored(m, f, now.(cc := cc));
    UpperRestored(m, f, LowerPulled(now.(cc := cc), m, now.s));
  }

  // ---- runs ----

  /** What can happen next: the devices change the interrupt lines (an NMI is a pulse), the processor
      takes a step, or, when that is an instruction other than the ones that enter and return, the
      machine is as that instruction leaves it, or traps with PC past what it fetched. */
  datatype Event =
    | Lines(irq: bool, firq: bool, nmi: bool, halt: bool)
    | Step
    | Other(after: Machine)
    | Trap(pc: u16, illegal: bool)

  function Cause(illegal: bool): nat { if illegal then MD_ILLEGAL else MD_DIVZERO }

  /** The registers a trap stacks; MD, which tells the cause, is not one of them. */
  function Marked(r: Regs, pc: u16, illegal: bool): Regs { r.(pc := pc, md := WithBit(r.md, Cause(illegal))) }

  function Effect(m: Machine, e: Event): Machine {
    match e
    case Lines(irq, firq, nmi, halt) =>
      m.(irqLine := irq, firqLine := firq, nmiPending := m.nmiPending || nmi, halted := halt)
    case Step => Stepped(m).0
    case Other(after) => after
    case Trap(pc, illegal) => Trapped(m.(r := m.r.(pc := pc)), Cause(illegal))
  }

  /** The frames an event pushes: at most one. */
  function Pushes(m: Machine, e: Event): seq<Saved> {
    match e
    case Lines(_, _, _, _) => []
    case Other(_) => []
    case Trap(pc, illegal) => if m.cwaiPushed then [] else [Saved(Marked(m.r, pc, illegal), true)]
    case Step =>
      match Stepped(m).1
      case Took(i) => if m.cwaiPushed then [] else [Saved(m.r, i != Firq || m.r.FirqFull())]
      case Executed =>
        (match Decode(m)
         case ICwai => [Saved(Skip(m, 2).r.(cc := m.r.cc.Masked(Fetch(m, 1))), true)]
         case ISwi(size, _, _) => [Saved(Skip(m, size).r, true)]
         case _ => [])
      case _ => []
  }

  predicate IsReturn(m: Machine, e: Event) {
    e == Step && Stepped(m).1 == Executed && Decode(m) == IRti
  }

  /** The frames on the stack, newest first. */
  function Frames(m: Machine, frames: seq<Saved>, e: Event): seq<Saved> {
    if IsReturn(m, e) then (if frames == [] then [] else frames[1..]) else Pushes(m, e) + frames
  }

  /** A new frame leaves the bytes of an older one alone. */
  ghost predicate Apart(f: Saved, older: Saved) {
    forall a: u16 :: !(f.Covers(a) && older.Covers(a))
  }

  /** Whether an event keeps a run well nested: a return is made with S back at the newest frame, a
      new frame is pushed clear of the older ones, and other instructions leave the stacked bytes and
      the native-mode bit alone, and do not touch what only CWAI and interrupts set. */
  ghost predicate Allowed(m: Machine, frames: seq<Saved>, e: Event) {
    && (IsReturn(m, e) ==> frames != [] && m.r.s == frames[0].Where())
    && (forall f, older :: f in Pushes(m, e) && older in frames ==> Apart(f, older))
    && (e.Other? || e.Trap? ==> Stepped(m).1 == Elsewhere)
    && (e.Other? ==>
          && e.after.r.Native() == m.r.Native() && e.after.cwaiPushed == m.cwaiPushed
          && forall f :: f in frames ==> Intact(e.after.mem, f))
    && (e == Step ==> Stepped(m).1 != Elsewhere)
  }

  /** What holds throughout a well-nested run. */
  ghost predicate Sound(m: Machine, frames: seq<Saved>) {
    && (forall f :: f in frames ==> Intact(m.mem, f) && f.r.Native() == m.r.Native())
    && (m.cwaiPushed ==> m.waitSync)
  }

  // ---- the invariant ----

  /** Memory after at most one frame has been pushed. */
  function MemoryAfter(m: Ram, pushed: seq<Saved>): Ram {
    if pushed == [] then m else Laid(m, pushed[0].Where(), pushed[0].Bytes())
  }

  lemma TookPushes(m: Machine)
    requires !m.halted && Due(m) != NoInterrupt
    ensures Serviced(m).mem == MemoryAfter(m.mem, Pushes(m, Step))
    ensures Serviced(m).r.Native() == m.r.Native() && !Serviced(m).cwaiPushed
    ensures m.cwaiPushed ==> Serviced(m).r.s == m.r.s
  {
  }

  lemma PushedFrame(m: Machine, full: bool)
    ensures var now := Pushed(m, full);
            && now.mem == MemoryAfter(m.mem, [Saved(m.r, full)])
            && now == m.(mem := now.mem, r := m.r.(s := now.r.s, cc := now.r.cc))
  {
  }

  lemma SwiPushes(m: Machine, size: nat, vector: u16, mask: bool)
    ensures var now := SoftwareInterrupt(Skip(m, size), vector, mask);
            && now.mem == MemoryAfter(m.mem, [Saved(Skip(m, size).r, true)])
            && now.r.Native() == m.r.Native() && now.cwaiPushed == m.cwaiPushed && now.waitSync == m.waitSync
  {
    PushedFrame(Skip(m, size), true);
  }

  lemma CwaiPushes(m: Machine, mask: byte)
    ensures var now := Waiting(Skip(m, 2), mask);
            && now.mem == MemoryAfter(m.mem, [Saved(Skip(m, 2).r.(cc := m.r.cc.Masked(mask)), true)])
            && now.r.Native() == m.r.Native() && now.waitSync
  {
  }

  lemma RtiPushes(m: Machine)
    ensures var now := Returned(Skip(m, 1));
            && now.mem == m.mem && now.r.Native() == m.r.Native()
            && now.cwaiPushed == m.cwaiPushed && now.waitSync == m.waitSync
  {
  }

  lemma RanPushes(m: Machine)
    requires Stepped(m).1 == Executed && (m.cwaiPushed ==> m.waitSync)
    ensures var now := Stepped(m).0;
            && now.mem == MemoryAfter(m.mem, Pushes(m, Step)) && now.r.Native() == m.r.Native()
            && (now.cwaiPushed ==> now.waitSync)
  {
    match Decode(m)
    case IRti => RtiPushes(m);
    case ICwai => CwaiPushes(m, Fetch(m, 1));
    case ISwi(size, vector, mask) => SwiPushes(m, size, vector, mask);
    case IOther =>
  }

  lemma WithBitKeepsMode(b: byte, bit: nat)
    requires bit == MD_ILLEGAL || bit == MD_DIVZERO
    ensures WithBit(b, bit) % 2 == b % 2
  {
  }

  lemma EnteredPushes(m: Machine, vector: u16, maskFirq: bool, full: bool)
    ensures var now := Entered(m, vector, maskFirq, full);
            && now.mem == MemoryAfter(m.mem, if m.cwaiPushed then [] else [Saved(m.r, full)])
            && now.r.Native() == m.r.Native() && !now.cwaiPushed
  {
    PushedFrame(m, full);
  }

  lemma TrapPushes(m: Machine, pc: u16, illegal: bool)
    ensures Effect(m, Trap(pc, illegal)).mem == MemoryAfter(m.mem, Pushes(m, Trap(pc, illegal)))
    ensures Effect(m, Trap(pc, illegal)).r.Native() == m.r.Native() && !Effect(m, Trap(pc, illegal)).cwaiPushed
  {
    WithBitKeepsMode(m.r.md, Cause(illegal));
    EnteredPushes(m.(r := Marked(m.r, pc, illegal)), VEC_TRAP, true, true);
  }

  /** Pushing a frame stores it, and keeps the ones it is apart from. */
  lemma PushKeeps(m: Ram, f: Saved, older: Saved)
    requires Intact(m, older) && Apart(f, older)
    ensures Intact(Laid(m, f.Where(), f.Bytes()), older)
  {
    forall k: nat | k < |older.Bytes()|
      ensures Laid(m, f.Where(), f.Bytes())[ToU16(older.Where() + k)] == older.Bytes()[k]
    {
      AboveAt(older.Where(), k);
      assert older.Covers(ToU16(older.Where() + k));
    }
  }

  lemma IntactAfter(m: Ram, p: Saved, frames: seq<Saved>, f: Saved)
    requires f == p || (f in frames && Intact(m, f) && Apart(p, f))
    ensures Intact(Laid(m, p.Where(), p.Bytes()), f)
  {
    if f == p {
      LaidHolds(m, p.Where(), p.Bytes());
    } else {
      PushKeeps(m, p, f);
    }
  }

  lemma AllIntact(m: Ram, pushed: seq<Saved>, frames: seq<Saved>, f: Saved)
    requires |pushed| <= 1 && f in pushed + frames
    requires f in frames ==> Intact(m, f)
    requires f in frames && pushed != [] ==> Apart(pushed[0], f)
    ensures Intact(MemoryAfter(m, pushed), f)
  {
    if pushed != [] {
      IntactAfter(m, pushed[0], frames, f);
    }
  }

  lemma PushedNative(m: Machine, e: Event)
    ensures |Pushes(m, e)| <= 1
    ensures forall f :: f in Pushes(m, e) ==> f.r.Native() == m.r.Native()
  {
    if e.Trap? {
      WithBitKeepsMode(m.r.md, Cause(e.illegal));
    }
  }

  /** A step of the processor keeps the frames, and takes at most what CWAI left. */
  lemma StepKeeps(m: Machine, frames: seq<Saved>)
    requires Sound(m, frames) && Allowed(m, frames, Step)
    ensures var after := Effect(m, Step);
            after.mem == MemoryAfter(m.mem, Pushes(m, Step)) && after.r.Native() == m.r.Native()
            && (after.cwaiPushed ==> after.waitSync)
  {
    match Stepped(m).1
    case Took(_) => TookPushes(m);
    case Executed => RanPushes(m);
    case _ =>
  }

  /** Every event of a well-nested run keeps the invariant. */
  lemma SoundStep(m: Machine, frames: seq<Saved>, e: Event)
    requires Sound(m, frames) && Allowed(m, frames, e)
    ensures Sound(Effect(m, e), Frames(m, frames, e))
  {
    PushedNative(m, e);
    var pushed := Pushes(m, e);
    forall f | f in pushed + frames
      ensures Intact(MemoryAfter(m.mem, pushed), f)
    {
      AllIntact(m.mem, pushed, frames, f);
    }
    match e
    case Step => StepKeeps(m, frames);
    case Trap(pc, illegal) => TrapPushes(m, pc, illegal);
    case Lines(_, _, _, _) =>
    case Other(_) =>
  }

  // ---- the theorems ----

  /** A well-nested run, and the machine and frames it ends with. */
  ghost predicate WellNested(m: Machine, frames: seq<Saved>, run: seq<Event>)
    decreases |run|
  {
    run == [] || (Allowed(m, frames, run[0]) && WellNested(Effect(m, run[0]), Frames(m, frames, run[0]), run[1..]))
  }

  function After(m: Machine, frames: seq<Saved>, run: seq<Event>): (Machine, seq<Saved>)
    decreases |run|
  {
    if run == [] then (m, frames) else After(Effect(m, run[0]), Frames(m, frames, run[0]), run[1..])
  }

  lemma {:induction false} SoundAfter(m: Machine, frames: seq<Saved>, run: seq<Event>)
    requires Sound(m, frames) && WellNested(m, frames, run)
    ensures Sound(After(m, frames, run).0, After(m, frames, run).1)
    decreases |run|
  {
    if run != [] {
      SoundStep(m, frames, run[0]);
      SoundAfter(Effect(m, run[0]), Frames(m, frames, run[0]), run[1..]);
    }
  }

  /** A run from outside any handler: nothing is stacked and no CWAI is waiting. */
  predicate Outside(m: Machine) { !m.cwaiPushed }

  lemma ReturnFrom(m: Machine, frames: seq<Saved>)
    requires Sound(m, frames) && Allowed(m, frames, Step) && IsReturn(m, Step)
    ensures Effect(m, Step) == m.(r := Restored(frames[0], Skip(m, 1).r))
  {
    var f := frames[0];
    assert f in frames;
    ReturnRestores(m.mem, f, Skip(m, 1).r);
  }

  /** However a well-nested run goes, an RTI at the end of it gives back S, PC and every stacked
      register as they were at the entry it returns from, and CC as it was but for E: whatever the
      handlers did to the registers and to the mode of FIRQ. */
  lemma EveryReturnRestores(start: Machine, run: seq<Event>, m: Machine, frames: seq<Saved>)
    requires Outside(start) && WellNested(start, [], run) && (m, frames) == After(start, [], run)
    requires Allowed(m, frames, Step) && IsReturn(m, Step)
    ensures frames != [] && Effect(m, Step) == m.(r := Restored(frames[0], Skip(m, 1).r))
  {
    SoundAfter(start, [], run);
    ReturnFrom(m, frames);
  }

  /** An entry that pushes a frame, whatever its handler then runs, is undone by the return that pops
      the frame, at any depth of nesting. */
  lemma EntryToReturn(m: Machine, frames: seq<Saved>, entry: Event, handler: seq<Event>, f: Saved, back: Machine)
    requires Sound(m, frames) && Allowed(m, frames, entry) && Pushes(m, entry) == [f]
    requires WellNested(Effect(m, entry), [f] + frames, handler)
    requires After(Effect(m, entry), [f] + frames, handler) == (back, [f] + frames)
    requires Allowed(back, [f] + frames, Step) && IsReturn(back, Step)
    ensures Effect(back, Step) == back.(r := Restored(f, Skip(back, 1).r)) && Frames(back, [f] + frames, Step) == frames
  {
    PushingIsNoReturn(m, entry);
    SoundStep(m, frames, entry);
    SoundAfter(Effect(m, entry), [f] + frames, handler);
    ReturnFrom(back, [f] + frames);
  }

  lemma PushingIsNoReturn(m: Machine, e: Event)
    ensures Pushes(m, e) != [] ==> !IsReturn(m, e)
  {
  }

  /** CWAI waits with its frame already stacked, all through any well-nested run. */
  lemma CwaiWaits(start: Machine, run: seq<Event>)
    requires Outside(start) && WellNested(start, [], run)
    ensures var m := After(start, [], run).0; m.cwaiPushed ==> m.waitSync
  {
    SoundAfter(start, [], run);
  }

  /** The interrupt that ends CWAI's wait pushes nothing more: CWAI stacks the registers once. */
  lemma CwaiPushesOnce(m: Machine)
    requires !m.halted && !m.waitSync && Due(m) == NoInterrupt && Decode(m) == ICwai && !m.cwaiPushed
    ensures var waits := Effect(m, Step);
            && |Pushes(m, Step)| == 1
            && forall irq, firq, nmi ::
                 var woken := Effect(waits, Lines(irq, firq, nmi, false));
                 && Pushes(woken, Step) == []
                 && Effect(woken, Step).mem == waits.mem && Effect(woken, Step).r.s == waits.r.s
                 && (Due(woken) != NoInterrupt ==> !Effect(woken, Step).cwaiPushed && !Effect(woken, Step).waitSync)
  {
    var waits := Effect(m, Step);
    forall irq, firq, nmi
      ensures var woken := Effect(waits, Lines(irq, firq, nmi, false));
              && Pushes(woken, Step) == []
              && Effect(woken, Step).mem == waits.mem && Effect(woken, Step).r.s == waits.r.s
              && (Due(woken) != NoInterrupt ==> !Effect(woken, Step).cwaiPushed && !Effect(woken, Step).waitSync)
    {
      var woken := Effect(waits, Lines(irq, firq, nmi, false));
      assert woken.cwaiPushed && woken.waitSync;
      if Due(woken) != NoInterrupt {
        TookPushes(woken);
      }
    }
  }
}
