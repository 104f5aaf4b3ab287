/** Interrupted block copies on the whole machine: a TFM that interrupts break off, their handlers, the
    returns, and the copies started again. */
module CpuCopies {
  import opened Words
  import opened CpuState
  import opened CpuInterrupts
  import opened CpuRuns
  import opened CpuTfm

  /** The machine when the TFM it is at has copied k bytes and stops: broken off if more are left. */
  function Stopped(t: Tfm, m: Machine, k: nat): Machine
    requires k <= m.r.W()
  {
    m.(r := Broken(t, Past(m.r, m.r.pc), m.r.pc, k), mem := t.Memory(m.r, m.mem, k))
  }

  /** The inputs as the devices leave them after a byte. */
  datatype Inputs = Inputs(irq: bool, firq: bool, nmi: bool)

  function Driven(m: Machine, devices: seq<Inputs>, k: nat): Machine {
    if k < |devices| then
      m.(irqLine := devices[k].irq, firqLine := devices[k].firq, nmiPending := m.nmiPending || devices[k].nmi)
    else m
  }

  function LinesAfter(m: Machine, devices: seq<Inputs>, k: nat): (after: Machine)
    ensures after == m.(irqLine := after.irqLine, firqLine := after.firqLine, nmiPending := after.nmiPending)
    ensures m.nmiPending ==> after.nmiPending
  {
    if k == 0 then m else Driven(LinesAfter(m, devices, k - 1), devices, k - 1)
  }

  /** The machine when the copy it has started has copied k bytes. */
  function Copying(t: Tfm, start: Machine, devices: seq<Inputs>, k: nat): Machine
    requires k <= start.r.W()
  {
    LinesAfter(start, devices, k).(r := t.Registers(start.r, k), mem := t.Memory(start.r, start.mem, k))
  }

  /** How many bytes one execution copies: all, or up to the first after which an interrupt is due. */
  function CopiesOf(t: Tfm, start: Machine, devices: seq<Inputs>, from: nat): (k: nat)
    requires from <= start.r.W()
    ensures from <= k <= start.r.W()
    ensures k < start.r.W() ==> 0 < k && Due(Copying(t, start, devices, k)) != NoInterrupt
    ensures forall j :: from <= j < k && 0 < j ==> Due(Copying(t, start, devices, j)) == NoInterrupt
    decreases start.r.W() - from
  {
    if from == start.r.W() then from
    else if 0 < from && Due(Copying(t, start, devices, from)) != NoInterrupt then from
    else CopiesOf(t, start, devices, from + 1)
  }

  /** Whether the copy is interrupted after k bytes, if it was not before. */
  ghost predicate Undecided(t: Tfm, start: Machine, devices: seq<Inputs>, k: nat, interrupted: bool)
    requires k <= start.r.W()
  {
    && CopiesOf(t, start, devices, 0) == CopiesOf(t, start, devices, k)
    && interrupted == (0 < k < start.r.W() && Due(Copying(t, start, devices, k)) != NoInterrupt)
  }

  lemma CopiesOn(t: Tfm, start: Machine, devices: seq<Inputs>, k: nat)
    requires k < start.r.W() && (k == 0 || Due(Copying(t, start, devices, k)) == NoInterrupt)
    ensures CopiesOf(t, start, devices, k) == CopiesOf(t, start, devices, k + 1)
  {
  }

  lemma CopiesEnd(t: Tfm, start: Machine, devices: seq<Inputs>, k: nat)
    requires k <= start.r.W()
    requires k == start.r.W() || (0 < k && Due(Copying(t, start, devices, k)) != NoInterrupt)
    ensures CopiesOf(t, start, devices, k) == k
  {
  }

  lemma ElsewhereStays(m: Machine)
    ensures Stepped(m).1 == Elsewhere ==> Stepped(m).0 == m
  {
  }

  predicate IsTfm(m: Machine) { Fetch(m, 0) == 0x11 && 0x38 <= Fetch(m, 1) <= 0x3B }

  /** The TFM the machine is at. */
  function TfmAt(m: Machine): Tfm { Tfm(Fetch(m, 1), Fetch(m, 2) / 0x10, Fetch(m, 2) % 0x10) }

  lemma FetchesFrom(m: Machine)
    requires IsTfm(m)
    ensures Fetches(m.mem, m.r.pc, TfmAt(m))
  {
  }

  /** The machine after one execution of the TFM it was at: stopped after some bytes, with the lines as the
      devices left them, and with an interrupt due if that is before the last. */
  ghost predicate RanTfm(m: Machine, devices: seq<Inputs>, copies: nat, after: Machine) {
    var t := TfmAt(m);
    && Fetches(m.mem, m.r.pc, t) && copies == CopiesOf(t, Skip(m, 3), devices, 0)
    && after == Effect(Stopped(t, m, copies), Lines(after.irqLine, after.firqLine, after.nmiPending, after.halted))
    && (copies < m.r.W() ==> copies > 0 && Due(after) != NoInterrupt)
  }

  /** Neither pointer is PC, so where the copy starts does not depend on it. */
  lemma StoppedThere(m: Machine, start: Machine, t: Tfm, devices: seq<Inputs>, k: nat, after: Machine)
    requires IsTfm(m) && t == TfmAt(m) && TwoPointers(t) && start == Skip(m, 3)
    requires k == CopiesOf(t, start, devices, 0)
    requires after == Copying(t, start, devices, k).(r := Broken(t, start.r, m.r.pc, k))
    ensures RanTfm(m, devices, k, after)
  {
    FetchesFrom(m);
    LinesOnly(m, start, t, devices, k, after);
    StillDue(start, t, devices, k, m.r.pc);
  }

  lemma LinesOnly(m: Machine, start: Machine, t: Tfm, devices: seq<Inputs>, k: nat, after: Machine)
    requires TwoPointers(t) && start == Skip(m, 3) && k <= m.r.W()
    requires after == Copying(t, start, devices, k).(r := Broken(t, start.r, m.r.pc, k))
    ensures after == Effect(Stopped(t, m, k), Lines(after.irqLine, after.firqLine, after.nmiPending, after.halted))
  {
    assert start.r == Past(m.r, m.r.pc);
    SameFromPast(t, m.r, m.mem, m.r.pc, k);
    assert LinesAfter(start, devices, k).nmiPending == after.nmiPending;
  }

  lemma StillDue(start: Machine, t: Tfm, devices: seq<Inputs>, k: nat, at: u16)
    requires k == CopiesOf(t, start, devices, 0)
    ensures k < start.r.W() ==>
              0 < k && Due(Copying(t, start, devices, k).(r := Broken(t, start.r, at, k))) != NoInterrupt
  {
  }

  lemma SameFromPast(t: Tfm, r: Regs, m: Ram, at: u16, k: nat)
    requires TwoPointers(t)
    ensures t.Memory(Past(r, at), m, k) == t.Memory(r, m, k)
  {
  }

  /** The same from the machine past the opcode, whose next byte tells the pointers. */
  lemma DoneTfm(m: Machine, mid: Machine, start: Machine, t: Tfm, devices: seq<Inputs>, copies: nat, after: Machine)
    requires IsTfm(m) && mid == Skip(m, 2) && start == Skip(mid, 1)
    requires t == Tfm(Fetch(m, 1), Fetch(mid, 0) / 0x10, Fetch(mid, 0) % 0x10)
    requires copies == CopiesOf(t, start, devices, 0)
    requires after == Copying(t, start, devices, copies).(r := Broken(t, start.r, m.r.pc, copies))
    ensures t == TfmAt(m) && copies == CopiesOf(t, Skip(m, 3), devices, 0)
    ensures TwoPointers(t) ==> RanTfm(m, devices, copies, after)
  {
    StartIs(m, mid, start);
    if TwoPointers(t) {
      StoppedThere(m, start, t, devices, copies, after);
    }
  }

  lemma StartIs(m: Machine, mid: Machine, start: Machine)
    requires mid == Skip(m, 2) && start == Skip(mid, 1)
    ensures start == Skip(m, 3) && Fetch(mid, 0) == Fetch(m, 2)
  {
    SkipOn(m, 2);
    WrapOn(m.r.pc + 2, 0);
  }

  /** Fetching the prefix, the opcode and the postbyte. */
  lemma SkipOn(m: Machine, n: nat)
    ensures Skip(Skip(m, n), 1) == Skip(m, n + 1)
  {
    WrapOn(m.r.pc + n, 1);
  }

  lemma WrapOn(a: int, b: int)
    ensures ToU16(ToU16(a) + b) == ToU16(a + b)
  {
  }

  lemma CopyingOn(t: Tfm, start: Machine, devices: seq<Inputs>, k: nat, now: Machine)
    requires k < start.r.W()
    requires now == Copying(t, start, devices, k).(r := t.Registers(start.r, k + 1),
                                                   mem := t.Memory(start.r, start.mem, k + 1))
    ensures Driven(now, devices, k) == Copying(t, start, devices, k + 1)
  {
  }

  /** One pause of a copy: after how many bytes, or before any, how the lines then are, and the addresses
      that may have changed since the copy began. Either an interrupt is served, whose handler runs what it
      does before its RTI, or the copy goes on, as when the line that broke it off has fallen again. */
  datatype Pause =
    | Served(copied: nat, lines: Event, scratch: iset<u16>, handler: seq<Event>)
    | Dropped(copied: nat, lines: Event, scratch: iset<u16>)

  /** The machine when the lines have changed. */
  function AtInterrupt(t: Tfm, m: Machine, p: Pause): Machine
    requires p.copied <= m.r.W()
  {
    Effect(if p.copied == 0 then m else Stopped(t, m, p.copied), p.lines)
  }

  /** The machine at the handler's RTI, and the frames then. */
  function AtReturn(t: Tfm, m: Machine, frames: seq<Saved>, p: Pause): (Machine, seq<Saved>)
    requires p.Served? && p.copied <= m.r.W()
  {
    var due := AtInterrupt(t, m, p);
    After(Effect(due, Step), Frames(due, frames, Step), p.handler)
  }

  function Again(t: Tfm, m: Machine, frames: seq<Saved>, p: Pause): Machine
    requires p.copied <= m.r.W()
  {
    if p.Served? then Effect(AtReturn(t, m, frames, p).0, Step) else AtInterrupt(t, m, p)
  }

  /** What a handler must leave alone for the copy's sake, `f` being the frame its return pops: memory
      but for the scratch addresses, W if that is not stacked, and everything after a fast entry. */
  ghost predicate Considerate(f: Saved, due: Machine, back: Machine, scratch: iset<u16>) {
    && AgreeOff(back.mem, due.mem, scratch)
    && if f.full then f.r.Native() || (back.r.e == f.r.e && back.r.f == f.r.f)
       else Same(back.r.(pc := f.r.pc, s := f.r.s), f.r)
  }

  /** An interrupt is taken, and its handler nests well, returns with the frames it began with, and is
      considerate. */
  ghost predicate WellServed(t: Tfm, m: Machine, frames: seq<Saved>, p: Pause)
    requires p.Served? && p.copied <= m.r.W()
  {
    var due := AtInterrupt(t, m, p);
    && Stepped(due).1.Took? && !due.cwaiPushed && Allowed(due, frames, Step)
    && var stack := Pushes(due, Step) + frames;
    && WellNested(Effect(due, Step), stack, p.handler)
    && var (back, left) := AtReturn(t, m, frames, p);
    && left == stack && Allowed(back, stack, Step) && IsReturn(back, Step)
    && Considerate(stack[0], due, back, p.scratch)
  }

  /** A pause of the copy the machine is at: it leaves some of it, or comes before it begins, and what is
      still to be read is off its scratch addresses. */
  ghost predicate Interrupted(t: Tfm, m: Machine, frames: seq<Saved>, p: Pause, scratch: iset<u16>) {
    && p.lines.Lines?
    && (p.copied == 0 || (p.copied < m.r.W() && Allowed(m, frames, Other(Stopped(t, m, p.copied)))))
    && (p.Served? ==> WellServed(t, m, frames, p))
    && scratch <= p.scratch && Unread(t, PausedAt(t, m.r, m.r.pc, p.copied), m.r.pc, p.scratch)
  }

  lemma {:induction false} BrokenOff(t: Tfm, m: Machine, frames: seq<Saved>, p: Pause, scratch: iset<u16>)
    requires Sound(m, frames) && Interrupted(t, m, frames, p, scratch)
    ensures var due := AtInterrupt(t, m, p);
            && Sound(due, frames) && due.r == PausedAt(t, m.r, m.r.pc, p.copied)
            && due.mem == t.Memory(m.r, m.mem, p.copied)
  {
    var stopped := if p.copied == 0 then m else Stopped(t, m, p.copied);
    if p.copied > 0 {
      SoundStep(m, frames, Other(stopped));
    }
    SoundStep(stopped, frames, p.lines);
  }

  /** An interruption gives the copy back its registers, and its memory but for scratch. */
  lemma {:induction false} PauseGivesBack(t: Tfm, m: Machine, frames: seq<Saved>, p: Pause, scratch: iset<u16>)
    requires Sound(m, frames) && Interrupted(t, m, frames, p, scratch)
    ensures var again := Again(t, m, frames, p);
            && Sound(again, frames) && Same(again.r, PausedAt(t, m.r, m.r.pc, p.copied))
            && AgreeOff(again.mem, t.Memory(m.r, m.mem, p.copied), p.scratch)
  {
    BrokenOff(t, m, frames, p, scratch);
    if p.Served? {
      ServedGivesBack(t, m, frames, p);
    }
  }

  lemma {:induction false} ServedGivesBack(t: Tfm, m: Machine, frames: seq<Saved>, p: Pause)
    requires p.Served? && p.copied <= m.r.W() && Sound(AtInterrupt(t, m, p), frames) && WellServed(t, m, frames, p)
    ensures var due, again := AtInterrupt(t, m, p), Again(t, m, frames, p);
            Sound(again, frames) && Same(again.r, due.r) && AgreeOff(again.mem, due.mem, p.scratch)
  {
    var due := AtInterrupt(t, m, p);
    var f := Saved(due.r, Stepped(due).1.interrupt != Firq || due.r.FirqFull());
    assert Pushes(due, Step) == [f];
    var back := AtReturn(t, m, frames, p).0;
    assert Frames(due, frames, Step) == [f] + frames;
    EntryToReturn(due, frames, Step, p.handler, f, back);
    SoundStep(due, frames, Step);
    SoundAfter(Effect(due, Step), [f] + frames, p.handler);
    SoundStep(back, [f] + frames, Step);
    HandlerGivesBack(f, Skip(back, 1).r);
  }

  /** A copy interrupted again and again. */
  ghost predicate InterruptedBy(t: Tfm, m: Machine, frames: seq<Saved>, ps: seq<Pause>, scratch: iset<u16>)
    decreases |ps|
  {
    ps == [] || (Interrupted(t, m, frames, ps[0], scratch)
                 && InterruptedBy(t, Again(t, m, frames, ps[0]), frames, ps[1..], ps[0].scratch))
  }

  /** The machine when the copy is started for the last time. */
  ghost function LastStart(t: Tfm, m: Machine, frames: seq<Saved>, ps: seq<Pause>, scratch: iset<u16>): Machine
    requires InterruptedBy(t, m, frames, ps, scratch)
    decreases |ps|
  {
    if ps == [] then m else LastStart(t, Again(t, m, frames, ps[0]), frames, ps[1..], ps[0].scratch)
  }

  ghost function Breaks(t: Tfm, m: Machine, frames: seq<Saved>, ps: seq<Pause>, scratch: iset<u16>): (r: seq<Break>)
    requires InterruptedBy(t, m, frames, ps, scratch)
    ensures |r| == |ps| && forall i :: 0 <= i < |ps| ==> r[i].scratch == ps[i].scratch
    decreases |ps|
  {
    if ps == [] then []
    else
      var again := Again(t, m, frames, ps[0]);
      [Break(ps[0].copied, again.r, again.mem, ps[0].scratch)] + Breaks(t, again, frames, ps[1..], ps[0].scratch)
  }

  /** A pause of the machine is a break of its copy. */
  lemma {:induction false} PauseIsBreak(t: Tfm, m: Machine, frames: seq<Saved>, p: Pause, scratch: iset<u16>)
    requires TwoPointers(t) && Sound(m, frames) && Interrupted(t, m, frames, p, scratch)
    ensures var again := Again(t, m, frames, p);
            && Sound(again, frames) && again.r.pc == m.r.pc
            && LegalBreak(t, m.r.pc, m.r, m.mem, Break(p.copied, again.r, again.mem, p.scratch), scratch)
  {
    PauseGivesBack(t, m, frames, p, scratch);
    SameGives(t, Again(t, m, frames, p).r, PausedAt(t, m.r, m.r.pc, p.copied), 0);
  }

  lemma {:induction false} BreaksLegal(t: Tfm, m: Machine, frames: seq<Saved>, ps: seq<Pause>, scratch: iset<u16>)
    requires TwoPointers(t) && Sound(m, frames) && InterruptedBy(t, m, frames, ps, scratch)
    ensures Legal(t, m.r.pc, m.r, m.mem, Breaks(t, m, frames, ps, scratch), scratch)
    ensures var last := LastStart(t, m, frames, ps, scratch);
            && Sound(last, frames) && last.r.pc == m.r.pc
            && Finished(t, m.r.pc, m.r, m.mem, Breaks(t, m, frames, ps, scratch))
               == (Stopped(t, last, last.r.W()).r, Stopped(t, last, last.r.W()).mem)
    decreases |ps|
  {
    if ps != [] {
      var again := Again(t, m, frames, ps[0]);
      PauseIsBreak(t, m, frames, ps[0], scratch);
      BreaksLegal(t, again, frames, ps[1..], ps[0].scratch);
      var breaks := Breaks(t, m, frames, ps, scratch);
      assert breaks[1..] == Breaks(t, again, frames, ps[1..], ps[0].scratch);
    }
  }

  /** The scratch addresses of the last pause. */
  ghost function Used(ps: seq<Pause>): iset<u16> { if ps == [] then iset{} else ps[|ps| - 1].scratch }

  /** A TFM paused any number of times, after any bytes or before the first, each interrupt taken being
      served by a handler that runs as it likes but for what the copy needs, finds itself there whole each
      time, and ends with the registers of a copy nothing interrupts, and with its memory but for the
      addresses the handlers used. */
  lemma {:induction false} InterruptsDoNotMatter(t: Tfm, m: Machine, frames: seq<Saved>, ps: seq<Pause>)
    requires TwoPointers(t) && Fetches(m.mem, m.r.pc, t) && KeepsInstruction(t, m.r, m.r.pc)
    requires Sound(m, frames) && InterruptedBy(t, m, frames, ps, iset{})
    ensures var last := LastStart(t, m, frames, ps, iset{});
            && Sound(last, frames) && last.r.pc == m.r.pc && Fetches(last.mem, last.r.pc, t)
            && var done, whole := Stopped(t, last, last.r.W()), Stopped(t, m, m.r.W());
            && Same(done.r, whole.r) && AgreeOff(done.mem, whole.mem, Used(ps))
            && done.r.W() == 0 && done.r.pc == ToU16(m.r.pc + 3)
  {
    BreaksLegal(t, m, frames, ps, iset{});
    BreaksDoNotMatter(t, m.r.pc, m.r, m.mem, Breaks(t, m, frames, ps, iset{}), m.r, m.mem, iset{});
    LastUsed(Breaks(t, m, frames, ps, iset{}), iset{});
    LastFetches(t, m, frames, ps, iset{});
  }

  lemma {:induction false} LastUsed(breaks: seq<Break>, scratch: iset<u16>)
    ensures LastScratch(breaks, scratch) == if breaks == [] then scratch else breaks[|breaks| - 1].scratch
    decreases |breaks|
  {
    if breaks != [] {
      LastUsed(breaks[1..], breaks[0].scratch);
    }
  }

  lemma {:induction false} LastFetches(t: Tfm, m: Machine, frames: seq<Saved>, ps: seq<Pause>, scratch: iset<u16>)
    requires TwoPointers(t) && Sound(m, frames) && InterruptedBy(t, m, frames, ps, scratch)
    requires Fetches(m.mem, m.r.pc, t)
    requires forall b :: b in Breaks(t, m, frames, ps, scratch) ==> Fetches(b.mem, m.r.pc, t)
    ensures Fetches(LastStart(t, m, frames, ps, scratch).mem, m.r.pc, t)
    decreases |ps|
  {
    if ps != [] {
      var again := Again(t, m, frames, ps[0]);
      PauseIsBreak(t, m, frames, ps[0], scratch);
      var breaks := Breaks(t, m, frames, ps, scratch);
      assert breaks[0].mem == again.mem && breaks[1..] == Breaks(t, again, frames, ps[1..], ps[0].scratch);
      forall b | b in Breaks(t, again, frames, ps[1..], ps[0].scratch)
        ensures Fetches(b.mem, again.r.pc, t)
      {
        assert b in breaks;
      }
      LastFetches(t, again, frames, ps[1..], ps[0].scratch);
    }
  }

  /** An NMI after k bytes, or before any, whose handler is an RTI. */
  function AtOnce(m: Machine, k: nat, scratch: iset<u16>): Pause {
    Served(k, Lines(m.irqLine, m.firqLine, true, false), scratch, [])
  }

  lemma AtTfm(t: Tfm, m: Machine)
    requires Fetches(m.mem, m.r.pc, t) && !m.halted && !m.waitSync && Due(m) == NoInterrupt
    ensures Stepped(m).1 == Elsewhere
  {
    assert Fetch(m, 0) == 0x11 && 0x38 <= Fetch(m, 1) <= 0x3B;
    assert Decoded(0x11, Fetch(m, 1)) == IOther;
  }

  /** MD is not one of the registers TFM numbers. */
  lemma ModeKept(t: Tfm, r: Regs, at: u16, k: nat)
    requires TwoPointers(t) && k <= r.W()
    ensures Broken(t, Past(r, at), at, k).md == r.md
  {
  }

  lemma StopAllowed(m: Machine, after: Machine)
    requires Stepped(m).1 == Elsewhere && after.r.md == m.r.md && after.cwaiPushed == m.cwaiPushed
    ensures Allowed(m, [], Other(after))
  {
  }

  lemma NmiTaken(due: Machine)
    requires due.nmiPending && !due.halted && !due.cwaiPushed
    ensures Stepped(due) == (Serviced(due), Took(Nmi)) && Pushes(due, Step) == [Saved(due.r, true)]
    ensures var back := Serviced(due);
            && !back.halted && !back.waitSync && Due(back) == NoInterrupt
            && back.r.s == Saved(due.r, true).Where() && back.r.Native() == due.r.Native()
            && back.mem == Laid(due.mem, Saved(due.r, true).Where(), Saved(due.r, true).Bytes())
  {
  }

  lemma LaidAgrees(m: Ram, f: Saved, scratch: iset<u16>)
    requires forall a :: f.Covers(a) ==> a in scratch
    ensures AgreeOff(Laid(m, f.Where(), f.Bytes()), m, scratch)
  {
  }

  lemma AtRti(m: Machine)
    requires !m.halted && !m.waitSync && Due(m) == NoInterrupt && m.mem[m.r.pc] == 0x3B
    ensures IsReturn(m, Step) && Pushes(m, Step) == []
  {
    assert Decode(m) == IRti;
  }

  lemma Returning(back: Machine, f: Saved)
    requires IsReturn(back, Step) && Pushes(back, Step) == [] && back.r.s == f.Where()
    ensures Allowed(back, [f], Step)
  {
  }

  lemma Entering(due: Machine, f: Saved)
    requires Stepped(due).1 == Took(Nmi) && Pushes(due, Step) == [f]
    ensures Allowed(due, [], Step) && Frames(due, [], Step) == [f]
  {
  }

  /** There are such interruptions: one whose handler is an RTI, after any of the bytes but the last, or
      before the first even if other interrupts are due then too, as when they wait at a return. */
  lemma ReturnsAtOnce(t: Tfm, m: Machine, k: nat, scratch: iset<u16>)
    requires TwoPointers(t) && Fetches(m.mem, m.r.pc, t) && (k == 0 || k < m.r.W()) && m.r.Native()
    requires !m.cwaiPushed && (k > 0 ==> !m.halted && !m.waitSync && Due(m) == NoInterrupt)
    requires var due := AtInterrupt(t, m, AtOnce(m, k, scratch));
             && Serviced(due).mem[Serviced(due).r.pc] == 0x3B
             && forall a :: Saved(due.r, true).Covers(a) ==> a in scratch
    requires Unread(t, PausedAt(t, m.r, m.r.pc, k), m.r.pc, scratch)
    ensures Interrupted(t, m, [], AtOnce(m, k, scratch), iset{})
  {
    var due := AtInterrupt(t, m, AtOnce(m, k, scratch));
    var f := Saved(due.r, true);
    if k > 0 {
      AtTfm(t, m);
      ModeKept(t, m.r, m.r.pc, k);
      StopAllowed(m, Stopped(t, m, k));
    }
    NmiTaken(due);
    LaidAgrees(due.mem, f, scratch);
    Entering(due, f);
    AtRti(Serviced(due));
    Returning(Serviced(due), f);
    assert [f] + [] == [f];
  }

  /** The addresses of a frame. */
  ghost function FrameOf(f: Saved): iset<u16> { iset a: u16 | f.Covers(a) }

  /** A frame is below S, so a source that S counts up through has all that is still to be read off it,
      unless that goes nearly once round the memory; what has been read may be under the frame. */
  lemma StackBelowSource(t: Tfm, r: Regs, at: u16)
    requires t.src == 4 && t.Ss() == 1 && r.Native() && r.W() <= WORD_16 - 14
    requires forall a :: InInstruction(at, a) ==> !Saved(r, true).Covers(a)
    ensures Unread(t, r, at, FrameOf(Saved(r, true)))
  {
    var f := Saved(r, true);
    FrameBelow(r);
    forall i: nat | i < r.W()
      ensures !f.Covers(Moved(GetReg(r, t.src), t.Ss(), i))
    {
      AboveFrame(r.s, i);
    }
  }

  lemma FrameBelow(r: Regs)
    requires r.Native()
    ensures |Saved(r, true).Bytes()| == 14 && Saved(r, true).Where() == ToU16(r.s - 14)
  {
  }

  lemma AboveFrame(s: u16, i: nat)
    requires i + 14 < WORD_16
    ensures Above(Moved(s, 1, i), ToU16(s - 14)) == i + 14
  {
    var a: int, b: int := (s + i) / WORD_16, (s - 14) / WORD_16;
    DivMod(s + i, WORD_16);
    DivMod(s - 14, WORD_16);
    var apart: int := ToU16(s + i) - ToU16(s - 14);
    DivUnique(apart, WORD_16, b - a, i + 14);
  }
}
