/** The R65C51 UART: its registers and shift registers as a state machine, the program's methods that
    run it, and what becomes of every byte over whole runs. */
module Uart {
  import opened Words

  const PENDING_MAX := 65536

  datatype State = State(command: byte, control: byte, irqFlag: bool, overrun: bool, tdre: bool, rdrf: bool,
                         rxData: byte, txShift: byte, txActive: bool, txRemaining: int, rxShift: byte,
                         rxActive: bool, rxRemaining: int, rxPending: Bytes, txQueue: Bytes)
  {
    predicate ReceiverOn() { command % 2 == 1 }
    predicate TxIrqEnabled() { command % 2 == 1 && command / 4 % 4 == 1 }
    predicate RxIrqEnabled() { command % 2 == 1 && command / 2 % 2 == 0 }
  }

  /** The status register, the modem lines being ready: those bits and the error bits the program never
      sets are 0. */
  function Status(irqFlag: bool, tdre: bool, rdrf: bool, overrun: bool): byte {
    (if irqFlag then 0x80 else 0) + (if tdre then 0x10 else 0) + (if rdrf then 0x08 else 0)
      + (if overrun then 0x04 else 0)
  }

  // ---- one operation ----

  /** What the processor and the host do. How long a character takes, in processor cycles, comes from
      the control and command registers and the clocks: any positive number here. */
  datatype Op =
    | Read(offset: nat)
    | Write(offset: nat, value: byte, charTime: nat)
    | Tick(cycles: nat, charTime: nat)
    | Enqueue(b: byte)
    | Dequeue
    | Reset

  function AfterRead(u: State, offset: nat): State {
    if offset % 4 == 0 then u.(rdrf := false, overrun := false)
    else if offset % 4 == 1 then u.(irqFlag := false)
    else u
  }

  function ReadValue(u: State, offset: nat): byte {
    if offset % 4 == 0 then u.rxData
    else if offset % 4 == 1 then Status(u.irqFlag, u.tdre, u.rdrf, u.overrun)
    else if offset % 4 == 2 then u.command
    else u.control
  }

  function AfterWrite(u: State, offset: nat, value: byte, charTime: nat): State {
    if offset % 4 == 0 then u.(txShift := value, txActive := true, txRemaining := charTime, tdre := false)
    else if offset % 4 == 1 then u.(command := u.command / 0x20 * 0x20, overrun := false)
    else if offset % 4 == 2 then
      var n := u.(command := value);
      n.(irqFlag := u.irqFlag || (u.tdre && n.TxIrqEnabled()) || (u.rdrf && n.RxIrqEnabled()))
    else u.(control := value)
  }

  function AfterReset(u: State): State {
    State(0, 0, false, false, true, false, 0, u.txShift, false, 0, u.rxShift, false, 0, [], [])
  }

  /** The transmitter: a byte goes out when its time is up. */
  predicate TxCompletes(u: State, cycles: nat) { u.txActive && u.txRemaining <= cycles }

  function TxTick(u: State, cycles: nat): State {
    if TxCompletes(u, cycles) then
      u.(txRemaining := u.txRemaining - cycles, txActive := false, tdre := true, txQueue := u.txQueue + [u.txShift],
         irqFlag := u.irqFlag || u.TxIrqEnabled())
    else if u.txActive then u.(txRemaining := u.txRemaining - cycles)
    else u
  }

  /** The receiver starts on the next byte that waits, if it is on and not busy. */
  function RxStart(u: State, charTime: nat): State {
    if !u.rxActive && u.rxPending != [] && u.ReceiverOn() then
      u.(rxActive := true, rxShift := u.rxPending[0], rxPending := u.rxPending[1..], rxRemaining := charTime)
    else u
  }

  predicate RxCompletes(u: State, cycles: nat) { u.rxActive && u.rxRemaining <= cycles }

  /** A byte that has come is given to the program, or dropped if the last one is still unread. */
  function RxTick(u: State, cycles: nat): State {
    if !u.rxActive then u
    else
      var n := u.(rxRemaining := u.rxRemaining - cycles);
      if !RxCompletes(u, cycles) then n
      else if u.rdrf then n.(rxActive := false, overrun := true)
      else n.(rxActive := false, rxData := u.rxShift, rdrf := true, irqFlag := u.irqFlag || u.RxIrqEnabled())
  }

  function AfterTick(u: State, cycles: nat, charTime: nat): State {
    RxTick(RxStart(TxTick(u, cycles), charTime), cycles)
  }

  predicate Accepts(u: State) { |u.rxPending| < PENDING_MAX }

  function After(u: State, op: Op): State {
    match op
    case Read(offset) => AfterRead(u, offset)
    case Write(offset, value, charTime) => AfterWrite(u, offset, value, charTime)
    case Tick(cycles, charTime) => AfterTick(u, cycles, charTime)
    case Enqueue(b) => if Accepts(u) then u.(rxPending := u.rxPending + [b]) else u
    case Dequeue => if u.txQueue == [] then u else u.(txQueue := u.txQueue[1..])
    case Reset => AfterReset(u)
  }

  // ---- the program's methods ----

  class UartR65C51 {
    var command: byte
    var control: byte
    var irqFlag: bool
    var overrun: bool
    var tdre: bool
    var rdrf: bool
    var rxData: byte
    var txShift: byte
    var txActive: bool
    var txRemaining: int
    var rxShift: byte
    var rxActive: bool
    var rxRemaining: int
    var rxPending: Bytes
    var txQueue: Bytes

    ghost function Now(): State
      reads this
    {
      State(command, control, irqFlag, overrun, tdre, rdrf, rxData, txShift, txActive, txRemaining, rxShift, rxActive,
            rxRemaining, rxPending, txQueue)
    }

    constructor ()
      ensures Now() == State(0, 0, false, false, true, false, 0, 0, false, 0, 0, false, 0, [], [])
    {
      command, control, irqFlag, overrun, tdre, rdrf, rxData := 0, 0, false, false, true, false, 0;
      txShift, txActive, txRemaining := 0, false, 0;
      rxShift, rxActive, rxRemaining, rxPending, txQueue := 0, false, 0, [], [];
    }

    predicate TxIrqEnabled()
      reads this
    {
      command % 2 == 1 && command / 4 % 4 == 1
    }

    predicate RxIrqEnabled()
      reads this
    {
      command % 2 == 1 && command / 2 % 2 == 0
    }

    method ReadData() returns (v: byte)
      modifies this`rdrf, this`overrun
      ensures Now() == AfterRead(old(Now()), 0) && v == rxData
    {
      rdrf, overrun := false, false;
      v := rxData;
    }

    method ReadStatus() returns (v: byte)
      modifies this`irqFlag
      ensures Now() == AfterRead(old(Now()), 1) && v == ReadValue(old(Now()), 1)
    {
      v := Status(irqFlag, tdre, rdrf, overrun);
      irqFlag := false;
    }

    method ReadRegister(offset: nat) returns (v: byte)
      modifies this`rdrf, this`overrun, this`irqFlag
      ensures Now() == After(old(Now()), Read(offset)) && v == ReadValue(old(Now()), offset)
    {
      if offset % 4 == 0 {
        v := ReadData();
      } else if offset % 4 == 1 {
        v := ReadStatus();
      } else if offset % 4 == 2 {
        v := command;
      } else {
        v := control;
      }
    }

    method WriteData(value: byte, charTime: nat)
      modifies this`txShift, this`txActive, this`txRemaining, this`tdre
      ensures Now() == AfterWrite(old(Now()), 0, value, charTime)
    {
      txShift := value;
      txActive := true;
      txRemaining := charTime;
      tdre := false;
    }

    method WriteCommand(value: byte)
      modifies this`command, this`irqFlag
      ensures Now() == AfterWrite(old(Now()), 2, value, 0)
    {
      command := value;
      if tdre && TxIrqEnabled() {
        irqFlag := true;
      }
      if rdrf && RxIrqEnabled() {
        irqFlag := true;
      }
    }

    method WriteRegister(offset: nat, value: byte, charTime: nat)
      modifies this
      ensures Now() == After(old(Now()), Write(offset, value, charTime))
    {
      if offset % 4 == 0 {
        WriteData(value, charTime);
      } else if offset % 4 == 1 {
        command := command / 0x20 * 0x20;
        overrun := false;
      } else if offset % 4 == 2 {
        WriteCommand(value);
      } else {
        control := value;
      }
    }

    method ClearRegisters()
      modifies this`command, this`control, this`irqFlag, this`overrun, this`tdre, this`rdrf, this`rxData
      ensures command == 0 && control == 0 && !irqFlag && !overrun && tdre && !rdrf && rxData == 0
    {
      command, control, irqFlag, overrun, tdre, rdrf, rxData := 0, 0, false, false, true, false, 0;
    }

    method ClearQueues()
      modifies this`txActive, this`txRemaining, this`rxActive, this`rxRemaining, this`rxPending, this`txQueue
      ensures !txActive && txRemaining == 0 && !rxActive && rxRemaining == 0 && rxPending == [] && txQueue == []
    {
      txActive, txRemaining, rxActive, rxRemaining, rxPending, txQueue := false, 0, false, 0, [], [];
    }

    method ChipReset()
      modifies this
      ensures Now() == AfterReset(old(Now()))
    {
      ClearRegisters();
      ClearQueues();
    }

    method TickTransmitter(cycles: nat)
      modifies this`txRemaining, this`txActive, this`tdre, this`txQueue, this`irqFlag
      ensures Now() == TxTick(old(Now()), cycles)
    {
      if txActive {
        txRemaining := txRemaining - cycles;
        if txRemaining <= 0 {
          txActive := false;
          tdre := true;
          txQueue := txQueue + [txShift];
          if TxIrqEnabled() {
            irqFlag := true;
          }
        }
      }
    }

    method StartReceiver(charTime: nat)
      modifies this`rxActive, this`rxShift, this`rxPending, this`rxRemaining
      ensures Now() == RxStart(old(Now()), charTime)
    {
      if !rxActive && rxPending != [] && command % 2 == 1 {
        rxActive := true;
        rxShift := rxPending[0];
        rxPending := rxPending[1..];
        rxRemaining := charTime;
      }
    }

    method TickReceiver(cycles: nat)
      modifies this`rxRemaining, this`rxActive, this`overrun, this`rxData, this`rdrf, this`irqFlag
      ensures Now() == RxTick(old(Now()), cycles)
    {
      if rxActive {
        rxRemaining := rxRemaining - cycles;
        if rxRemaining <= 0 {
          rxActive := false;
          if rdrf {
            overrun := true;
          } else {
            rxData := rxShift;
            rdrf := true;
            if RxIrqEnabled() {
              irqFlag := true;
            }
          }
        }
      }
    }

    method AdvanceTime(cycles: nat, charTime: nat)
      modifies this
      ensures Now() == AfterTick(old(Now()), cycles, charTime)
    {
      TickTransmitter(cycles);
      StartReceiver(charTime);
      TickReceiver(cycles);
    }

    method RxEnqueue(b: byte) returns (accepted: bool)
      modifies this
      ensures Now() == After(old(Now()), Enqueue(b)) && accepted == Accepts(old(Now()))
    {
      if |rxPending| >= PENDING_MAX {
        return false;
      }
      rxPending := rxPending + [b];
      accepted := true;
    }

    method TxDequeue() returns (out: Bytes)
      modifies this
      ensures Now() == After(old(Now()), Dequeue) && out == Dequeued(old(Now()), Dequeue)
    {
      if txQueue == [] {
        return [];
      }
      out, txQueue := [txQueue[0]], txQueue[1..];
    }
  }

  // ---- what becomes of the bytes, one operation at a time ----

  /** The byte the host has accepted, if this operation is one. */
  function Accepted(u: State, op: Op): Bytes { if op.Enqueue? && Accepts(u) then [op.b] else [] }

  /** The byte that has come in full. */
  function Completed(u: State, op: Op): Bytes {
    if op.Tick? && RxCompletes(RxStart(u, op.charTime), op.cycles) then [RxStart(u, op.charTime).rxShift] else []
  }

  /** The byte that was given to the program, and the one dropped because the last was unread. */
  function Delivered(u: State, op: Op): Bytes { if u.rdrf then [] else Completed(u, op) }
  function Dropped(u: State, op: Op): Bytes { if u.rdrf then Completed(u, op) else [] }

  /** The byte the program takes: it reads Data while RDRF is set. */
  function Taken(u: State, op: Op): Bytes { if op.Read? && op.offset % 4 == 0 && u.rdrf then [u.rxData] else [] }

  /** The byte the program gives to be sent, the byte that has gone out, and the one the host takes. */
  function Written(u: State, op: Op): Bytes { if op.Write? && op.offset % 4 == 0 then [op.value] else [] }
  function Transmitted(u: State, op: Op): Bytes { if op.Tick? && TxCompletes(u, op.cycles) then [u.txShift] else [] }
  function Dequeued(u: State, op: Op): Bytes { if op.Dequeue? && u.txQueue != [] then [u.txQueue[0]] else [] }

  /** A Data write while TDRE is clear. */
  predicate Overwrites(u: State, op: Op) { op.Write? && op.offset % 4 == 0 && !u.tdre }

  /** On the receiver's way, not yet come in full; and with the program, not yet taken. */
  function Incoming(u: State): Bytes { (if u.rxActive then [u.rxShift] else []) + u.rxPending }
  function Unread(u: State): Bytes { if u.rdrf then [u.rxData] else [] }
  function Outgoing(u: State): Bytes { if u.txActive then [u.txShift] else [] }

  lemma ReceiverTick(u: State, cycles: nat)
    ensures var n := RxTick(u, cycles);
            && Incoming(u) == (if RxCompletes(u, cycles) then [u.rxShift] else []) + Incoming(n)
            && Unread(n) == (if RxCompletes(u, cycles) && !u.rdrf then [u.rxShift] else Unread(u))
  {
  }

  lemma ReceiverStart(u: State, charTime: nat)
    ensures Incoming(RxStart(u, charTime)) == Incoming(u) && Unread(RxStart(u, charTime)) == Unread(u)
    ensures RxStart(u, charTime).rdrf == u.rdrf
  {
  }

  /** The transmitter's part of a tick leaves the receiver alone. */
  lemma TransmitterApart(u: State, cycles: nat, charTime: nat)
    ensures var s, t := RxStart(u, charTime), RxStart(TxTick(u, cycles), charTime);
            && Incoming(s) == Incoming(t) && RxCompletes(s, cycles) == RxCompletes(t, cycles)
            && s.rxShift == t.rxShift && s.rdrf == t.rdrf && Unread(s) == Unread(t)
  {
  }

  lemma TickSteps(u: State, cycles: nat, charTime: nat)
    ensures var op := Tick(cycles, charTime);
            && Incoming(u) == Completed(u, op) + Incoming(After(u, op))
            && Unread(After(u, op)) == (if u.rdrf then Unread(u) else Completed(u, op))
  {
    TransmitterApart(u, cycles, charTime);
    ReceiverStart(u, charTime);
    ReceiverTick(RxStart(TxTick(u, cycles), charTime), cycles);
  }

  lemma ReceiverStep(u: State, op: Op)
    requires !op.Reset?
    ensures Incoming(u) + Accepted(u, op) == Completed(u, op) + Incoming(After(u, op))
  {
    if op.Tick? {
      TickSteps(u, op.cycles, op.charTime);
    }
  }

  lemma ProgramStep(u: State, op: Op)
    requires !op.Reset?
    ensures Unread(u) + Delivered(u, op) == Taken(u, op) + Unread(After(u, op))
  {
    if op.Tick? {
      TickSteps(u, op.cycles, op.charTime);
    }
  }

  /** A byte that has come is dropped only if the last was unread, and then OVERRUN is set and the last
      is still there; else it can be read. */
  lemma DroppedOnlyWhenUnread(u: State, op: Op)
    ensures Completed(u, op) == Delivered(u, op) + Dropped(u, op)
    ensures Dropped(u, op) != [] ==>
              u.rdrf && After(u, op).overrun && After(u, op).rdrf && After(u, op).rxData == u.rxData
    ensures Delivered(u, op) != [] ==> !u.rdrf && After(u, op).rdrf && Delivered(u, op) == [After(u, op).rxData]
  {
  }

  /** OVERRUN is cleared by reading Data, by the programmed reset and by a reset, and by nothing else. */
  lemma OverrunStays(u: State, op: Op)
    requires u.overrun && !After(u, op).overrun
    ensures op.Reset? || (op.Read? && op.offset % 4 == 0) || (op.Write? && op.offset % 4 == 1)
  {
    if op.Tick? { TickKeepsOverrun(u, op.cycles, op.charTime); }
  }

  lemma TickKeepsOverrun(u: State, cycles: nat, charTime: nat)
    ensures u.overrun ==> AfterTick(u, cycles, charTime).overrun
  {
  }

  /** TDRE says that no byte is going out. */
  predicate Sound(u: State) { u.tdre == !u.txActive }

  lemma TransmitterTick(u: State, cycles: nat, charTime: nat)
    ensures var n := AfterTick(u, cycles, charTime);
            && n.tdre == (u.tdre || TxCompletes(u, cycles)) && n.txActive == (u.txActive && !TxCompletes(u, cycles))
            && n.txShift == u.txShift
  {
    var n := TxTick(u, cycles);
    var started := RxStart(n, charTime);
    assert started.tdre == n.tdre && started.txActive == n.txActive && started.txShift == n.txShift;
  }

  /** What the transmitter holds and is given is what it sends and holds then, but for a byte written over. */
  predicate SendsOn(u: State, op: Op) {
    && Sound(After(u, op))
    && (!Overwrites(u, op) ==> Outgoing(u) + Written(u, op) == Transmitted(u, op) + Outgoing(After(u, op)))
    && |Outgoing(u)| + |Written(u, op)|
       == |Transmitted(u, op)| + |Outgoing(After(u, op))| + if Overwrites(u, op) then 1 else 0
  }

  lemma SendsOnTick(u: State, cycles: nat, charTime: nat)
    requires Sound(u)
    ensures SendsOn(u, Tick(cycles, charTime))
  {
    TransmitterTick(u, cycles, charTime);
  }

  lemma SendsOnWrite(u: State, offset: nat, value: byte, charTime: nat)
    requires Sound(u)
    ensures SendsOn(u, Write(offset, value, charTime))
  {
    if offset % 4 != 0 {
      var n := AfterWrite(u, offset, value, charTime);
      assert n.txActive == u.txActive && n.txShift == u.txShift && n.tdre == u.tdre;
    }
  }

  lemma TransmitterStep(u: State, op: Op)
    requires Sound(u) && !op.Reset?
    ensures SendsOn(u, op)
  {
    match op
    case Tick(cycles, charTime) => SendsOnTick(u, cycles, charTime);
    case Write(offset, value, charTime) => SendsOnWrite(u, offset, value, charTime);
    case Read(_) =>
    case Enqueue(_) =>
    case Dequeue =>
  }

  lemma HostTick(u: State, cycles: nat, charTime: nat)
    ensures AfterTick(u, cycles, charTime).txQueue == u.txQueue + Transmitted(u, Tick(cycles, charTime))
  {
    var n := TxTick(u, cycles);
    assert n.txQueue == u.txQueue + Transmitted(u, Tick(cycles, charTime));
    assert RxTick(RxStart(n, charTime), cycles).txQueue == n.txQueue;
  }

  lemma HostStep(u: State, op: Op)
    requires !op.Reset?
    ensures u.txQueue + Transmitted(u, op) == Dequeued(u, op) + After(u, op).txQueue
  {
    if op.Tick? {
      HostTick(u, op.cycles, op.charTime);
    } else if op.Dequeue? && u.txQueue != [] {
      assert u.txQueue == [u.txQueue[0]] + u.txQueue[1..];
    }
  }

  lemma IrqFalls(u: State, op: Op)
    requires u.irqFlag && !After(u, op).irqFlag
    ensures op.Reset? || (op.Read? && op.offset % 4 == 1)
  {
  }

  /** Command asks for an interrupt when the transmitter is empty, or when a byte has come. */
  predicate AsksTx(command: byte) { command % 0x10 == 5 || command % 0x10 == 7 }
  predicate AsksRx(command: byte) { command % 4 == 1 }

  lemma AskingBits(command: byte)
    ensures AsksTx(command) == (command % 2 == 1 && command / 4 % 4 == 1)
    ensures AsksRx(command) == (command % 2 == 1 && command / 2 % 2 == 0)
  {
    var top, low := command / 0x10, command % 0x10;
    DivUnique(command, 4, 4 * top + low / 4, low % 4);
    DivUnique(command, 2, 8 * top + low / 2, low % 2);
  }

  lemma WriteRaises(u: State, offset: nat, value: byte, charTime: nat)
    requires !u.irqFlag
    ensures AfterWrite(u, offset, value, charTime).irqFlag
         == (offset % 4 == 2 && ((u.tdre && AsksTx(value)) || (u.rdrf && AsksRx(value))))
  {
    AskingBits(value);
  }

  lemma TickRaises(u: State, cycles: nat, charTime: nat)
    requires !u.irqFlag
    ensures var op := Tick(cycles, charTime);
            AfterTick(u, cycles, charTime).irqFlag
              == ((Transmitted(u, op) != [] && AsksTx(u.command)) || (Delivered(u, op) != [] && AsksRx(u.command)))
  {
    AskingBits(u.command);
    TransmitterApart(u, cycles, charTime);
    var t := TxTick(u, cycles);
    assert RxStart(t, charTime).irqFlag == t.irqFlag && RxStart(t, charTime).command == u.command;
  }

  /** The latch is set by a byte gone out and by a byte that can be read now, if Command asks for that
      interrupt, and by a write to Command that asks for either when its reason is there already; by nothing
      else. */
  lemma IrqRises(u: State, op: Op)
    requires !u.irqFlag
    ensures After(u, op).irqFlag <==>
              || (op.Tick? && Transmitted(u, op) != [] && AsksTx(u.command))
              || (op.Tick? && Delivered(u, op) != [] && AsksRx(u.command))
              || (op.Write? && op.offset % 4 == 2 && u.tdre && AsksTx(op.value))
              || (op.Write? && op.offset % 4 == 2 && u.rdrf && AsksRx(op.value))
  {
    match op
    case Tick(cycles, charTime) => TickRaises(u, cycles, charTime);
    case Write(offset, value, charTime) => WriteRaises(u, offset, value, charTime);
    case _ =>
  }

  /** Status has IRQ in bit 7, TDRE in 4, RDRF in 3 and OVERRUN in 2, and no other bit. */
  lemma StatusBits(u: State)
    ensures var v := ReadValue(u, 1);
            && (v >= 0x80) == u.irqFlag && (v / 0x10 % 2 == 1) == u.tdre && (v / 8 % 2 == 1) == u.rdrf
            && (v / 4 % 2 == 1) == u.overrun && v % 4 == 0 && v / 0x20 % 4 == 0
  {
  }

  /** Command and Control read as they were written; the programmed reset clears bits 4 to 0 of Command,
      which turns the receiver off and asks for no interrupt. */
  lemma RegistersReadBack(u: State, value: byte, charTime: nat)
    ensures ReadValue(After(u, Write(2, value, charTime)), 2) == value
    ensures ReadValue(After(u, Write(3, value, charTime)), 3) == value
    ensures var n := After(u, Write(1, value, charTime));
            && ReadValue(n, 2) % 0x20 == 0 && ReadValue(n, 2) / 0x20 == u.command / 0x20
            && !n.overrun && n.irqFlag == u.irqFlag && n.control == u.control
            && !AsksTx(n.command) && !AsksRx(n.command) && RxStart(n, charTime) == n
  {
    var top := u.command / 0x20;
    DivUnique(top * 0x20, 0x20, top, 0);
    DivUnique(top * 0x20, 0x10, 2 * top, 0);
    DivUnique(top * 0x20, 4, 8 * top, 0);
    DivUnique(top * 0x20, 2, 0x10 * top, 0);
  }

  /** The queue of bytes from the host holds 65536; one more is refused and changes nothing. */
  lemma QueueFull(u: State, b: byte)
    ensures After(u, Enqueue(b)) == if |u.rxPending| < 65536 then u.(rxPending := u.rxPending + [b]) else u
  {
  }

  /** After a reset the registers read 0 but for TDRE, nothing is under way or waits, and nothing starts. */
  lemma ResetReads(u: State, charTime: nat)
    ensures var n := After(u, Reset);
            && ReadValue(n, 0) == 0 && ReadValue(n, 1) == 0x10 && ReadValue(n, 2) == 0 && ReadValue(n, 3) == 0
            && Incoming(n) == [] && Outgoing(n) == [] && n.txQueue == [] && RxStart(n, charTime) == n
  {
  }

  // ---- over whole runs ----

  function Run(u: State, ops: seq<Op>): State
    decreases |ops|
  {
    if ops == [] then u else Run(After(u, ops[0]), ops[1..])
  }

  /** The bytes some account of each operation gives, over a run. */
  function All(account: (State, Op) -> Bytes, u: State, ops: seq<Op>): Bytes
    decreases |ops|
  {
    if ops == [] then [] else account(u, ops[0]) + All(account, After(u, ops[0]), ops[1..])
  }

  predicate NoReset(ops: seq<Op>) { forall i :: 0 <= i < |ops| ==> !ops[i].Reset? }

  lemma Chain(held: Bytes, inn: Bytes, out: Bytes, next: Bytes, laterIn: Bytes, laterOut: Bytes, last: Bytes)
    requires held + inn == out + next && next + laterIn == laterOut + last
    ensures held + (inn + laterIn) == (out + laterOut) + last
  {
    assert held + (inn + laterIn) == (held + inn) + laterIn;
    assert (out + next) + laterIn == out + (next + laterIn);
    assert out + (laterOut + last) == (out + laterOut) + last;
  }

  /** Every byte accepted from the host has come in full, is coming in or waits, in that order. */
  lemma {:induction false} ReceivedInOrder(u: State, ops: seq<Op>)
    requires NoReset(ops)
    ensures Incoming(u) + All(Accepted, u, ops) == All(Completed, u, ops) + Incoming(Run(u, ops))
    decreases |ops|
  {
    if ops != [] {
      var n := After(u, ops[0]);
      ReceiverStep(u, ops[0]);
      ReceivedInOrder(n, ops[1..]);
      Chain(Incoming(u), Accepted(u, ops[0]), Completed(u, ops[0]), Incoming(n), All(Accepted, n, ops[1..]),
            All(Completed, n, ops[1..]), Incoming(Run(u, ops)));
    } else {
      assert Incoming(u) + [] == [] + Incoming(u);
    }
  }

  /** Every byte that was not dropped has been taken by the program or is there to be read. */
  lemma {:induction false} TakenInOrder(u: State, ops: seq<Op>)
    requires NoReset(ops)
    ensures Unread(u) + All(Delivered, u, ops) == All(Taken, u, ops) + Unread(Run(u, ops))
    decreases |ops|
  {
    if ops != [] {
      var n := After(u, ops[0]);
      ProgramStep(u, ops[0]);
      TakenInOrder(n, ops[1..]);
      Chain(Unread(u), Delivered(u, ops[0]), Taken(u, ops[0]), Unread(n), All(Delivered, n, ops[1..]),
            All(Taken, n, ops[1..]), Unread(Run(u, ops)));
    } else {
      assert Unread(u) + [] == [] + Unread(u);
    }
  }

  /** Every byte that has gone out has been taken by the host or is in its queue. */
  lemma {:induction false} HostInOrder(u: State, ops: seq<Op>)
    requires NoReset(ops)
    ensures u.txQueue + All(Transmitted, u, ops) == All(Dequeued, u, ops) + Run(u, ops).txQueue
    decreases |ops|
  {
    if ops != [] {
      var n := After(u, ops[0]);
      HostStep(u, ops[0]);
      HostInOrder(n, ops[1..]);
      Chain(u.txQueue, Transmitted(u, ops[0]), Dequeued(u, ops[0]), n.txQueue, All(Transmitted, n, ops[1..]),
            All(Dequeued, n, ops[1..]), Run(u, ops).txQueue);
    } else {
      assert u.txQueue + [] == [] + u.txQueue;
    }
  }

  /** How many Data writes are made while TDRE is clear. */
  function Overwritten(u: State, ops: seq<Op>): nat
    decreases |ops|
  {
    if ops == [] then 0 else (if Overwrites(u, ops[0]) then 1 else 0) + Overwritten(After(u, ops[0]), ops[1..])
  }

  lemma {:induction false} SentCount(u: State, ops: seq<Op>)
    requires Sound(u) && NoReset(ops)
    ensures |Outgoing(u)| + |All(Written, u, ops)|
         == |All(Transmitted, u, ops)| + |Outgoing(Run(u, ops))| + Overwritten(u, ops)
    decreases |ops|
  {
    if ops != [] {
      TransmitterStep(u, ops[0]);
      SentCount(After(u, ops[0]), ops[1..]);
    }
  }

  lemma {:induction false} SentInOrder(u: State, ops: seq<Op>)
    requires Sound(u) && NoReset(ops) && Overwritten(u, ops) == 0
    ensures Outgoing(u) + All(Written, u, ops) == All(Transmitted, u, ops) + Outgoing(Run(u, ops))
    decreases |ops|
  {
    if ops != [] {
      var n := After(u, ops[0]);
      TransmitterStep(u, ops[0]);
      SentInOrder(n, ops[1..]);
      Chain(Outgoing(u), Written(u, ops[0]), Transmitted(u, ops[0]), Outgoing(n), All(Written, n, ops[1..]),
            All(Transmitted, n, ops[1..]), Outgoing(Run(u, ops)));
    } else {
      assert Outgoing(u) + [] == [] + Outgoing(u);
    }
  }

  /** The bytes that go out are those written, in order, less the one going out, exactly when Data is
      written only while TDRE is set. */
  lemma SentExactly(u: State, ops: seq<Op>)
    requires Sound(u) && NoReset(ops)
    ensures Outgoing(u) + All(Written, u, ops) == All(Transmitted, u, ops) + Outgoing(Run(u, ops))
       <==> Overwritten(u, ops) == 0
  {
    SentCount(u, ops);
    if Overwritten(u, ops) == 0 {
      SentInOrder(u, ops);
    }
  }

  /** The interrupt latch, once set, stays set through any run without a Status read or a reset. */
  lemma {:induction false} IrqStays(u: State, ops: seq<Op>)
    requires u.irqFlag && NoReset(ops)
    requires forall i :: 0 <= i < |ops| ==> !(ops[i].Read? && ops[i].offset % 4 == 1)
    ensures Run(u, ops).irqFlag
    decreases |ops|
  {
    if ops != [] {
      if !After(u, ops[0]).irqFlag {
        IrqFalls(u, ops[0]);
      }
      IrqStays(After(u, ops[0]), ops[1..]);
    }
  }

  /** The cycles of some ticks. */
  function Cycles(ticks: seq<nat>): nat { if ticks == [] then 0 else ticks[0] + Cycles(ticks[1..]) }

  function Ticks(ticks: seq<nat>, charTime: nat): seq<Op> {
    seq(|ticks|, i requires 0 <= i < |ticks| => Tick(ticks[i], charTime))
  }

  /** A byte being sent or coming in takes its time, whatever ticks that comes in: it is under way until so
      many cycles have gone by, and done by then. */
  lemma {:induction false} TakesItsTime(u: State, ticks: seq<nat>, charTime: nat)
    ensures u.txActive && Cycles(ticks) < u.txRemaining ==>
              var n := Run(u, Ticks(ticks, charTime));
              n.txActive && n.txRemaining == u.txRemaining - Cycles(ticks) && n.txQueue == u.txQueue
    ensures u.rxActive && Cycles(ticks) < u.rxRemaining ==>
              var n := Run(u, Ticks(ticks, charTime));
              n.rxActive && n.rxRemaining == u.rxRemaining - Cycles(ticks) && n.rxShift == u.rxShift && n.rdrf == u.rdrf
    decreases |ticks|
  {
    if ticks != [] {
      assert Ticks(ticks, charTime)[1..] == Ticks(ticks[1..], charTime);
      TickCounts(u, ticks[0], charTime);
      TakesItsTime(AfterTick(u, ticks[0], charTime), ticks[1..], charTime);
    }
  }

  lemma TickCounts(u: State, cycles: nat, charTime: nat)
    ensures u.txActive && cycles < u.txRemaining ==>
              var n := AfterTick(u, cycles, charTime);
              n.txActive && n.txRemaining == u.txRemaining - cycles && n.txQueue == u.txQueue
    ensures u.rxActive && cycles < u.rxRemaining ==>
              var n := AfterTick(u, cycles, charTime);
              n.rxActive && n.rxRemaining == u.rxRemaining - cycles && n.rxShift == u.rxShift && n.rdrf == u.rdrf
  {
  }

  /** A byte written to Data goes out in the tick in which its time is up. */
  lemma SentInTime(u: State, value: byte, charTime: nat, ticks: seq<nat>, last: nat)
    requires Cycles(ticks) < charTime <= Cycles(ticks) + last
    ensures var sending := Run(After(u, Write(0, value, charTime)), Ticks(ticks, charTime));
            && Transmitted(sending, Tick(last, charTime)) == [value]
            && After(sending, Tick(last, charTime)).txQueue == u.txQueue + [value]
            && After(sending, Tick(last, charTime)).tdre
  {
    var begun := After(u, Write(0, value, charTime));
    TakesItsTime(begun, ticks, charTime);
    ShiftStays(begun, ticks, charTime);
    var sending := Run(begun, Ticks(ticks, charTime));
    HostTick(sending, last, charTime);
    TransmitterTick(sending, last, charTime);
  }

  lemma {:induction false} ShiftStays(u: State, ticks: seq<nat>, charTime: nat)
    ensures Run(u, Ticks(ticks, charTime)).txShift == u.txShift
    decreases |ticks|
  {
    if ticks != [] {
      assert Ticks(ticks, charTime)[1..] == Ticks(ticks[1..], charTime);
      TransmitterTick(u, ticks[0], charTime);
      ShiftStays(AfterTick(u, ticks[0], charTime), ticks[1..], charTime);
    }
  }

  /** A byte that waits comes in, if the receiver is on, in the tick in which its time is up, counted from
      the tick in which it begins. */
  lemma ReceivedInTime(u: State, charTime: nat, ticks: seq<nat>, last: nat)
    requires !u.rxActive && u.command % 2 == 1 && u.rxPending != []
    requires Cycles(ticks) < charTime <= Cycles(ticks) + last
    ensures var coming := Run(u, Ticks(ticks, charTime));
            Completed(coming, Tick(last, charTime)) == [u.rxPending[0]] && coming.rdrf == u.rdrf
  {
    if ticks != [] {
      assert Ticks(ticks, charTime)[1..] == Ticks(ticks[1..], charTime);
      BeginsToCome(u, charTime, ticks[0]);
      TakesItsTime(AfterTick(u, ticks[0], charTime), ticks[1..], charTime);
    }
  }

  lemma BeginsToCome(u: State, charTime: nat, cycles: nat)
    requires !u.rxActive && u.command % 2 == 1 && u.rxPending != [] && cycles < charTime
    ensures var n := AfterTick(u, cycles, charTime);
            n.rxActive && n.rxRemaining == charTime - cycles && n.rxShift == u.rxPending[0] && n.rdrf == u.rdrf
  {
    var t := TxTick(u, cycles);
    assert t.command == u.command && t.rxPending == u.rxPending && t.rxActive == u.rxActive && t.rdrf == u.rdrf;
  }

  /** All of it from reset: nothing is held then. */
  lemma SinceReset(before: State, ops: seq<Op>)
    requires NoReset(ops)
    ensures var u := AfterReset(before);
            var end := Run(u, ops);
            && Sound(u)
            && All(Accepted, u, ops) == All(Completed, u, ops) + Incoming(end)
            && All(Delivered, u, ops) == All(Taken, u, ops) + Unread(end)
            && All(Transmitted, u, ops) == All(Dequeued, u, ops) + end.txQueue
            && (Overwritten(u, ops) == 0 ==> All(Written, u, ops) == All(Transmitted, u, ops) + Outgoing(end))
  {
    var u := AfterReset(before);
    ReceivedInOrder(u, ops);
    TakenInOrder(u, ops);
    HostInOrder(u, ops);
    SentExactly(u, ops);
    assert Incoming(u) == [] && [] + All(Accepted, u, ops) == All(Accepted, u, ops);
    assert [] + All(Delivered, u, ops) == All(Delivered, u, ops);
    assert [] + All(Transmitted, u, ops) == All(Transmitted, u, ops);
    assert [] + All(Written, u, ops) == All(Written, u, ops);
  }
}
