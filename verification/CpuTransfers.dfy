/** What TFM copies: which byte of memory ends where, in each of its four forms, and what is in the
    registers then. */
module CpuTransfers {
  import opened Words
  import opened CpuState
  import opened CpuInterrupts
  import opened CpuRuns
  import opened CpuTfm
  import opened CpuCopies

  /** The five pointers by number: D, X, Y, U and S. */
  function Pointer(r: Regs, code: nat): int
    requires code <= 4
  {
    match code
    case 0 => 0x100 * r.a as int + r.b
    case 1 => r.x
    case 2 => r.y
    case 3 => r.u
    case 4 => r.s
  }

  /** Which byte of the source is the i-th that is read, the target being so far ahead of it: a copy that
      runs into what it has written repeats that, so that one byte ahead fills. */
  function Source(ahead: nat, i: nat): nat { if ahead == 0 then i else i % ahead }

  /** The address so many bytes above or below another, around the end of memory. */
  function Up(p: int, i: int): u16 { (p + i) % 0x1_0000 }
  function Down(p: int, i: int): u16 { (p - i) % 0x1_0000 }

  /** The first k bytes copied, in memory: both pointers moving up, both moving down, the source alone
      moving up, and the target alone. All other bytes are as they were. */
  ghost predicate Transferred(opcode: byte, m: Ram, now: Ram, s: u16, d: u16, k: nat) {
    match opcode
    case 0x38 =>
      && (forall i :: 0 <= i < k ==> now[Up(d, i)] == m[Up(s, Source(Down(d, s), i))])
      && (forall a: u16 :: Down(a, d) >= k ==> now[a] == m[a])
    case 0x39 =>
      && (forall i :: 0 <= i < k ==> now[Down(d, i)] == m[Down(s, Source(Down(s, d), i))])
      && (forall a: u16 :: Down(d, a) >= k ==> now[a] == m[a])
    case 0x3A =>
      && (k > 0 ==> now[d] == m[if k > 1 && Up(s, k - 1) == d then Up(s, k - 2) else Up(s, k - 1)])
      && (forall a: u16 :: a != d || k == 0 ==> now[a] == m[a])
    case _ =>
      && (forall i :: 0 <= i < k ==> now[Up(d, i)] == m[s])
      && (forall a: u16 :: Down(a, d) >= k ==> now[a] == m[a])
  }

  // ---- copying with both pointers moving ----

  /** The address of the i-th byte from a pointer that moves one up or one down. */
  lemma MovedBy(p: u16, step: int, i: nat)
    requires step == 1 || step == -1
    ensures Moved(p, step, i) == if step == 1 then (p + i) % 0x1_0000 else (p - i) % 0x1_0000
  {
  }

  function Ahead(sp: u16, dp: u16, step: int): nat { if step == 1 then (dp - sp) % 0x1_0000 else (sp - dp) % 0x1_0000 }

  lemma TargetsDiffer(dp: u16, step: int, i: nat, j: nat)
    requires (step == 1 || step == -1) && i < j < 0x1_0000
    ensures Moved(dp, step, i) != Moved(dp, step, j)
  {
  }

  /** The i-th byte read is one written before exactly if the target is ahead by i at the most. */
  lemma ReadsWritten(sp: u16, dp: u16, step: int, i: nat)
    requires (step == 1 || step == -1) && i < 0x1_0000 && 0 < Ahead(sp, dp, step) <= i
    ensures Moved(sp, step, i) == Moved(dp, step, i - Ahead(sp, dp, step))
  {
  }

  lemma ReadsFresh(sp: u16, dp: u16, step: int, i: nat, j: nat)
    requires (step == 1 || step == -1) && j < i < 0x1_0000
    requires Ahead(sp, dp, step) == 0 || i < Ahead(sp, dp, step)
    ensures Moved(dp, step, j) != Moved(sp, step, i)
  {
    if step == 1 {
      UpDiffers(sp, dp, i, j);
    } else {
      DownDiffers(sp, dp, i, j);
    }
  }

  lemma UpDiffers(s: u16, d: u16, i: nat, j: nat)
    requires j < i < 0x1_0000 && ((d - s) % 0x1_0000 == 0 || i < (d - s) % 0x1_0000)
    ensures Up(d, j) != Up(s, i)
  {
  }

  lemma DownDiffers(s: u16, d: u16, i: nat, j: nat)
    requires j < i < 0x1_0000 && ((s - d) % 0x1_0000 == 0 || i < (s - d) % 0x1_0000)
    ensures Down(d, j) != Down(s, i)
  {
  }

  lemma SourceBack(ahead: nat, i: nat)
    requires 0 < ahead <= i
    ensures Source(ahead, i - ahead) == Source(ahead, i)
  {
    DivMod(i - ahead, ahead);
    MulDist((i - ahead) / ahead, 1, ahead);
    DivUnique(i, ahead, (i - ahead) / ahead + 1, (i - ahead) % ahead);
  }

  lemma SourceSame(ahead: nat, i: nat)
    requires ahead == 0 || i < ahead
    ensures Source(ahead, i) == i
  {
  }

  lemma {:induction false} BothMove(m: Ram, sp: u16, dp: u16, step: int, k: nat, i: nat)
    requires (step == 1 || step == -1) && i < k < 0x1_0000
    ensures Copied(m, sp, step, dp, step, k)[Moved(dp, step, i)] == m[Moved(sp, step, Source(Ahead(sp, dp, step), i))]
    decreases k
  {
    var ahead := Ahead(sp, dp, step);
    if i < k - 1 {
      TargetsDiffer(dp, step, i, k - 1);
      BothMove(m, sp, dp, step, k - 1, i);
    } else if 0 < ahead <= i {
      ReadsWritten(sp, dp, step, i);
      BothMove(m, sp, dp, step, i, i - ahead);
      SourceBack(ahead, i);
    } else {
      forall j | 0 <= j < i
        ensures Moved(dp, step, j) != Moved(sp, step, i)
      {
        ReadsFresh(sp, dp, step, i, j);
      }
      CopiedElsewhere(m, sp, step, dp, step, i, Moved(sp, step, i));
      SourceSame(ahead, i);
    }
  }

  // ---- copying with one pointer moving ----

  lemma UpApart(p: u16, i: nat, j: nat)
    requires i < j < 0x1_0000
    ensures Up(p, i) != Up(p, j)
  {
  }

  /** What is stored again and again in one place is the byte read last. */
  lemma {:induction false} SourceMoves(m: Ram, sp: u16, dp: u16, k: nat)
    requires 0 < k < 0x1_0000
    ensures Copied(m, sp, 1, dp, 0, k)[dp]
         == m[if k > 1 && Up(sp, k - 1) == dp then Up(sp, k - 2) else Up(sp, k - 1)]
  {
    var before := Copied(m, sp, 1, dp, 0, k - 1);
    assert Moved(dp, 0, k - 1) == dp && Moved(sp, 1, k - 1) == Up(sp, k - 1);
    if Up(sp, k - 1) != dp {
      CopiedElsewhere(m, sp, 1, dp, 0, k - 1, Up(sp, k - 1));
    } else if k > 1 {
      UpApart(sp, k - 2, k - 1);
      SourceMoves(m, sp, dp, k - 1);
      if k > 2 {
        UpApart(sp, k - 2, k - 1);
      }
    }
  }

  lemma NotMoved(p: u16, k: nat)
    ensures Moved(p, 0, k) == p && Moved(p, 1, k) == Up(p, k)
  {
  }

  /** One byte stored all along the target: it stays what it is, even if the target takes it in. */
  lemma {:induction false} SourceStays(m: Ram, sp: u16, dp: u16, k: nat)
    ensures Copied(m, sp, 0, dp, 1, k)[sp] == m[sp]
  {
    if k > 0 {
      SourceStays(m, sp, dp, k - 1);
      NotMoved(sp, k - 1);
    }
  }

  lemma {:induction false} TargetMoves(m: Ram, sp: u16, dp: u16, k: nat, i: nat)
    requires i < k < 0x1_0000
    ensures Copied(m, sp, 0, dp, 1, k)[Up(dp, i)] == m[sp]
  {
    NotMoved(sp, k - 1);
    NotMoved(dp, k - 1);
    SourceStays(m, sp, dp, k - 1);
    if i < k - 1 {
      TargetMoves(m, sp, dp, k - 1, i);
    }
  }

  // ---- the four forms ----

  lemma CopiedBy(opcode: byte, m: Ram, s: u16, d: u16, k: nat)
    requires 0x38 <= opcode <= 0x3B && k < 0x1_0000
    ensures Transferred(opcode, m, Copied(m, s, SourceStep(opcode), d, TargetStep(opcode), k), s, d, k)
  {
    if opcode == 0x38 {
      CopiedUp(m, s, d, k);
    } else if opcode == 0x39 {
      CopiedDown(m, s, d, k);
    } else if opcode == 0x3A {
      CopiedToOne(m, s, d, k);
    } else {
      CopiedFromOne(m, s, d, k);
    }
  }

  lemma OffUp(d: u16, k: nat, a: u16, i: nat)
    requires i < k <= Down(a, d)
    ensures Moved(d, 1, i) != a
  {
  }

  lemma OffDown(d: u16, k: nat, a: u16, i: nat)
    requires i < k <= Down(d, a)
    ensures Moved(d, -1, i) != a
  {
  }

  /** What is not among the bytes aimed at stays. */
  lemma ElsewhereUp(m: Ram, s: u16, ss: int, d: u16, k: nat, a: u16)
    requires k <= Down(a, d)
    ensures Copied(m, s, ss, d, 1, k)[a] == m[a]
  {
    forall i | 0 <= i < k
      ensures Moved(d, 1, i) != a
    {
      OffUp(d, k, a, i);
    }
    CopiedElsewhere(m, s, ss, d, 1, k, a);
  }

  lemma ElsewhereDown(m: Ram, s: u16, ss: int, d: u16, k: nat, a: u16)
    requires k <= Down(d, a)
    ensures Copied(m, s, ss, d, -1, k)[a] == m[a]
  {
    forall i | 0 <= i < k
      ensures Moved(d, -1, i) != a
    {
      OffDown(d, k, a, i);
    }
    CopiedElsewhere(m, s, ss, d, -1, k, a);
  }

  lemma CopiedUp(m: Ram, s: u16, d: u16, k: nat)
    requires k < 0x1_0000
    ensures Transferred(0x38, m, Copied(m, s, 1, d, 1, k), s, d, k)
  {
    forall i | 0 <= i < k
      ensures Copied(m, s, 1, d, 1, k)[Up(d, i)] == m[Up(s, Source(Down(d, s), i))]
    {
      BothMove(m, s, d, 1, k, i);
      MovedBy(d, 1, i);
      MovedBy(s, 1, Source(Down(d, s), i));
    }
    forall a: u16 | Down(a, d) >= k
      ensures Copied(m, s, 1, d, 1, k)[a] == m[a]
    {
      ElsewhereUp(m, s, 1, d, k, a);
    }
  }

  lemma DownIs(p: u16, i: nat)
    ensures Moved(p, -1, i) == Down(p, i)
  {
  }

  lemma ByteDown(m: Ram, s: u16, d: u16, k: nat, i: nat)
    requires i < k < 0x1_0000
    ensures Copied(m, s, -1, d, -1, k)[Down(d, i)] == m[Down(s, Source(Down(s, d), i))]
  {
    BothMove(m, s, d, -1, k, i);
    DownIs(d, i);
    DownIs(s, Source(Down(s, d), i));
  }

  lemma CopiedDown(m: Ram, s: u16, d: u16, k: nat)
    requires k < 0x1_0000
    ensures Transferred(0x39, m, Copied(m, s, -1, d, -1, k), s, d, k)
  {
    forall i | 0 <= i < k
      ensures Copied(m, s, -1, d, -1, k)[Down(d, i)] == m[Down(s, Source(Down(s, d), i))]
    {
      ByteDown(m, s, d, k, i);
    }
    forall a: u16 | Down(d, a) >= k
      ensures Copied(m, s, -1, d, -1, k)[a] == m[a]
    {
      ElsewhereDown(m, s, -1, d, k, a);
    }
  }

  lemma CopiedToOne(m: Ram, s: u16, d: u16, k: nat)
    requires k < 0x1_0000
    ensures Transferred(0x3A, m, Copied(m, s, 1, d, 0, k), s, d, k)
  {
    if k > 0 {
      SourceMoves(m, s, d, k);
    }
    forall a: u16 | a != d || k == 0
      ensures Copied(m, s, 1, d, 0, k)[a] == m[a]
    {
      CopiedElsewhere(m, s, 1, d, 0, k, a);
    }
  }

  lemma CopiedFromOne(m: Ram, s: u16, d: u16, k: nat)
    requires k < 0x1_0000
    ensures Transferred(0x3B, m, Copied(m, s, 0, d, 1, k), s, d, k)
  {
    forall i | 0 <= i < k
      ensures Copied(m, s, 0, d, 1, k)[Up(d, i)] == m[s]
    {
      TargetMoves(m, s, d, k, i);
    }
    forall a: u16 | Down(a, d) >= k
      ensures Copied(m, s, 0, d, 1, k)[a] == m[a]
    {
      ElsewhereUp(m, s, 0, d, k, a);
    }
  }

  // ---- the instruction ----

  /** A pointer after k bytes: the source moves in three of the forms, the target in three. */
  function SourceAfter(opcode: byte, s: u16, k: nat): u16 {
    if opcode == 0x38 || opcode == 0x3A then Up(s, k) else if opcode == 0x39 then Down(s, k) else s
  }
  function TargetAfter(opcode: byte, d: u16, k: nat): u16 {
    if opcode == 0x38 || opcode == 0x3B then Up(d, k) else if opcode == 0x39 then Down(d, k) else d
  }

  /** The registers after k bytes of a copy by two pointers: these have moved, W counts what is left, and
      the others are as they were. */
  predicate Counted(opcode: byte, src: nat, dst: nat, r: Regs, now: Regs, k: nat)
    requires src <= 4 && dst <= 4
  {
    && Pointer(now, src) == SourceAfter(opcode, Pointer(r, src), k)
    && Pointer(now, dst) == TargetAfter(opcode, Pointer(r, dst), k)
    && 0x100 * now.e as int + now.f == 0x100 * r.e as int + r.f - k
    && (forall c :: 0 <= c <= 4 && c != src && c != dst ==> Pointer(now, c) == Pointer(r, c))
    && now.v == r.v && now.dp == r.dp && now.md == r.md && now.cc == r.cc
  }

  lemma PointerIs(r: Regs, code: nat)
    requires code <= 4
    ensures GetReg(r, code) == Pointer(r, code)
  {
  }

  lemma SetPointer(r: Regs, code: nat, v: u16)
    requires code <= 4
    ensures Pointer(SetReg(r, code, v), code) == v
    ensures forall c :: 0 <= c <= 4 && c != code ==> Pointer(SetReg(r, code, v), c) == Pointer(r, c)
    ensures var now := SetReg(r, code, v);
            now.e == r.e && now.f == r.f && now.v == r.v && now.dp == r.dp && now.md == r.md && now.cc == r.cc
  {
    DivMod(v, 0x100);
  }

  lemma AdvancedPointers(opcode: byte, r: Regs, src: nat, dst: nat, k: nat)
    requires 0x38 <= opcode <= 0x3B && src <= 4 && dst <= 4 && src != dst && k <= 0x100 * r.e as int + r.f
    ensures Counted(opcode, src, dst, r,
                    Advanced(r, src, dst, SourceAfter(opcode, Pointer(r, src), k),
                             TargetAfter(opcode, Pointer(r, dst), k), 0x100 * r.e as int + r.f - k), k)
  {
    var p, q := SourceAfter(opcode, Pointer(r, src), k), TargetAfter(opcode, Pointer(r, dst), k);
    SetPointer(r, src, p);
    SetPointer(SetReg(r, src, p), dst, q);
    DivMod(0x100 * r.e as int + r.f - k, 0x100);
  }

  lemma StepsAre(opcode: byte, p: u16, k: nat)
    requires 0x38 <= opcode <= 0x3B
    ensures Moved(p, SourceStep(opcode), k) == SourceAfter(opcode, p, k)
    ensures Moved(p, TargetStep(opcode), k) == TargetAfter(opcode, p, k)
  {
  }

  lemma RegistersCounted(t: Tfm, r: Regs, k: nat)
    requires TwoPointers(t) && 0x38 <= t.opcode <= 0x3B && k <= r.W()
    ensures Counted(t.opcode, t.src, t.dst, r, t.Registers(r, k), k)
    ensures t.Registers(r, k).pc == r.pc
  {
    PointerIs(r, t.src);
    PointerIs(r, t.dst);
    PointersAfter(t, r, k);
    StepsAre(t.opcode, Pointer(r, t.src), k);
    StepsAre(t.opcode, Pointer(r, t.dst), k);
    if k > 0 {
      AdvancedPointers(t.opcode, r, t.src, t.dst, k);
    }
  }

  lemma InstructionBytes(m: Machine)
    requires TwoPointers(TfmAt(m)) && IsTfm(m)
    ensures var opcode, which := m.mem[(m.r.pc + 1) % 0x1_0000], m.mem[(m.r.pc + 2) % 0x1_0000];
            TfmAt(m) == Tfm(opcode, which / 0x10, which % 0x10) && 0x38 <= opcode <= 0x3B
  {
  }

  lemma StoppedMemory(t: Tfm, m: Machine, k: nat)
    requires TwoPointers(t) && 0x38 <= t.opcode <= 0x3B && k <= m.r.W()
    ensures Transferred(t.opcode, m.mem, Stopped(t, m, k).mem, Pointer(m.r, t.src), Pointer(m.r, t.dst), k)
  {
    PointerIs(m.r, t.src);
    PointerIs(m.r, t.dst);
    CopiedBy(t.opcode, m.mem, Pointer(m.r, t.src), Pointer(m.r, t.dst), k);
  }

  lemma CountedSame(opcode: byte, src: nat, dst: nat, r: Regs, past: Regs, after: Regs, now: Regs, k: nat)
    requires src <= 4 && dst <= 4 && Counted(opcode, src, dst, past, after, k)
    requires past == r.(pc := past.pc) && now == after.(pc := now.pc)
    ensures Counted(opcode, src, dst, r, now, k)
  {
    forall c | 0 <= c <= 4
      ensures Pointer(past, c) == Pointer(r, c) && Pointer(now, c) == Pointer(after, c)
    {
    }
  }

  lemma CountedFromPast(t: Tfm, r: Regs, past: Regs, now: Regs, k: nat)
    requires t.src <= 4 && t.dst <= 4 && past == Past(r, r.pc) && k <= past.W()
    requires now == Broken(t, past, r.pc, k) && Counted(t.opcode, t.src, t.dst, past, t.Registers(past, k), k)
    ensures Counted(t.opcode, t.src, t.dst, r, now, k)
  {
    CountedSame(t.opcode, t.src, t.dst, r, past, t.Registers(past, k), now, k);
  }

  lemma StoppedRegisters(t: Tfm, m: Machine, k: nat)
    requires TwoPointers(t) && 0x38 <= t.opcode <= 0x3B && k <= m.r.W()
    ensures Counted(t.opcode, t.src, t.dst, m.r, Stopped(t, m, k).r, k)
    ensures Stopped(t, m, k).r.pc == if k == m.r.W() then (m.r.pc + 3) % 0x1_0000 else m.r.pc
  {
    var past := Past(m.r, m.r.pc);
    RegistersCounted(t, past, k);
    CountedFromPast(t, m.r, past, Stopped(t, m, k).r, k);
  }

  lemma LinesKeep(m: Machine, irq: bool, firq: bool, nmi: bool, halt: bool)
    ensures Effect(m, Lines(irq, firq, nmi, halt)).r == m.r && Effect(m, Lines(irq, firq, nmi, halt)).mem == m.mem
  {
  }

  lemma FetchedTfm(m: Machine, t: Tfm)
    requires Fetches(m.mem, m.r.pc, t)
    ensures IsTfm(m)
  {
  }

  lemma CopiesInCount(t: Tfm, start: Machine, devices: seq<Inputs>, copies: nat)
    requires copies == CopiesOf(t, start, devices, 0)
    ensures copies <= start.r.W()
  {
  }

  lemma RanCopies(m: Machine, devices: seq<Inputs>, copies: nat, now: Machine)
    requires RanTfm(m, devices, copies, now)
    ensures IsTfm(m) && copies <= m.r.W()
  {
    FetchedTfm(m, TfmAt(m));
    CopiesInCount(TfmAt(m), Skip(m, 3), devices, copies);
  }

  lemma RanStops(m: Machine, devices: seq<Inputs>, copies: nat, now: Machine)
    requires RanTfm(m, devices, copies, now) && copies <= m.r.W()
    ensures now.r == Stopped(TfmAt(m), m, copies).r && now.mem == Stopped(TfmAt(m), m, copies).mem
  {
    LinesKeep(Stopped(TfmAt(m), m, copies), now.irqLine, now.firqLine, now.nmiPending, now.halted);
  }

  /** The machine at a TFM, after some bytes: those bytes are where its form puts them, the pointers its last
      byte names have moved on, W counts down, and PC is past the instruction if all are copied and back at
      it if not. */
  ghost predicate Transfers(m: Machine, r: Regs, mem: Ram, copies: nat) {
    var opcode, which := m.mem[(m.r.pc + 1) % 0x1_0000], m.mem[(m.r.pc + 2) % 0x1_0000];
    var src, dst := which / 0x10, which % 0x10;
    var n := 0x100 * m.r.e as int + m.r.f;
    && src <= 4 && dst <= 4 && copies <= n
    && Transferred(opcode, m.mem, mem, Pointer(m.r, src), Pointer(m.r, dst), copies)
    && Counted(opcode, src, dst, m.r, r, copies)
    && r.pc == if copies == n then (m.r.pc + 3) % 0x1_0000 else m.r.pc
  }

  lemma StoppedTransfers(m: Machine, copies: nat, r: Regs, mem: Ram)
    requires TwoPointers(TfmAt(m)) && IsTfm(m) && copies <= m.r.W()
    requires r == Stopped(TfmAt(m), m, copies).r && mem == Stopped(TfmAt(m), m, copies).mem
    ensures Transfers(m, r, mem, copies)
  {
    InstructionBytes(m);
    StoppedMemory(TfmAt(m), m, copies);
    StoppedRegisters(TfmAt(m), m, copies);
  }

  /** So does TFM with two pointers, however many bytes an interrupt lets it copy. */
  lemma TransferMeans(m: Machine, devices: seq<Inputs>, copies: nat, now: Machine)
    requires TwoPointers(TfmAt(m)) && RanTfm(m, devices, copies, now)
    ensures Transfers(m, now.r, now.mem, copies)
  {
    RanCopies(m, devices, copies, now);
    RanStops(m, devices, copies, now);
    StoppedTransfers(m, copies, now.r, now.mem);
  }

  /** With no interrupt due and none to come, TFM copies all W bytes. */
  lemma {:induction false} NothingStops(t: Tfm, start: Machine, from: nat)
    requires from <= start.r.W() && t.src <= 4 && t.dst <= 4 && Due(start) == NoInterrupt
    ensures CopiesOf(t, start, [], from) == start.r.W()
    decreases start.r.W() - from
  {
    if from < start.r.W() {
      NoLines(start, from);
      SameFlags(t, start.r, from);
      NothingStops(t, start, from + 1);
    }
  }

  lemma {:induction false} NoLines(m: Machine, k: nat)
    ensures LinesAfter(m, [], k) == m
  {
    if k > 0 {
      NoLines(m, k - 1);
    }
  }

  lemma SameFlags(t: Tfm, r: Regs, k: nat)
    requires t.src <= 4 && t.dst <= 4 && k <= r.W()
    ensures t.Registers(r, k).cc == r.cc
  {
  }

  /** No byte of the target is one of the source, both k bytes up or both k bytes down. */
  predicate ApartUp(s: u16, d: u16, k: nat) { forall i, j :: 0 <= i < k && 0 <= j < k ==> Up(s, i) != Up(d, j) }
  predicate ApartDown(s: u16, d: u16, k: nat) { forall i, j :: 0 <= i < k && 0 <= j < k ==> Down(s, i) != Down(d, j) }

  lemma AheadUp(s: u16, d: u16, k: nat)
    requires k > 0 && ApartUp(s, d, k)
    ensures Down(d, s) >= k
  {
    assert Up(s, Down(d, s)) == Up(d, 0);
  }

  lemma AheadDown(s: u16, d: u16, k: nat)
    requires k > 0 && ApartDown(s, d, k)
    ensures Down(s, d) >= k
  {
    assert Down(s, Down(s, d)) == Down(d, 0);
  }

  /** Where source and target are apart, the target is what the source was. */
  lemma TransferUp(m: Ram, now: Ram, s: u16, d: u16, k: nat, i: nat)
    requires Transferred(0x38, m, now, s, d, k) && ApartUp(s, d, k) && i < k < 0x1_0000
    ensures now[Up(d, i)] == m[Up(s, i)]
  {
    AheadUp(s, d, k);
    SourceSame(Down(d, s), i);
  }

  lemma TransferDown(m: Ram, now: Ram, s: u16, d: u16, k: nat, i: nat)
    requires Transferred(0x39, m, now, s, d, k) && ApartDown(s, d, k) && i < k < 0x1_0000
    ensures now[Down(d, i)] == m[Down(s, i)]
  {
    AheadDown(s, d, k);
    SourceSame(Down(s, d), i);
  }

  /** One byte ahead of its source, a copy fills memory with its first byte. */
  lemma TransferFills(m: Ram, now: Ram, s: u16, k: nat, i: nat)
    requires Transferred(0x38, m, now, s, Up(s, 1), k) && i < k < 0x1_0000
    ensures now[Up(Up(s, 1), i)] == m[s]
  {
    OneAhead(s);
    DivMod(i, 1);
  }

  lemma OneAhead(s: u16)
    ensures Down(Up(s, 1), s) == 1 && Up(s, 0) == s
  {
  }

  // ---- the registers TFM numbers ----

  /** All sixteen: five pointers, PC, W, V, then the 8-bit ones, which read with $FF above, and two that
      are not there. */
  lemma RegisterNumbers(r: Regs, code: nat)
    requires code < 0x10
    ensures var v := GetReg(r, code);
            && (code <= 4 ==> v == Pointer(r, code)) && (code == 5 ==> v == r.pc)
            && (code == 6 ==> v == 0x100 * r.e as int + r.f) && (code == 7 ==> v == r.v)
            && (code == 8 ==> v == 0xFF00 + r.a) && (code == 9 ==> v == 0xFF00 + r.b)
            && (code == 10 ==> v == 0xFF00 + r.cc.Byte()) && (code == 11 ==> v == 0xFF00 + r.dp)
            && (code == 12 || code == 13 ==> v == 0xFFFF)
            && (code == 14 ==> v == 0xFF00 + r.e) && (code == 15 ==> v == 0xFF00 + r.f)
  {
    if code <= 4 {
      PointerIs(r, code);
    }
  }

  /** A register set reads as what it was set to, an 8-bit one as its low byte with $FF above, and the ones
      that are not there cannot be set. */
  lemma SetReads(r: Regs, code: nat, v: u16)
    requires code < 0x10
    ensures GetReg(SetReg(r, code, v), code) == if code <= 7 then v
                                                else if code == 12 || code == 13 then 0xFFFF else 0xFF00 + v % 0x100
    ensures code == 12 || code == 13 ==> SetReg(r, code, v) == r
  {
    Halves(v);
    if code == 10 {
      ByteReadBack(v % 0x100);
    }
  }

  lemma ByteReadBack(b: byte)
    ensures FlagsOf(b).Byte() == b
  {
    NibbleOf(b / 0x10);
    NibbleOf(b % 0x10);
  }

  lemma NibbleOf(n: nat)
    requires n < 0x10
    ensures Nibble(n / 8 == 1, n / 4 % 2 == 1, n / 2 % 2 == 1, n % 2 == 1) == n
  {
  }

  /** Whichever registers a copy names, W counts down, as it is set last; and one that is named twice ends
      where the target does. */
  lemma CountWins(t: Tfm, r: Regs, k: nat)
    requires 0 < k <= r.W()
    ensures t.Registers(r, k).W() == r.W() - k
    ensures t.src == t.dst <= 4 ==> GetReg(t.Registers(r, k), t.dst) == Moved(GetReg(r, t.dst), t.Ds(), k)
  {
    var p, q, w := Moved(GetReg(r, t.src), t.Ss(), k), Moved(GetReg(r, t.dst), t.Ds(), k), r.W() - k;
    RegistersAre(t, r, k, p, q, w);
    Halves(w);
    if t.src == t.dst <= 4 {
      SetPointer(SetReg(r, t.src, p), t.dst, q);
      PointerIs(t.Registers(r, k), t.dst);
      PointerIs(SetReg(SetReg(r, t.src, p), t.dst, q), t.dst);
    }
  }
}
