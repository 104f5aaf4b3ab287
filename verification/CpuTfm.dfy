/** TFM, the block copy that an interrupt can break off between two bytes and that starts
    again where it stopped. */
module CpuTfm {
  import opened Words
  import opened CpuState
  import opened CpuRuns

  // ---- registers by number ----

  function WithD(r: Regs, v: u16): Regs { r.(a := v / 0x100, b := v % 0x100) }
  function WithW(r: Regs, v: u16): Regs { r.(e := v / 0x100, f := v % 0x100) }

  /** An 8-bit register reads as $FFxx where 16 bits are wanted, and one that is not there as $FFFF. */
  function GetReg(r: Regs, code: nat): u16 {
    match code
    case 0 => r.D()
    case 1 => r.x
    case 2 => r.y
    case 3 => r.u
    case 4 => r.s
    case 5 => r.pc
    case 6 => r.W()
    case 7 => r.v
    case 8 => Word(0xFF, r.a)
    case 9 => Word(0xFF, r.b)
    case 10 => Word(0xFF, r.cc.Byte())
    case 11 => Word(0xFF, r.dp)
    case 12 => 0xFFFF
    case 13 => 0xFFFF
    case 14 => Word(0xFF, r.e)
    case _ => Word(0xFF, r.f)
  }

  function SetReg(r: Regs, code: nat, v: u16): Regs {
    match code
    case 0 => WithD(r, v)
    case 1 => r.(x := v)
    case 2 => r.(y := v)
    case 3 => r.(u := v)
    case 4 => r.(s := v)
    case 5 => r.(pc := v)
    case 6 => WithW(r, v)
    case 7 => r.(v := v)
    case 8 => r.(a := v % 0x100)
    case 9 => r.(b := v % 0x100)
    case 10 => r.(cc := FlagsOf(v % 0x100))
    case 11 => r.(dp := v % 0x100)
    case 12 => r
    case 13 => r
    case 14 => r.(e := v % 0x100)
    case _ => r.(f := v % 0x100)
  }

  // ---- one execution ----

  /** The four forms, by the last byte of the opcode: how the two pointers move. */
  function SourceStep(opcode: byte): int {
    if opcode == 0x38 || opcode == 0x3A then 1 else if opcode == 0x39 then -1 else 0
  }
  function TargetStep(opcode: byte): int {
    if opcode == 0x38 || opcode == 0x3B then 1 else if opcode == 0x39 then -1 else 0
  }

  /** A pointer after some bytes. */
  function Moved(p: u16, step: int, k: nat): u16 { ToU16(p + step * k) }

  /** Memory after some bytes, copied one after another. */
  function Copied(m: Ram, sp: u16, ss: int, dp: u16, ds: int, k: nat): Ram {
    if k == 0 then m
    else
      var before := Copied(m, sp, ss, dp, ds, k - 1);
      before[Moved(dp, ds, k - 1) := before[Moved(sp, ss, k - 1)]]
  }

  /** Both pointers and the count stored, in that order. */
  function Advanced(r: Regs, src: nat, dst: nat, p: u16, q: u16, w: u16): Regs {
    WithW(SetReg(SetReg(r, src, p), dst, q), w)
  }

  datatype Tfm = Tfm(opcode: byte, src: nat, dst: nat) {
    function Ss(): int { SourceStep(opcode) }
    function Ds(): int { TargetStep(opcode) }
    function Memory(r: Regs, m: Ram, k: nat): Ram { Copied(m, GetReg(r, src), Ss(), GetReg(r, dst), Ds(), k) }

    /** The registers after some bytes: both pointers and the count in W. */
    function Registers(r: Regs, k: nat): Regs
      requires k <= r.W()
    {
      if k == 0 then r
      else Advanced(r, src, dst, Moved(GetReg(r, src), Ss(), k), Moved(GetReg(r, dst), Ds(), k), r.W() - k)
    }
  }

  /** An execution of the instruction at `at`, PC being past it: after `k` bytes PC goes back if
      there are more to copy. */
  function Broken(t: Tfm, r: Regs, at: u16, k: nat): Regs
    requires k <= r.W()
  {
    var now := t.Registers(r, k);
    if k < r.W() then now.(pc := at) else now
  }

  // ---- the copy loop ----

  /** The loop's variables and the machine when k bytes have been copied. */
  ghost predicate CopyAt(t: Tfm, past: Regs, before: Ram, k: nat, sp: u16, dp: u16, r: Regs, m: Ram) {
    && k <= past.W() && r == t.Registers(past, k) && m == t.Memory(past, before, k)
    && sp == Moved(GetReg(past, t.src), t.Ss(), k) && dp == Moved(GetReg(past, t.dst), t.Ds(), k)
  }

  lemma CopyStart(t: Tfm, past: Regs, before: Ram)
    ensures CopyAt(t, past, before, 0, GetReg(past, t.src), GetReg(past, t.dst), past, before)
  {
    MovedNot(GetReg(past, t.src), t.Ss());
    MovedNot(GetReg(past, t.dst), t.Ds());
  }

  lemma {:induction false} CopyOne(t: Tfm, past: Regs, before: Ram, k: nat, sp: u16, dp: u16, r: Regs, m: Ram)
    requires CopyAt(t, past, before, k, sp, dp, r, m) && k < past.W()
    ensures var sp', dp' := ToU16(sp + t.Ss()), ToU16(dp + t.Ds());
            var now := Advanced(r, t.src, t.dst, sp', dp', past.W() - k - 1);
            CopyAt(t, past, before, k + 1, sp', dp', now, m[dp := m[sp]])
  {
    StepOn(GetReg(past, t.src), t.Ss(), k);
    StepOn(GetReg(past, t.dst), t.Ds(), k);
    RegistersOn(t, past, k);
    MemoryOn(t, past, before, k);
  }

  lemma StepOn(p: u16, step: int, k: nat)
    requires -1 <= step <= 1
    ensures ToU16(Moved(p, step, k) + step) == Moved(p, step, k + 1)
  {
    MovedOn(p, step, k, 1);
  }

  lemma MemoryOn(t: Tfm, past: Regs, before: Ram, k: nat)
    ensures var m := t.Memory(past, before, k);
            t.Memory(past, before, k + 1)
              == m[Moved(GetReg(past, t.dst), t.Ds(), k) := m[Moved(GetReg(past, t.src), t.Ss(), k)]]
  {
  }

  lemma RegistersOn(t: Tfm, past: Regs, k: nat)
    requires k < past.W()
    ensures var sp, dp := Moved(GetReg(past, t.src), t.Ss(), k + 1), Moved(GetReg(past, t.dst), t.Ds(), k + 1);
            t.Registers(past, k + 1) == Advanced(t.Registers(past, k), t.src, t.dst, sp, dp, past.W() - k - 1)
  {
    if k > 0 {
      SetAgain(past, t.src, t.dst, Moved(GetReg(past, t.src), t.Ss(), k), Moved(GetReg(past, t.dst), t.Ds(), k),
               past.W() - k, Moved(GetReg(past, t.src), t.Ss(), k + 1), Moved(GetReg(past, t.dst), t.Ds(), k + 1),
               past.W() - k - 1);
    }
  }

  // ---- starting again ----

  /** Two different pointers among D, X, Y, U and S. */
  predicate TwoPointers(t: Tfm) { t.src <= 4 && t.dst <= 4 && t.src != t.dst }

  /** The registers a copy depends on. */
  predicate Same(r: Regs, q: Regs) {
    && r.pc == q.pc && r.x == q.x && r.y == q.y && r.u == q.u && r.s == q.s
    && r.a == q.a && r.b == q.b && r.e == q.e && r.f == q.f
  }

  ghost predicate AgreeOff(m: Ram, n: Ram, scratch: iset<u16>) {
    forall a: u16 :: a !in scratch ==> m[a] == n[a]
  }

  lemma Halves(v: u16)
    ensures Word(v / 0x100, v % 0x100) == v
  {
  }

  lemma SetGets(r: Regs, src: nat, dst: nat, p: u16, q: u16, w: u16)
    requires src <= 4 && dst <= 4 && src != dst
    ensures var now := Advanced(r, src, dst, p, q, w);
            GetReg(now, src) == p && GetReg(now, dst) == q && now.W() == w && now.pc == r.pc
  {
    Halves(p);
    Halves(q);
    Halves(w);
  }

  predicate SetsOnce(r: Regs, src: nat, dst: nat, p: u16, q: u16, w: u16, p': u16, q': u16, w': u16) {
    Advanced(Advanced(r, src, dst, p, q, w), src, dst, p', q', w') == Advanced(r, src, dst, p', q', w')
  }

  lemma SetAgain16(r: Regs, src: nat, dst: nat, p: u16, q: u16, w: u16, p': u16, q': u16, w': u16)
    requires src <= 7 && dst <= 7
    ensures SetsOnce(r, src, dst, p, q, w, p', q', w')
  {
  }

  lemma SetAgainMixed(r: Regs, src: nat, dst: nat, p: u16, q: u16, w: u16, p': u16, q': u16, w': u16)
    requires src <= 7 < dst
    ensures SetsOnce(r, src, dst, p, q, w, p', q', w')
  {
  }

  lemma SetAgain8(r: Regs, src: nat, dst: nat, p: u16, q: u16, w: u16, p': u16, q': u16, w': u16)
    requires 7 < src <= 11 && dst <= 7
    ensures SetsOnce(r, src, dst, p, q, w, p', q', w')
  {
  }

  lemma SetAgainBoth8(r: Regs, src: nat, dst: nat, p: u16, q: u16, w: u16, p': u16, q': u16, w': u16)
    requires 7 < src <= 11 && 7 < dst
    ensures SetsOnce(r, src, dst, p, q, w, p', q', w')
  {
  }

  lemma SetAgainW(r: Regs, src: nat, dst: nat, p: u16, q: u16, w: u16, p': u16, q': u16, w': u16)
    requires src > 11
    ensures SetsOnce(r, src, dst, p, q, w, p', q', w')
  {
  }

  /** Setting the same registers again is setting them once, whichever they are. */
  lemma SetAgain(r: Regs, src: nat, dst: nat, p: u16, q: u16, w: u16, p': u16, q': u16, w': u16)
    ensures SetsOnce(r, src, dst, p, q, w, p', q', w')
  {
    if src <= 7 && dst <= 7 {
      SetAgain16(r, src, dst, p, q, w, p', q', w');
    } else if src <= 7 {
      SetAgainMixed(r, src, dst, p, q, w, p', q', w');
    } else if src <= 11 && dst > 7 {
      SetAgainBoth8(r, src, dst, p, q, w, p', q', w');
    } else if src <= 11 {
      SetAgain8(r, src, dst, p, q, w, p', q', w');
    } else {
      SetAgainW(r, src, dst, p, q, w, p', q', w');
    }
  }

  lemma MovedOn(p: u16, step: int, j: nat, k: nat)
    requires -1 <= step <= 1
    ensures Moved(Moved(p, step, j), step, k) == Moved(p, step, j + k)
  {
  }

  lemma MovedNot(p: u16, step: int)
    ensures Moved(p, step, 0) == p
  {
  }

  /** After some bytes both pointers have moved that far and W counts the rest. */
  lemma PointersAfter(t: Tfm, r: Regs, k: nat)
    requires TwoPointers(t) && k <= r.W()
    ensures var now := t.Registers(r, k);
            && GetReg(now, t.src) == Moved(GetReg(r, t.src), t.Ss(), k)
            && GetReg(now, t.dst) == Moved(GetReg(r, t.dst), t.Ds(), k)
            && now.W() == r.W() - k && now.pc == r.pc
  {
    MovedNot(GetReg(r, t.src), t.Ss());
    MovedNot(GetReg(r, t.dst), t.Ds());
    SetGets(r, t.src, t.dst, Moved(GetReg(r, t.src), t.Ss(), k), Moved(GetReg(r, t.dst), t.Ds(), k), r.W() - k);
  }

  lemma RegistersAre(t: Tfm, r: Regs, k: nat, p: u16, q: u16, w: u16)
    requires 0 < k <= r.W() && w == r.W() - k
    requires p == Moved(GetReg(r, t.src), t.Ss(), k) && q == Moved(GetReg(r, t.dst), t.Ds(), k)
    ensures t.Registers(r, k) == Advanced(r, t.src, t.dst, p, q, w)
  {
  }

  /** Copying j bytes and then k more, from the registers as they then are, is copying j + k. */
  lemma RegistersCompose(t: Tfm, r: Regs, j: nat, k: nat)
    requires TwoPointers(t) && j + k <= r.W()
    ensures t.Registers(r, j).W() == r.W() - j
    ensures t.Registers(t.Registers(r, j), k) == t.Registers(r, j + k)
  {
    PointersAfter(t, r, j);
    if j > 0 && k > 0 {
      RegistersGoOn(t, r, j, k, t.Registers(r, j));
    }
  }

  lemma RegistersGoOn(t: Tfm, r: Regs, j: nat, k: nat, now: Regs)
    requires 0 < j && 0 < k && j + k <= r.W() && now == t.Registers(r, j) && now.W() == r.W() - j
    requires GetReg(now, t.src) == Moved(GetReg(r, t.src), t.Ss(), j)
    requires GetReg(now, t.dst) == Moved(GetReg(r, t.dst), t.Ds(), j)
    ensures t.Registers(now, k) == t.Registers(r, j + k)
  {
    var sp, dp := GetReg(r, t.src), GetReg(r, t.dst);
    var p, q, p', q' := Moved(sp, t.Ss(), j), Moved(dp, t.Ds(), j), Moved(sp, t.Ss(), j + k), Moved(dp, t.Ds(), j + k);
    MovedOn(sp, t.Ss(), j, k);
    MovedOn(dp, t.Ds(), j, k);
    RegistersAre(t, r, j, p, q, r.W() - j);
    RegistersAre(t, now, k, p', q', r.W() - j - k);
    RegistersAre(t, r, j + k, p', q', r.W() - j - k);
    AdvancedAgain(r, now, t.Registers(now, k), t.src, t.dst, p, q, r.W() - j, p', q', r.W() - j - k);
  }

  lemma AdvancedAgain(r: Regs, now: Regs, last: Regs, src: nat, dst: nat, p: u16, q: u16, w: u16,
                      p': u16, q': u16, w': u16)
    requires now == Advanced(r, src, dst, p, q, w) && last == Advanced(now, src, dst, p', q', w')
    ensures last == Advanced(r, src, dst, p', q', w')
  {
    SetAgain(r, src, dst, p, q, w, p', q', w');
  }

  lemma {:induction false} CopiedCompose(m: Ram, sp: u16, ss: int, dp: u16, ds: int, j: nat, k: nat)
    requires -1 <= ss <= 1 && -1 <= ds <= 1
    ensures Copied(Copied(m, sp, ss, dp, ds, j), Moved(sp, ss, j), ss, Moved(dp, ds, j), ds, k)
         == Copied(m, sp, ss, dp, ds, j + k)
    decreases k
  {
    if k > 0 {
      CopiedCompose(m, sp, ss, dp, ds, j, k - 1);
      MovedOn(sp, ss, j, k - 1);
      MovedOn(dp, ds, j, k - 1);
    }
  }

  lemma MemoryComposes(t: Tfm, r: Regs, m: Ram, j: nat, k: nat)
    requires TwoPointers(t) && j + k <= r.W()
    ensures t.Memory(t.Registers(r, j), t.Memory(r, m, j), k) == t.Memory(r, m, j + k)
  {
    PointersAfter(t, r, j);
    CopiedCompose(m, GetReg(r, t.src), t.Ss(), GetReg(r, t.dst), t.Ds(), j, k);
  }

  /** Two memories that agree off the scratch addresses still do after the same copy, if it neither
      reads nor writes those. */
  lemma {:induction false} CopiedAgree(m: Ram, n: Ram, sp: u16, ss: int, dp: u16, ds: int, k: nat, scratch: iset<u16>)
    requires AgreeOff(m, n, scratch)
    requires forall i :: 0 <= i < k ==> Moved(sp, ss, i) !in scratch
    ensures AgreeOff(Copied(m, sp, ss, dp, ds, k), Copied(n, sp, ss, dp, ds, k), scratch)
  {
    if k > 0 {
      CopiedAgree(m, n, sp, ss, dp, ds, k - 1, scratch);
    }
  }

  /** A copy leaves every byte it is not aimed at. */
  lemma {:induction false} CopiedElsewhere(m: Ram, sp: u16, ss: int, dp: u16, ds: int, k: nat, a: u16)
    requires forall i :: 0 <= i < k ==> Moved(dp, ds, i) != a
    ensures Copied(m, sp, ss, dp, ds, k)[a] == m[a]
  {
    if k > 0 {
      CopiedElsewhere(m, sp, ss, dp, ds, k - 1, a);
    }
  }

  // ---- interrupted copies ----

  /** The instruction's three bytes. */
  predicate Fetches(m: Ram, at: u16, t: Tfm) {
    && m[at] == 0x11 && m[ToU16(at + 1)] == t.opcode && 0x38 <= t.opcode <= 0x3B
    && t.src < 0x10 && t.dst < 0x10 && m[ToU16(at + 2)] == 0x10 * t.src + t.dst
  }

  predicate InInstruction(at: u16, a: u16) { a == at || a == ToU16(at + 1) || a == ToU16(at + 2) }

  /** PC past the instruction, as it is while the copy runs. */
  function Past(r: Regs, at: u16): Regs { r.(pc := ToU16(at + 3)) }

  /** A break after `copied` bytes: the registers and memory the copy goes on with, and the addresses that
      may have changed in the breaks so far. */
  datatype Break = Break(copied: nat, r: Regs, mem: Ram, scratch: iset<u16>)

  /** A copy does not write its own instruction. */
  ghost predicate KeepsInstruction(t: Tfm, r: Regs, at: u16) {
    forall i :: 0 <= i < r.W() ==> !InInstruction(at, Moved(GetReg(r, t.dst), t.Ds(), i))
  }

  /** What is still to be read, the rest of the source and the instruction, is off the scratch addresses. */
  ghost predicate Unread(t: Tfm, r: Regs, at: u16, scratch: iset<u16>) {
    && (forall a :: InInstruction(at, a) ==> a !in scratch)
    && (forall i :: 0 <= i < r.W() ==> Moved(GetReg(r, t.src), t.Ss(), i) !in scratch)
  }

  /** The registers of a copy broken off after k bytes; after none, it has not begun. */
  function PausedAt(t: Tfm, r: Regs, at: u16, k: nat): Regs
    requires k <= r.W()
  {
    if k == 0 then r.(pc := at) else Broken(t, Past(r, at), at, k)
  }

  /** A break leaves something to copy, or comes before the copy begins; the registers are given back, and
      no memory but its scratch addresses has changed, which leave alone what is still to be read. */
  ghost predicate LegalBreak(t: Tfm, at: u16, r: Regs, m: Ram, b: Break, scratch: iset<u16>) {
    && (b.copied == 0 || b.copied < r.W())
    && Same(b.r, PausedAt(t, r, at, b.copied))
    && AgreeOff(b.mem, t.Memory(r, m, b.copied), b.scratch)
    && scratch <= b.scratch && Unread(t, b.r, at, b.scratch)
  }

  ghost predicate Legal(t: Tfm, at: u16, r: Regs, m: Ram, breaks: seq<Break>, scratch: iset<u16>)
    decreases |breaks|
  {
    breaks == [] ||
    (LegalBreak(t, at, r, m, breaks[0], scratch)
     && Legal(t, at, breaks[0].r, breaks[0].mem, breaks[1..], breaks[0].scratch))
  }

  /** The scratch addresses in the end. */
  ghost function LastScratch(breaks: seq<Break>, scratch: iset<u16>): iset<u16>
    decreases |breaks|
  {
    if breaks == [] then scratch else LastScratch(breaks[1..], breaks[0].scratch)
  }

  /** Where the instruction, broken off and started again, ends. */
  function Finished(t: Tfm, at: u16, r: Regs, m: Ram, breaks: seq<Break>): (Regs, Ram)
    decreases |breaks|
  {
    if breaks == [] then (Broken(t, Past(r, at), at, r.W()), t.Memory(r, m, r.W()))
    else Finished(t, at, breaks[0].r, breaks[0].mem, breaks[1..])
  }

  lemma SameGives(t: Tfm, r: Regs, q: Regs, k: nat)
    requires TwoPointers(t) && Same(r, q) && k <= r.W()
    ensures GetReg(r, t.src) == GetReg(q, t.src) && GetReg(r, t.dst) == GetReg(q, t.dst) && r.W() == q.W()
    ensures Same(t.Registers(r, k), t.Registers(q, k))
  {
  }

  /** What is left of a copy keeps the instruction if all of it does. */
  lemma InstructionKeptAfter(t: Tfm, r: Regs, at: u16, k: nat, now: Regs)
    requires TwoPointers(t) && k < r.W() && KeepsInstruction(t, r, at)
    requires Same(now, Broken(t, Past(r, at), at, k))
    ensures now.W() == r.W() - k && KeepsInstruction(t, now, at)
  {
    PointersAfter(t, Past(r, at), k);
    forall i: nat | i < r.W() - k
      ensures Moved(GetReg(now, t.dst), t.Ds(), i) == Moved(GetReg(r, t.dst), t.Ds(), k + i)
    {
      MovedOn(GetReg(r, t.dst), t.Ds(), k, i);
    }
  }

  /** The instruction is still there to be fetched again. */
  lemma StillThere(t: Tfm, at: u16, r: Regs, m: Ram, k: nat, after: Ram, scratch: iset<u16>)
    requires Fetches(m, at, t) && KeepsInstruction(t, r, at) && k <= r.W()
    requires forall a :: InInstruction(at, a) ==> a !in scratch
    requires AgreeOff(after, t.Memory(r, m, k), scratch)
    ensures Fetches(after, at, t)
  {
    forall a: u16 | InInstruction(at, a)
      ensures after[a] == m[a]
    {
      CopiedElsewhere(m, GetReg(r, t.src), t.Ss(), GetReg(r, t.dst), t.Ds(), k, a);
    }
    assert InInstruction(at, at) && InInstruction(at, ToU16(at + 1)) && InInstruction(at, ToU16(at + 2));
  }

  /** The rest of a copy that was broken off, from registers and memory that are those it was broken
      off with, is the rest of the whole copy. */
  lemma RestOfCopy(t: Tfm, at: u16, q: Regs, n: Ram, k: nat)
    requires TwoPointers(t) && k < q.W()
    ensures var now := Broken(t, Past(q, at), at, k);
            && now.W() == q.W() - k
            && Broken(t, Past(now, at), at, now.W()) == Broken(t, Past(q, at), at, q.W())
            && t.Memory(now, t.Memory(q, n, k), now.W()) == t.Memory(q, n, q.W())
  {
    var past := Past(q, at);
    var now := Broken(t, past, at, k);
    PointersAfter(t, past, k);
    RegistersCompose(t, past, k, q.W() - k);
    MemoryComposes(t, past, n, k, q.W() - k);
    assert Past(now, at) == t.Registers(past, k);
  }

  lemma RestAfter(t: Tfm, at: u16, q: Regs, n: Ram, k: nat)
    requires TwoPointers(t) && (k == 0 || k < q.W())
    ensures var now := PausedAt(t, q, at, k);
            && Broken(t, Past(now, at), at, now.W()) == Broken(t, Past(q, at), at, q.W())
            && t.Memory(now, t.Memory(q, n, k), now.W()) == t.Memory(q, n, q.W())
  {
    if k > 0 {
      RestOfCopy(t, at, q, n, k);
    }
  }

  /** After a break the conditions hold again, now of what is left. */
  lemma {:induction false} AfterBreak(t: Tfm, at: u16, r: Regs, m: Ram, b: Break, q: Regs, n: Ram, scratch: iset<u16>)
    requires TwoPointers(t) && Fetches(m, at, t) && KeepsInstruction(t, r, at) && Unread(t, r, at, scratch)
    requires Same(r, q) && AgreeOff(m, n, scratch) && LegalBreak(t, at, r, m, b, scratch)
    ensures Fetches(b.mem, at, t) && KeepsInstruction(t, b.r, at)
    ensures Same(b.r, PausedAt(t, q, at, b.copied)) && AgreeOff(b.mem, t.Memory(q, n, b.copied), b.scratch)
  {
    StillThere(t, at, r, m, b.copied, b.mem, b.scratch);
    CopiedAgree(m, n, GetReg(r, t.src), t.Ss(), GetReg(r, t.dst), t.Ds(), b.copied, scratch);
    if b.copied > 0 {
      SameGives(t, Past(r, at), Past(q, at), b.copied);
      InstructionKeptAfter(t, r, at, b.copied, b.r);
    }
  }

  /** TFM interrupted any number of times, after any bytes or before the first, and started again each
      time, finds its instruction there each time and ends with the registers of an uninterrupted copy, W
      counted down to 0 and PC past it, and with its memory but for the scratch addresses. These may grow
      from break to break, and may take in what has been read: a handler may stack over it. */
  lemma {:induction false} BreaksDoNotMatter(t: Tfm, at: u16, r: Regs, m: Ram, breaks: seq<Break>, q: Regs, n: Ram,
                                             scratch: iset<u16>)
    requires TwoPointers(t) && Fetches(m, at, t) && KeepsInstruction(t, r, at) && Unread(t, r, at, scratch)
    requires Legal(t, at, r, m, breaks, scratch)
    requires Same(r, q) && AgreeOff(m, n, scratch)
    ensures forall b :: b in breaks ==> Fetches(b.mem, at, t)
    ensures var (regs, memory) := Finished(t, at, r, m, breaks);
            && Same(regs, Broken(t, Past(q, at), at, q.W()))
            && AgreeOff(memory, t.Memory(q, n, q.W()), LastScratch(breaks, scratch))
            && regs.W() == 0 && regs.pc == ToU16(at + 3)
    decreases |breaks|
  {
    if breaks == [] {
      SameGives(t, Past(r, at), Past(q, at), r.W());
      PointersAfter(t, Past(r, at), r.W());
      CopiedAgree(m, n, GetReg(r, t.src), t.Ss(), GetReg(r, t.dst), t.Ds(), r.W(), scratch);
    } else {
      var b := breaks[0];
      var now := PausedAt(t, q, at, b.copied);
      AfterBreak(t, at, r, m, b, q, n, scratch);
      RestAfter(t, at, q, n, b.copied);
      BreaksDoNotMatter(t, at, b.r, b.mem, breaks[1..], now, t.Memory(q, n, b.copied), b.scratch);
    }
  }

  /** A handler that ends with RTI gives the copy its registers back: after a full entry if it is in
      native mode, where W is stacked, or leaves W alone; after a fast one if it leaves them all alone. */
  lemma HandlerGivesBack(f: Saved, now: Regs)
    requires if f.full then f.r.Native() || (now.e == f.r.e && now.f == f.r.f)
             else Same(now.(pc := f.r.pc, s := f.r.s), f.r)
    ensures Same(Restored(f, now), f.r)
  {
  }
}
