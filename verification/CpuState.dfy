/** The HD6309's registers, flags and memory, and what pushing a stack frame does to them. */
module CpuState {
  import opened Words

  /** Four bits of a byte, and back. */
  function Nibble(p: bool, q: bool, r: bool, s: bool): (n: nat)
    ensures n < 0x10
  {
    (if p then 8 else 0) + (if q then 4 else 0) + (if r then 2 else 0) + (if s then 1 else 0)
  }

  /** The condition codes, bit 7 to bit 0 of CC. */
  datatype Flags = Flags(e: bool, f: bool, h: bool, i: bool, n: bool, z: bool, v: bool, c: bool) {
    function Byte(): byte { 0x10 * Nibble(e, f, h, i) + Nibble(n, z, v, c) }

    /** The flags left by ANDing CC with a mask. */
    function Masked(mask: byte): Flags {
      var m := FlagsOf(mask);
      Flags(e && m.e, f && m.f, h && m.h, i && m.i, n && m.n, z && m.z, v && m.v, c && m.c)
    }
  }

  function FlagsOf(b: byte): Flags {
    var hi, lo := b / 0x10, b % 0x10;
    Flags(hi / 8 == 1, hi / 4 % 2 == 1, hi / 2 % 2 == 1, hi % 2 == 1,
          lo / 8 == 1, lo / 4 % 2 == 1, lo / 2 % 2 == 1, lo % 2 == 1)
  }

  lemma NibbleReadBack(p: bool, q: bool, r: bool, s: bool)
    ensures var n := Nibble(p, q, r, s);
            (n / 8 == 1) == p && (n / 4 % 2 == 1) == q && (n / 2 % 2 == 1) == r && (n % 2 == 1) == s
  {
  }

  lemma FlagsReadBack(cc: Flags)
    ensures FlagsOf(cc.Byte()) == cc
  {
    NibbleReadBack(cc.e, cc.f, cc.h, cc.i);
    NibbleReadBack(cc.n, cc.z, cc.v, cc.c);
    DivUnique(cc.Byte(), 0x10, Nibble(cc.e, cc.f, cc.h, cc.i), Nibble(cc.n, cc.z, cc.v, cc.c));
  }

  datatype Regs = Regs(pc: u16, x: u16, y: u16, u: u16, s: u16, v: u16, a: byte, b: byte, dp: byte, e: byte, f: byte,
                       md: byte, cc: Flags)
  {
    function D(): u16 { Word(a, b) }
    function W(): u16 { Word(e, f) }
    predicate Native() { md % 2 == 1 }
    predicate FirqFull() { md / 2 % 2 == 1 }
  }

  function Word(hi: byte, lo: byte): u16 {
    var h: int, l: int := hi, lo;
    0x100 * h + l
  }

  /** 64KB of flat memory. */
  type Ram = m: seq<byte> | |m| == WORD_16 witness seq(WORD_16, _ => 0)

  function Read16(m: Ram, a: u16): u16 { Word(m[a], m[ToU16(a + 1)]) }

  datatype Machine = Machine(r: Regs, mem: Ram, irqLine: bool, firqLine: bool, nmiPending: bool, waitSync: bool,
                             halted: bool, cwaiPushed: bool)

  // ---- frames on the stack ----

  function BigEndian(v: u16): Bytes { [v / 0x100, v % 0x100] }

  /** What a full entry stacks, from the top of the stack up. W is in it in native mode only. */
  function FullFrame(r: Regs): Bytes { LowerFrame(r.(cc := r.cc.(e := true))) + UpperFrame(r) }

  function LowerFrame(r: Regs): Bytes { [r.cc.Byte(), r.a, r.b] + if r.Native() then [r.e, r.f] else [] }

  function UpperFrame(r: Regs): Bytes {
    [r.dp] + BigEndian(r.x) + BigEndian(r.y) + BigEndian(r.u) + BigEndian(r.pc)
  }

  /** What a fast interrupt stacks. */
  function PartialFrame(r: Regs): Bytes { [r.cc.(e := false).Byte()] + BigEndian(r.pc) }

  function Frame(r: Regs, full: bool): (b: Bytes)
    ensures |b| == if !full then 3 else if r.Native() then 14 else 12
  {
    if full then FullFrame(r) else PartialFrame(r)
  }

  /** The registers as they were stacked, and whether all of them were. */
  datatype Saved = Saved(r: Regs, full: bool) {
    function Bytes(): Bytes { Frame(r, full) }
    function Where(): u16 { ToU16(r.s - |Bytes()|) }
    predicate Covers(a: u16) { Above(a, Where()) < |Bytes()| }
  }

  /** How far an address is above another, around the end of memory. */
  function Above(a: int, at: int): nat { ToU16(a - at) }

  /** Memory with some bytes stored from an address on, wrapping around. */
  function Laid(m: Ram, at: u16, bytes: Bytes): Ram {
    seq(WORD_16, a requires 0 <= a < WORD_16 => if Above(a, at) < |bytes| then bytes[Above(a, at)] else m[a])
  }

  /** The bytes are in memory from an address on, wrapping around. */
  predicate Holds(m: Ram, at: u16, bytes: Bytes) {
    forall k :: 0 <= k < |bytes| ==> m[ToU16(at + k)] == bytes[k]
  }

  lemma AboveAt(at: u16, k: nat)
    requires k < WORD_16
    ensures Above(ToU16(at + k), at) == k
  {
  }

  lemma LaidHolds(m: Ram, at: u16, bytes: Bytes)
    requires |bytes| <= WORD_16
    ensures Holds(Laid(m, at, bytes), at, bytes)
  {
    forall k: nat | k < |bytes|
      ensures Laid(m, at, bytes)[ToU16(at + k)] == bytes[k]
    {
      AboveAt(at, k);
    }
  }

  /** Pushing one more byte below what is laid. */
  lemma LaidPush(m: Ram, at: u16, bytes: Bytes, v: byte)
    requires |bytes| < 100
    ensures Laid(m, at, bytes)[ToU16(at - 1) := v] == Laid(m, ToU16(at - 1), [v] + bytes)
  {
    forall a | 0 <= a < WORD_16
      ensures a == ToU16(at - 1) <==> Above(a, ToU16(at - 1)) == 0
      ensures a != ToU16(at - 1) ==> Above(a, ToU16(at - 1)) == Above(a, at) + 1
    {
    }
  }

  lemma LaidNothing(m: Ram, at: u16)
    ensures Laid(m, at, []) == m
  {
  }
}
