/** The 8-bit adder, subtracter and decimal adjustment, and the numbers of any length that
    chains of them add and subtract. */
module CpuAlu {
  import opened Words
  import opened CpuState

  function Digit(b: bool): nat { if b then 1 else 0 }

  predicate Negative(v: byte) { v >= 0x80 }

  datatype Result = Result(value: byte, cc: Flags)

  /** Addition: V by the sign bits of the operands and the result, H by the low halves. */
  function Added(cc: Flags, a: byte, b: byte, carry: bool): Result {
    var sum: int := a + b + Digit(carry);
    var r := sum % 0x100;
    Result(r, cc.(h := a % 0x10 + b % 0x10 + Digit(carry) > 0xF, c := sum > 0xFF,
                  v := Negative(a) == Negative(b) && Negative(a) != Negative(r), n := Negative(r), z := r == 0))
  }

  /** Subtraction; H is left alone. */
  function Subtracted(cc: Flags, a: byte, b: byte, borrow: bool): Result {
    var diff: int := a - b - Digit(borrow);
    var r := diff % 0x100;
    Result(r, cc.(c := diff < 0, v := Negative(a) != Negative(b) && Negative(a) != Negative(r),
                  n := Negative(r), z := r == 0))
  }

  /** A load or a store: C is left alone. */
  function Loaded(cc: Flags, v: byte): Flags { cc.(v := false, n := Negative(v), z := v == 0) }

  /** Decimal adjustment after an addition. */
  function Adjusted(cc: Flags, a: byte): Result {
    var lo: int, hi: int := a % 0x10, a / 0x10;
    var high := cc.c || hi > 9 || (hi >= 9 && lo > 9);
    var sum: int := a + (if cc.h || lo > 9 then 0x06 else 0) + (if high then 0x60 else 0);
    var r := sum % 0x100;
    Result(r, cc.(c := high, n := Negative(r), z := r == 0))
  }

  /** The sixteen branch conditions, by the low four bits of the opcode. */
  function Condition(cc: Flags, code: nat): bool {
    match code % 0x10
    case 0x0 => true
    case 0x1 => false
    case 0x2 => !cc.c && !cc.z
    case 0x3 => cc.c || cc.z
    case 0x4 => !cc.c
    case 0x5 => cc.c
    case 0x6 => !cc.z
    case 0x7 => cc.z
    case 0x8 => !cc.v
    case 0x9 => cc.v
    case 0xA => !cc.n
    case 0xB => cc.n
    case 0xC => cc.n == cc.v
    case 0xD => cc.n != cc.v
    case 0xE => !cc.z && cc.n == cc.v
    case _ => cc.z || cc.n != cc.v
  }

  const BHI := 0x2
  const BHS := 0x4
  const BLO := 0x5
  const BGE := 0xC
  const BLT := 0xD

  // ---- numbers of many bytes, lowest byte first ----

  function Power(base: nat, n: nat): nat {
    if n == 0 then 1 else base * Power(base, n - 1)
  }

  function Unsigned(s: Bytes): nat {
    if s == [] then 0 else Unsigned(s[..|s| - 1]) + s[|s| - 1] * Power(0x100, |s| - 1)
  }

  /** Two's complement. */
  function Signed(s: Bytes): int {
    if s != [] && Negative(s[|s| - 1]) then Unsigned(s) - Power(0x100, |s|) else Unsigned(s)
  }

  /** The flags when the next pair of bytes is to be added: the last result has been stored and the
      next byte loaded. */
  function Between(before: Flags, done: Bytes, next: byte): Flags {
    Loaded(if done == [] then before else Loaded(before, done[|done| - 1]), next)
  }

  /** A chain over two numbers: ADD or SUB for the lowest bytes, then ADC or SBC for each next pair,
      with a store and a load between. The flags are those right after the last. */
  function AddChain(cc: Flags, xs: Bytes, ys: Bytes): (r: (Bytes, Flags))
    requires |xs| == |ys|
    ensures |r.0| == |xs|
  {
    if xs == [] then ([], cc.(c := false))
    else
      var n := |xs| - 1;
      var (zs, before) := AddChain(cc, xs[..n], ys[..n]);
      var flags := Between(before, zs, xs[n]);
      var r := Added(flags, xs[n], ys[n], flags.c);
      (zs + [r.value], r.cc)
  }

  function SubChain(cc: Flags, xs: Bytes, ys: Bytes): (r: (Bytes, Flags))
    requires |xs| == |ys|
    ensures |r.0| == |xs|
  {
    if xs == [] then ([], cc.(c := false))
    else
      var n := |xs| - 1;
      var (zs, before) := SubChain(cc, xs[..n], ys[..n]);
      var flags := Between(before, zs, xs[n]);
      var r := Subtracted(flags, xs[n], ys[n], flags.c);
      (zs + [r.value], r.cc)
  }

  // ---- one byte ----

  /** Addition's flags: C is the carry out of the unsigned sum, V that the signed sum does not fit,
      and N with V gives its sign; Z and N are of the byte that is left, and H is the carry out of the low
      half. E, F and I stay. */
  lemma AddedMeans(cc: Flags, a: byte, b: byte, carry: bool)
    ensures var r := Added(cc, a, b, carry);
            var sum := SignedByte(a) + SignedByte(b) + Digit(carry);
            && r.value + 0x100 * Digit(r.cc.c) == a + b + Digit(carry)
            && (r.cc.v <==> sum < -0x80 || 0x80 <= sum) && (r.cc.n != r.cc.v <==> sum < 0)
            && (r.cc.z <==> r.value == 0) && (r.cc.n <==> r.value > 0x7F)
            && (r.cc.h <==> a % 0x10 + b % 0x10 + Digit(carry) >= 0x10)
            && r.cc.e == cc.e && r.cc.f == cc.f && r.cc.i == cc.i
  {
  }

  /** Subtraction's: C is the borrow, and H stays too. */
  lemma SubtractedMeans(cc: Flags, a: byte, b: byte, borrow: bool)
    ensures var r := Subtracted(cc, a, b, borrow);
            var diff := SignedByte(a) - SignedByte(b) - Digit(borrow);
            && r.value - 0x100 * Digit(r.cc.c) == a - b - Digit(borrow)
            && (r.cc.v <==> diff < -0x80 || 0x80 <= diff) && (r.cc.n != r.cc.v <==> diff < 0)
            && (r.cc.z <==> r.value == 0) && (r.cc.n <==> r.value > 0x7F)
            && r.cc.e == cc.e && r.cc.f == cc.f && r.cc.h == cc.h && r.cc.i == cc.i
  {
  }

  /** The sixteen branches after a byte is compared with another: always and never; higher, lower or same,
      higher or same, and lower, of unsigned bytes; not equal and equal; whether the signed difference fits;
      the sign of the byte left; and the four orders of signed bytes. */
  lemma BranchesMean(before: Flags, a: byte, b: byte, code: nat)
    requires code < 16
    ensures var x, y := SignedByte(a), SignedByte(b);
            Condition(Subtracted(before, a, b, false).cc, code)
              == match code
                 case 0 => true
                 case 1 => false
                 case 2 => a > b
                 case 3 => a <= b
                 case 4 => a >= b
                 case 5 => a < b
                 case 6 => a != b
                 case 7 => a == b
                 case 8 => -0x80 <= x - y <= 0x7F
                 case 9 => !(-0x80 <= x - y <= 0x7F)
                 case 10 => (a - b) % 0x100 <= 0x7F
                 case 11 => (a - b) % 0x100 > 0x7F
                 case 12 => x >= y
                 case 13 => x < y
                 case 14 => x > y
                 case _ => x <= y
  {
    SubtractedMeans(before, a, b, false);
    var cc := Subtracted(before, a, b, false).cc;
    assert cc.z == (a == b) && cc.c == (a < b);
  }

  // ---- chains ----

  lemma {:induction false} UnsignedFits(s: Bytes)
    ensures Unsigned(s) < Power(0x100, |s|)
  {
    if s != [] {
      UnsignedFits(s[..|s| - 1]);
      var q, top := Power(0x100, |s| - 1), s[|s| - 1];
      MulMono(top, 0xFF, q);
    }
  }

  /** A number is its lower bytes and its top one, and its sign is that of the top one. */
  lemma SplitTop(s: Bytes)
    requires s != []
    ensures var q := Power(0x100, |s| - 1);
            && Power(0x100, |s|) == 0x100 * q
            && Unsigned(s) == Unsigned(s[..|s| - 1]) + s[|s| - 1] * q
            && Signed(s) == Unsigned(s[..|s| - 1]) + SignedByte(s[|s| - 1]) * q
  {
    var q, top := Power(0x100, |s| - 1), s[|s| - 1];
    MulDist(top, -0x100, q);
  }

  /** What a low part and a whole number of some unit come to: the units decide. */
  lemma UnitsDecide(low: int, units: int, q: nat)
    requires 0 <= low < q
    ensures low + units * q < 0 <==> units < 0
    ensures low + units * q < -0x80 * q <==> units < -0x80
    ensures low + units * q >= 0x80 * q <==> units >= 0x80
  {
    UnitsBelow(low, units, 0, q);
    UnitsBelow(low, units, -0x80, q);
    UnitsBelow(low, units, 0x80, q);
  }

  lemma UnitsBelow(low: int, units: int, bound: int, q: nat)
    requires 0 <= low < q
    ensures low + units * q < bound * q <==> units < bound
  {
    if units < bound {
      MulMono(1, bound - units, q);
      MulDist(bound - units, units, q);
    } else {
      MulMono(0, units - bound, q);
      MulDist(units - bound, bound, q);
    }
  }

  /** Whether a number fits in as many signed bytes as the unit has values. */
  predicate FitsSigned(v: int, whole: nat) { 0 <= 2 * v + whole && 2 * v < whole }

  /** The sum is right so far. */
  ghost predicate SumIs(zs: Bytes, c: bool, xs: Bytes, ys: Bytes) {
    Unsigned(zs) + Digit(c) * Power(0x100, |xs|) == Unsigned(xs) + Unsigned(ys)
  }

  lemma AddLast(low: Bytes, carry: bool, xs: Bytes, ys: Bytes, r: Result, cc: Flags)
    requires xs != [] && |xs| == |ys| == |low| + 1
    requires SumIs(low, carry, xs[..|low|], ys[..|low|])
    requires r == Added(cc, xs[|low|], ys[|low|], carry)
    ensures SumIs(low + [r.value], r.cc.c, xs, ys)
    ensures r.cc.v <==> !FitsSigned(Signed(xs) + Signed(ys), Power(0x100, |xs|))
  {
    var n := |low|;
    var zs := low + [r.value];
    assert zs[..n] == low;
    UnsignedFits(low);
    SplitTop(xs);
    SplitTop(ys);
    SplitTop(zs);
    AddedMeans(cc, xs[n], ys[n], carry);
    var lowX, lowY, q := Unsigned(xs[..n]), Unsigned(ys[..n]), Power(0x100, n);
    AddWhole(lowX, lowY, Unsigned(low), Digit(carry), xs[n], ys[n], zs[n], Digit(r.cc.c), q);
    AddTops(lowX, lowY, Unsigned(low), Digit(carry), xs[n], ys[n], q);
  }

  /** An ADD/ADC chain adds numbers of any length: the result is the sum modulo 256^n and C the carry
      out, and V says that the sum does not fit as a signed number of that length. */
  lemma {:induction false} AddChainAdds(cc: Flags, xs: Bytes, ys: Bytes)
    requires |xs| == |ys|
    ensures var (zs, after) := AddChain(cc, xs, ys);
            && SumIs(zs, after.c, xs, ys)
            && (xs != [] ==> (after.v <==> !FitsSigned(Signed(xs) + Signed(ys), Power(0x100, |xs|))))
  {
    if xs != [] {
      var n := |xs| - 1;
      AddChainAdds(cc, xs[..n], ys[..n]);
      var (low, before) := AddChain(cc, xs[..n], ys[..n]);
      var flags := Between(before, low, xs[n]);
      AddLast(low, before.c, xs, ys, Added(flags, xs[n], ys[n], before.c), flags);
    }
  }

  /** The top bytes' sum, with the carry into it, makes the whole sum. */
  lemma AddWhole(lowX: nat, lowY: nat, low: nat, carry: nat, x: nat, y: nat, z: nat, out: nat, q: nat)
    requires low + carry * q == lowX + lowY && z + 0x100 * out == x + y + carry
    ensures low + z * q + out * (0x100 * q) == lowX + x * q + (lowY + y * q)
  {
    MulDist(x + y, carry, q);
    MulDist(x, y, q);
    MulDist(z, 0x100 * out, q);
    assert (0x100 * out) * q == out * (0x100 * q);
  }

  /** And the signed sum of the top bytes decides whether the whole sum fits. */
  lemma AddTops(lowX: nat, lowY: nat, low: nat, carry: nat, x: byte, y: byte, q: nat)
    requires low + carry * q == lowX + lowY && low < q
    ensures var sum := SignedByte(x) + SignedByte(y) + carry;
            var whole := lowX + SignedByte(x) * q + (lowY + SignedByte(y) * q);
            && (whole < -0x80 * q <==> sum < -0x80) && (whole >= 0x80 * q <==> sum >= 0x80)
  {
    var sum := SignedByte(x) + SignedByte(y) + carry;
    MulDist(SignedByte(x) + SignedByte(y), carry, q);
    MulDist(SignedByte(x), SignedByte(y), q);
    UnitsDecide(low, sum, q);
  }

  /** The difference is right so far. */
  ghost predicate DifferenceIs(zs: Bytes, c: bool, xs: Bytes, ys: Bytes) {
    Unsigned(zs) - Digit(c) * Power(0x100, |xs|) == Unsigned(xs) - Unsigned(ys)
  }

  lemma SubLast(low: Bytes, borrow: bool, xs: Bytes, ys: Bytes, r: Result, cc: Flags)
    requires xs != [] && |xs| == |ys| == |low| + 1
    requires DifferenceIs(low, borrow, xs[..|low|], ys[..|low|])
    requires r == Subtracted(cc, xs[|low|], ys[|low|], borrow)
    ensures DifferenceIs(low + [r.value], r.cc.c, xs, ys)
    ensures r.cc.v <==> !FitsSigned(Signed(xs) - Signed(ys), Power(0x100, |xs|))
    ensures r.cc.n != r.cc.v <==> Signed(xs) < Signed(ys)
  {
    var n := |low|;
    var zs := low + [r.value];
    assert zs[..n] == low;
    UnsignedFits(low);
    SplitTop(xs);
    SplitTop(ys);
    SplitTop(zs);
    SubtractedMeans(cc, xs[n], ys[n], borrow);
    SubTops(Unsigned(xs[..n]), Unsigned(ys[..n]), Unsigned(low), Digit(borrow), xs[n], ys[n], zs[n], Digit(r.cc.c),
            Power(0x100, n));
  }

  lemma Spread(a: int, b: int, c: int, q: int)
    ensures (a - b - c) * q == a * q - b * q - c * q
  {
  }

  lemma SubTops(lowX: nat, lowY: nat, low: nat, borrow: nat, x: byte, y: byte, z: byte, out: nat, q: nat)
    requires low - borrow * q == lowX - lowY && low < q
    requires z - 0x100 * out == x - y - borrow
    ensures low + z * q - out * (0x100 * q) == lowX + x * q - (lowY + y * q)
    ensures var diff := SignedByte(x) - SignedByte(y) - borrow;
            var whole := lowX + SignedByte(x) * q - (lowY + SignedByte(y) * q);
            && (whole < -0x80 * q <==> diff < -0x80) && (whole >= 0x80 * q <==> diff >= 0x80)
            && (whole < 0 <==> diff < 0)
  {
    var diff := SignedByte(x) - SignedByte(y) - borrow;
    Spread(x, y, borrow, q);
    Spread(SignedByte(x), SignedByte(y), borrow, q);
    Spread(z, 0x100 * out, 0, q);
    assert (0x100 * out) * q == out * (0x100 * q);
    UnitsDecide(low, diff, q);
  }

  /** A SUB/SBC chain subtracts numbers of any length: the result is the difference modulo 256^n and C
      the borrow; V says that the difference does not fit as a signed number of that length, and N
      with V gives its sign all the same. */
  lemma {:induction false} SubChainSubtracts(cc: Flags, xs: Bytes, ys: Bytes)
    requires |xs| == |ys|
    ensures var (zs, after) := SubChain(cc, xs, ys);
            && DifferenceIs(zs, after.c, xs, ys)
            && (xs != [] ==> (after.v <==> !FitsSigned(Signed(xs) - Signed(ys), Power(0x100, |xs|))))
            && (xs != [] ==> (after.n != after.v <==> Signed(xs) < Signed(ys)))
  {
    if xs != [] {
      var n := |xs| - 1;
      SubChainSubtracts(cc, xs[..n], ys[..n]);
      var (low, before) := SubChain(cc, xs[..n], ys[..n]);
      var flags := Between(before, low, xs[n]);
      SubLast(low, before.c, xs, ys, Subtracted(flags, xs[n], ys[n], before.c), flags);
    }
  }

  /** The borrow out of a whole difference tells the order. */
  lemma BorrowDecides(u: nat, v: nat, z: nat, borrow: bool, whole: nat)
    requires z - Digit(borrow) * whole == u - v && z < whole
    ensures borrow <==> u < v
  {
  }

  lemma FlagsOrder(cc: Flags, xs: Bytes, ys: Bytes)
    requires |xs| == |ys| > 0
    ensures var after := SubChain(cc, xs, ys).1;
            && (after.c <==> Unsigned(xs) < Unsigned(ys))
            && (after.n != after.v <==> Signed(xs) < Signed(ys))
  {
    SubChainSubtracts(cc, xs, ys);
    var (zs, after) := SubChain(cc, xs, ys);
    UnsignedFits(zs);
    BorrowDecides(Unsigned(xs), Unsigned(ys), Unsigned(zs), after.c, Power(0x100, |xs|));
  }

  /** After a SUB/SBC chain, BLO and BHS branch on the unsigned order of the whole numbers, and BLT
      and BGE on their signed order. */
  lemma BranchesCompare(cc: Flags, xs: Bytes, ys: Bytes)
    requires |xs| == |ys| > 0
    ensures var after := SubChain(cc, xs, ys).1;
            && (Condition(after, BLO) <==> Unsigned(xs) < Unsigned(ys))
            && (Condition(after, BHS) <==> Unsigned(xs) >= Unsigned(ys))
            && (Condition(after, BLT) <==> Signed(xs) < Signed(ys))
            && (Condition(after, BGE) <==> Signed(xs) >= Signed(ys))
  {
    FlagsOrder(cc, xs, ys);
    var after := SubChain(cc, xs, ys).1;
    assert Condition(after, BLO) == after.c && Condition(after, BHS) == !after.c;
    assert Condition(after, BLT) == (after.n != after.v) && Condition(after, BGE) == (after.n == after.v);
  }

  /** Z is left by the last byte alone. */
  lemma ZeroIsOfTop(cc: Flags, xs: Bytes, ys: Bytes)
    requires |xs| == |ys| > 0
    ensures var (zs, after) := SubChain(cc, xs, ys); after.z <==> zs[|zs| - 1] == 0
  {
  }

  /** A number's top byte is not zero exactly when the number is at least a one there. */
  lemma TopByte(zs: Bytes)
    requires zs != []
    ensures zs[|zs| - 1] != 0 <==> Unsigned(zs) >= Power(0x100, |zs| - 1)
  {
    var n := |zs| - 1;
    SplitTop(zs);
    UnsignedFits(zs[..n]);
    if zs[n] != 0 {
      MulMono(1, zs[n], Power(0x100, n));
    }
  }

  /** What the top byte of a difference tells when nothing is borrowed. */
  lemma TopOfDifference(zs: Bytes, xs: Bytes, ys: Bytes)
    requires |zs| == |xs| == |ys| > 0 && DifferenceIs(zs, false, xs, ys)
    ensures zs[|zs| - 1] != 0 <==> Unsigned(xs) - Unsigned(ys) >= Power(0x100, |xs| - 1)
  {
    TopByte(zs);
  }

  lemma HigherFlags(after: Flags)
    ensures Condition(after, BHI) == (!after.c && !after.z)
  {
  }

  /** BHI also asks for Z: it branches on the whole numbers' order exactly when the first is not
      higher, or so much higher that the top byte of the difference is not zero. */
  lemma {:induction false} HigherNeedsTopByte(cc: Flags, xs: Bytes, ys: Bytes)
    requires |xs| == |ys| > 0
    ensures (Condition(SubChain(cc, xs, ys).1, BHI) <==> Unsigned(xs) > Unsigned(ys))
       <==> (Unsigned(xs) <= Unsigned(ys) || Unsigned(xs) - Unsigned(ys) >= Power(0x100, |xs| - 1))
  {
    SubChainSubtracts(cc, xs, ys);
    FlagsOrder(cc, xs, ys);
    ZeroIsOfTop(cc, xs, ys);
    var (zs, after) := SubChain(cc, xs, ys);
    HigherFlags(after);
    PowerPositive(|xs| - 1);
    if !after.c {
      TopOfDifference(zs, xs, ys);
    }
  }

  lemma PowerPositive(n: nat)
    ensures Power(0x100, n) > 0
  {
  }

  lemma TwoBytes(s: Bytes)
    requires |s| == 2
    ensures var lo: int, hi: int := s[0], s[1]; Unsigned(s) == lo + 0x100 * hi
  {
    assert s[..1][..0] == [];
    assert Unsigned(s[..1]) == s[0] * Power(0x100, 0);
    assert Power(0x100, 1) == 0x100 * Power(0x100, 0);
  }

  /** 1 is higher than 0, but as two bytes BHI does not see it. */
  lemma HigherMissed(cc: Flags, one: Bytes, nothing: Bytes)
    requires one == [1, 0] && nothing == [0, 0]
    ensures Unsigned(one) > Unsigned(nothing) && !Condition(SubChain(cc, one, nothing).1, BHI)
  {
    OneIsLeft(cc, one, nothing);
    HigherNeedsTopByte(cc, one, nothing);
  }

  lemma OneIsLeft(cc: Flags, one: Bytes, nothing: Bytes)
    requires one == [1, 0] && nothing == [0, 0]
    ensures Unsigned(one) == 1 && Unsigned(nothing) == 0 && Power(0x100, 1) == 0x100
  {
    TwoBytes(one);
    TwoBytes(nothing);
    assert Power(0x100, 1) == 0x100 * Power(0x100, 0);
  }

  // ---- decimal ----

  /** A byte of two decimal digits. */
  predicate IsBcd(b: byte) { b / 0x10 <= 9 && b % 0x10 <= 9 }

  function Bcd(b: byte): nat { 10 * (b / 0x10) + b % 0x10 }

  predicate AllBcd(s: Bytes) { forall i :: 0 <= i < |s| ==> IsBcd(s[i]) }

  function Decimal(s: Bytes): nat {
    if s == [] then 0 else Decimal(s[..|s| - 1]) + Bcd(s[|s| - 1]) * Power(100, |s| - 1)
  }

  /** The chain with DAA after each addition. */
  function DecimalChain(cc: Flags, xs: Bytes, ys: Bytes): (r: (Bytes, Flags))
    requires |xs| == |ys|
    ensures |r.0| == |xs|
  {
    if xs == [] then ([], cc.(c := false))
    else
      var n := |xs| - 1;
      var (zs, before) := DecimalChain(cc, xs[..n], ys[..n]);
      var flags := Between(before, zs, xs[n]);
      var sum := Added(flags, xs[n], ys[n], flags.c);
      var r := Adjusted(sum.cc, sum.value);
      (zs + [r.value], r.cc)
  }

  /** The two digits of a byte from its halves. */
  lemma Halved(b: byte, hi: nat, lo: nat)
    requires b == 0x10 * hi + lo && lo < 0x10
    ensures b / 0x10 == hi && b % 0x10 == lo
  {
  }

  function Carry(sum: nat): nat { if sum > 9 then 1 else 0 }

  /** DAA adds 6 to a digit exactly where the decimal sum carries out of it. */
  lemma CorrectionIs(cc: Flags, a: byte, upper: nat, lower: nat, over: nat)
    requires upper <= 18 && lower <= 19 && over == (if lower > 0xF then 1 else 0)
    requires cc.h == (lower > 0xF) && a / 0x10 == upper + over - 0x10 * Digit(cc.c) && a % 0x10 == lower - 0x10 * over
    ensures var r := Adjusted(cc, a);
            var carry := Carry(upper + Carry(lower));
            Digit(r.cc.c) == carry && r.value == (a + 6 * Carry(lower) + 0x60 * carry) % 0x100
  {
    assert (if cc.h || a % 0x10 > 9 then 6 else 0) == 6 * Carry(lower);
  }

  /** DAA's correction carries between the digits where the decimal sum does. */
  lemma Corrected(cc: Flags, a: byte, upper: nat, lower: nat)
    requires upper <= 18 && lower <= 19
    requires a + 0x100 * Digit(cc.c) == 0x10 * upper + lower && cc.h == (lower > 0xF)
    ensures var r := Adjusted(cc, a);
            var tens := upper + Carry(lower);
            && Digit(r.cc.c) == Carry(tens)
            && r.value == 0x10 * (tens - 10 * Carry(tens)) + (lower - 10 * Carry(lower))
  {
    var over := if lower > 0xF then 1 else 0;
    Halved(a, upper + over - 0x10 * Digit(cc.c), lower - 0x10 * over);
    var tens := upper + Carry(lower);
    CorrectionIs(cc, a, upper, lower, over);
    var sum := a + 6 * Carry(lower) + 0x60 * Carry(tens);
    Remainder(sum, Carry(tens) - Digit(cc.c), 0x10 * (tens - 10 * Carry(tens)) + (lower - 10 * Carry(lower)));
  }

  lemma Remainder(sum: int, k: int, r: nat)
    requires r < 0x100 && sum == 0x100 * k + r
    ensures sum % 0x100 == r
  {
  }

  /** What DAA makes of a sum, by the sums of the upper and the lower digits. */
  lemma DigitSums(cc: Flags, a: byte, upper: nat, lower: nat)
    requires upper <= 18 && lower <= 19
    requires a + 0x100 * Digit(cc.c) == 0x10 * upper + lower && cc.h == (lower > 0xF)
    ensures var r := Adjusted(cc, a);
            IsBcd(r.value) && Bcd(r.value) + 100 * Digit(r.cc.c) == 10 * upper + lower
  {
    Corrected(cc, a, upper, lower);
    var tens := upper + Carry(lower);
    Halved(Adjusted(cc, a).value, tens - 10 * Carry(tens), lower - 10 * Carry(lower));
  }

  /** After adding two bytes of decimal digits, DAA gives the digits of the decimal sum, and C its carry. */
  lemma AdjustedMeans(cc: Flags, x: byte, y: byte, carry: bool)
    requires IsBcd(x) && IsBcd(y)
    ensures var sum := Added(cc, x, y, carry);
            var r := Adjusted(sum.cc, sum.value);
            IsBcd(r.value) && Bcd(r.value) + 100 * Digit(r.cc.c) == Bcd(x) + Bcd(y) + Digit(carry)
  {
    var upper: nat, lower: nat := x / 0x10 + y / 0x10, x % 0x10 + y % 0x10 + Digit(carry);
    var sum := Added(cc, x, y, carry);
    AddedMeans(cc, x, y, carry);
    DigitSums(sum.cc, sum.value, upper, lower);
  }

  /** DAA of any byte: 6 is added for H or a low digit above 9, $60 for C or a byte above $99, and C is set
      by the second; H and V stay. */
  lemma AdjustedIs(cc: Flags, a: byte)
    ensures var r := Adjusted(cc, a);
            var low, high := cc.h || a % 0x10 > 9, cc.c || a > 0x99;
            && r.value == (a + (if low then 6 else 0) + if high then 0x60 else 0) % 0x100
            && r.cc == cc.(c := high, z := r.value == 0, n := r.value > 0x7F)
  {
    AboveNinetyNine(a);
  }

  lemma AboveNinetyNine(a: byte)
    ensures a > 0x99 <==> a / 0x10 > 9 || (a / 0x10 >= 9 && a % 0x10 > 9)
  {
    DivMod(a, 0x10);
  }

  /** An ADD/ADC chain with DAA after each addition adds numbers of any number of decimal digits: the
      result is the digits of the sum, all of them 0 to 9, and C the decimal carry out. */
  lemma {:induction false} DecimalChainAdds(cc: Flags, xs: Bytes, ys: Bytes)
    requires |xs| == |ys| && AllBcd(xs) && AllBcd(ys)
    ensures var (zs, after) := DecimalChain(cc, xs, ys);
            AllBcd(zs) && Decimal(zs) + Digit(after.c) * Power(100, |xs|) == Decimal(xs) + Decimal(ys)
  {
    if xs != [] {
      var n := |xs| - 1;
      DecimalChainAdds(cc, xs[..n], ys[..n]);
      var (low, before) := DecimalChain(cc, xs[..n], ys[..n]);
      var (zs, after) := DecimalChain(cc, xs, ys);
      assert zs[..n] == low;
      AdjustedMeans(Between(before, low, xs[n]), xs[n], ys[n], before.c);
      DecimalTops(Decimal(xs[..n]), Decimal(ys[..n]), Decimal(low), Digit(before.c), Bcd(xs[n]), Bcd(ys[n]), Bcd(zs[n]),
                  Digit(after.c), Power(100, n));
    }
  }

  lemma DecimalTops(lowX: nat, lowY: nat, low: nat, carry: nat, x: nat, y: nat, z: nat, out: nat, q: nat)
    requires low + carry * q == lowX + lowY && z + 100 * out == x + y + carry
    ensures low + z * q + out * (100 * q) == lowX + x * q + (lowY + y * q)
  {
    MulDist(x + y, carry, q);
    MulDist(x, y, q);
    MulDist(z, 100 * out, q);
    assert (100 * out) * q == out * (100 * q);
  }

  lemma {:induction false} DecimalFits(s: Bytes)
    requires AllBcd(s)
    ensures Decimal(s) < Power(100, |s|)
  {
    if s != [] {
      DecimalFits(s[..|s| - 1]);
      MulMono(Bcd(s[|s| - 1]), 99, Power(100, |s| - 1));
    }
  }

  lemma BcdUnique(a: byte, b: byte)
    requires IsBcd(a) && IsBcd(b) && Bcd(a) == Bcd(b)
    ensures a == b
  {
  }

  /** A decimal number of a given length has one representation: the digits the chain gives are the
      digits of the sum. */
  lemma {:induction false} DecimalUnique(s: Bytes, t: Bytes)
    requires |s| == |t| && AllBcd(s) && AllBcd(t) && Decimal(s) == Decimal(t)
    ensures s == t
  {
    if s != [] {
      var n := |s| - 1;
      DecimalFits(s[..n]);
      DecimalFits(t[..n]);
      QuotientUnique(Power(100, n), Bcd(s[n]), Decimal(s[..n]), Bcd(t[n]), Decimal(t[..n]));
      BcdUnique(s[n], t[n]);
      DecimalUnique(s[..n], t[..n]);
      assert s == s[..n] + [s[n]] && t == t[..n] + [t[n]];
    }
  }
}
