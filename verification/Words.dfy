/** Fixed-width integers and the byte order they are stored in.

    A byte, a 16-bit and a 32-bit word are the integers in their range, so that
    plain arithmetic is exact and a wrap-around has to be written out. */
module Words {
  const WORD_16 := 0x1_0000
  const WORD_32 := 0x1_0000_0000

  type byte = x: int | 0 <= x < 0x100
  type u16 = x: int | 0 <= x < 0x1_0000
  type u32 = x: int | 0 <= x < 0x1_0000_0000

  type Bytes = seq<byte>

  /** Conversion to an unsigned 16-bit or 32-bit word: the value modulo 2^16, 2^32. */
  function ToU16(x: int): u16 { x % WORD_16 }
  function ToU32(x: int): u32 { x % WORD_32 }

  /** A byte as a two's-complement number. */
  function SignedByte(b: byte): int { if b >= 0x80 then b - 0x100 else b }

  function Min(a: int, b: int): int { if a < b then a else b }
  function Max(a: int, b: int): int { if a > b then a else b }

  datatype Option<+T> = None | Some(value: T)

  /** The quotient of a division by a number the solver does not know. */
  function Div(n: nat, d: nat): nat
    requires d > 0
  {
    DivIsNat(n, d);
    n / d
  }

  lemma DivIsNat(n: nat, d: nat)
    requires d > 0
    ensures n / d >= 0
  {
  }

  /** Rounded-up division, as `(n + d - 1) / d` without wrap-around. */
  function CeilDiv(n: nat, d: nat): nat
    requires d > 0
  {
    Div(n + d - 1, d)
  }

  function Pow2(k: nat): (p: nat)
    ensures p > 0
  {
    if k == 0 then 1 else 2 * Pow2(k - 1)
  }

  // ---- little-endian words in a byte sequence ----

  function Le16Bytes(v: u16): Bytes { [v % 0x100, v / 0x100] }

  function Le32Bytes(v: u32): Bytes {
    [v % 0x100, v / 0x100 % 0x100, v / 0x1_0000 % 0x100, v / 0x100_0000]
  }

  function Le16(s: Bytes, off: nat): u16
    requires off + 2 <= |s|
  {
    var lo: int, hi: int := s[off], s[off + 1];
    lo + 0x100 * hi
  }

  function Le32(s: Bytes, off: nat): u32
    requires off + 4 <= |s|
  {
    var lo: int, hi: int := Le16(s, off), Le16(s, off + 2);
    lo + WORD_16 * hi
  }

  // ---- pieces of a byte sequence ----

  /** `data` is stored in `s` at offset `off`. */
  predicate At(s: Bytes, off: nat, data: Bytes) {
    off + |data| <= |s| && s[off..off + |data|] == data
  }

  /** `s` with the bytes from `off` on overwritten by `data`. */
  function Splice(s: Bytes, off: nat, data: Bytes): (r: Bytes)
    requires off + |data| <= |s|
  {
    s[..off] + data + s[off + |data|..]
  }

  /** What is stored outside the spliced range stays stored. */
  lemma AtOutside(s: Bytes, t: Bytes, off: nat, data: Bytes, from: nat, to: nat)
    requires |s| == |t|
    requires forall k :: 0 <= k < |s| && !(from <= k < to) ==> t[k] == s[k]
    requires At(s, off, data)
    requires off + |data| <= from || to <= off
    ensures At(t, off, data)
  {
  }

  /** What is stored in a piece is stored in the whole. */
  lemma AtWithin(s: Bytes, off: nat, data: Bytes, from: nat, part: Bytes)
    requires At(s, off, data) && At(data, from, part)
    ensures At(s, off + from, part)
  {
    assert forall k :: 0 <= k < |data| ==> s[off + k] == s[off..off + |data|][k] == data[k];
    assert forall k :: 0 <= k < |part| ==> data[from + k] == data[from..from + |part|][k] == part[k];
    forall k | 0 <= k < |part|
      ensures s[off + from + k] == part[k]
    {
      assert s[off + (from + k)] == data[from + k];
    }
  }

  function Zeros(n: nat): (r: Bytes)
    ensures |r| == n
  {
    seq(n, _ => 0)
  }

  lemma Le32Digits(v: u32)
    ensures v == v % 0x100 + 0x100 * (v / 0x100 % 0x100) + WORD_16 * (v / 0x1_0000 % 0x100 + 0x100 * (v / 0x100_0000))
  {
    var a, b, c, d: int := v % 0x100, v / 0x100, v / 0x1_0000, v / 0x100_0000;
    assert c == b / 0x100 && d == c / 0x100;
  }

  lemma Le32BytesReadBack(s: Bytes, off: nat, v: u32)
    requires At(s, off, Le32Bytes(v))
    ensures Le32(s, off) == v
  {
    var b := Le32Bytes(v);
    assert s[off] == s[off..off + 4][0] == b[0] && s[off + 1] == s[off..off + 4][1] == b[1];
    assert s[off + 2] == s[off..off + 4][2] == b[2] && s[off + 3] == s[off..off + 4][3] == b[3];
    Le32Digits(v);
  }

  // ---- products, for the solver ----

  lemma MulMono(a: nat, b: nat, c: nat)
    requires a <= b
    ensures a * c <= b * c && c * a <= c * b
  {
  }

  lemma MulDist(a: int, b: int, c: int)
    ensures (a + b) * c == a * c + b * c
    ensures c * (a + b) == c * a + c * b
  {
  }

  lemma QuotientUnique(d: int, q: int, r: int, q': int, r': int)
    requires 0 <= r < d && 0 <= r' < d
    requires q * d + r == q' * d + r'
    ensures q == q' && r == r'
  {
    MulDist(q', q - q', d);
    if q > q' {
      MulMono(1, q - q', d);
    } else if q < q' {
      MulDist(q, q' - q, d);
      MulMono(1, q' - q, d);
    }
  }

  lemma DivMod(n: int, d: int)
    requires d > 0
    ensures n == n / d * d + n % d && 0 <= n % d < d
  {
  }

  lemma DivUnique(n: int, d: int, q: int, r: int)
    requires d > 0 && n == q * d + r && 0 <= r < d
    ensures n / d == q && n % d == r
  {
    DivMod(n, d);
    QuotientUnique(d, q, r, n / d, n % d);
  }

  lemma CeilDivBounds(n: nat, d: nat)
    requires d > 0
    ensures 0 <= CeilDiv(n, d) * d - n < d
  {
    DivMod(n + d - 1, d);
  }

  lemma CeilDivUnique(n: nat, d: nat, q: nat)
    requires d > 0 && 0 <= q * d - n < d
    ensures CeilDiv(n, d) == q
  {
    DivUnique(n + d - 1, d, q, n + d - 1 - q * d);
  }

  lemma CeilDivZero(d: nat)
    requires d > 0
    ensures CeilDiv(0, d) == 0
  {
    DivUnique(d - 1, d, 0, d - 1);
  }

  lemma QuotientAtLeast(n: nat, d: nat, q: nat)
    requires d > 0 && q * d <= n
    ensures n / d >= q
  {
    DivMod(n, d);
    if n / d < q {
      MulMono(n / d + 1, q, d);
      MulDist(n / d, 1, d);
      assert false;
    }
  }
}
