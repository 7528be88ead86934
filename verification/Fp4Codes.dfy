/** The 4-bit weight code and the three bit patterns the scripts decode it into. The code is
    E2M1 of the OCP Microscaling Formats (MX) Specification v1.0, section 5.3.3: sign, two
    exponent bits of bias 1, one mantissa bit, exponent field 0 subnormal. */
module Fp4Codes {

  type Nibble = n: bv32 | n < 16

  function Exp2(e: int): (r: real)
    ensures r > 0.0
    decreases if e < 0 then -e else e
  {
    if e == 0 then 1.0 else if e > 0 then 2.0 * Exp2(e - 1) else Exp2(e + 1) / 2.0
  }

  function Sign(bit: bv32): real {
    if bit == 0 then 1.0 else -1.0
  }

  /** A binary floating-point value from its fields: subnormal when the exponent field is 0. */
  function FromFields(sign: real, exp: int, bias: int, frac: int, scale: real): real
    requires scale != 0.0
  {
    if exp == 0 then sign * Exp2(1 - bias) * (frac as real / scale)
    else sign * Exp2(exp - bias) * (1.0 + frac as real / scale)
  }

  /** MX E2M1. */
  function E2M1(n: Nibble): real {
    FromFields(Sign(n >> 3), ((n >> 1) & 3) as int, 1, (n & 1) as int, 2.0)
  }

  /** IEEE single precision, finite patterns. */
  function Float32(b: bv32): real {
    FromFields(Sign(b >> 31), ((b >> 23) & 0xFF) as int, 127, (b & 0x7F_FFFF) as int, 8388608.0)
  }

  /** FP8 E4M3, finite patterns. */
  function E4M3(b: bv32): real {
    FromFields(Sign((b >> 7) & 1), ((b >> 3) & 15) as int, 7, (b & 7) as int, 8.0)
  }

  /** All ones when `c` is non-zero: the `-min(c, 1)` mask. */
  function Mask(c: bv32): bv32 {
    if c == 0 then 0 else 0xFFFF_FFFF
  }

  /** The GEMV's lookup entry. */
  function LutBits(n: Nibble): bv32 {
    var e, m := (n >> 1) & 3, n & 1;
    (((n & 8) << 28) | ((126 + e) << 23) | ((m << 22) & Mask(e))) & Mask(e | m)
  }

  /** The prefill macros' single-precision pattern. */
  function MacroBits(n: Nibble): bv32 {
    ((n & 8) << 28) | ((126 + ((n >> 1) & 3)) << 23) | ((n & 1) << 22)
  }

  /** The integer dequant's e4m3 byte. */
  function IntCode(n: Nibble): bv32 {
    ((n & 8) << 4) | ((((n >> 1) & 3) + 6) << 3) | ((n & 1) << 2)
  }

  lemma Powers()
    ensures Exp2(-1) == 0.5 && Exp2(0) == 1.0 && Exp2(1) == 2.0 && Exp2(2) == 4.0
  {
    assert Exp2(1) == 2.0 * Exp2(0);
  }

  /** The fields of every lookup entry. */
  lemma LutFields(n: Nibble)
    ensures var b := LutBits(n);
            && (n & 7 == 0 ==> b == 0)
            && (n & 7 != 0 ==> b >> 31 == n >> 3 && (b >> 23) & 0xFF == 126 + ((n >> 1) & 3))
            && (n & 7 != 0 ==> b & 0x7F_FFFF == if (n >> 1) & 3 == 0 then 0 else (n & 1) << 22)
  {
  }

  lemma MacroFields(n: Nibble)
    ensures var b := MacroBits(n);
            b >> 31 == n >> 3 && (b >> 23) & 0xFF == 126 + ((n >> 1) & 3) && b & 0x7F_FFFF == (n & 1) << 22
  {
  }

  lemma IntFields(n: Nibble)
    ensures var b := IntCode(n);
            b < 256 && (b >> 7) & 1 == n >> 3 && (b >> 3) & 15 == ((n >> 1) & 3) + 6 && b & 7 == (n & 1) << 2
  {
  }

  /** The three fields of a code, as integers. */
  lemma Split(n: Nibble) returns (s: bv32, e: bv32, m: bv32)
    ensures s == n >> 3 && e == (n >> 1) & 3 && m == n & 1
    ensures s == 0 || s == 1
    ensures e as int == 0 || e as int == 1 || e as int == 2 || e as int == 3
    ensures (e == 0 <==> e as int == 0) && (e == 1 <==> e as int == 1) && (e == 2 <==> e as int == 2)
    ensures (m == 0 && m as int == 0) || (m == 1 && m as int == 1)
    ensures n & 7 == 0 <==> e == 0 && m == 0
  {
    s, e, m := n >> 3, (n >> 1) & 3, n & 1;
  }

  /** The magnitudes of the MX grid, by the low three bits. */
  const GRID: seq<real> := [0.0, 0.5, 1.0, 1.5, 2.0, 3.0, 4.0, 6.0]

  lemma E2M1Grid(n: Nibble)
    ensures (n & 7) as int < 8 && E2M1(n) == Sign(n >> 3) * GRID[(n & 7) as int]
  {
    var s, e, m := Split(n);
    Powers();
    assert n & 7 == (e << 1) | m;
    if e == 0 && m == 0 { assert (n & 7) as int == 0; }
    else if e == 0 { assert (n & 7) as int == 1; }
    else if e == 1 && m == 0 { assert (n & 7) as int == 2; }
    else if e == 1 { assert (n & 7) as int == 3; }
    else if e == 2 && m == 0 { assert (n & 7) as int == 4; }
    else if e == 2 { assert (n & 7) as int == 5; }
    else if m == 0 { assert (n & 7) as int == 6; }
    else { assert (n & 7) as int == 7; }
  }

  /** The GEMV's lookup entries are the MX values, the subnormal included. */
  lemma LutIsE2M1(n: Nibble)
    ensures Float32(LutBits(n)) == E2M1(n)
  {
    var s, e, m := Split(n);
    LutFields(n);
    Powers();
    if n & 7 != 0 {
      if e == 0 { assert (126 + e) as int == 126; }
      else if e == 1 { assert (126 + e) as int == 127; }
      else if e == 2 { assert (126 + e) as int == 128; }
      else { assert (126 + e) as int == 129; }
    }
  }

  /** What the prefill macros decode: no subnormal case, so exponent field 0 reads as one half. */
  function NoSubnormal(n: Nibble): real {
    FromFields(Sign(n >> 3), ((n >> 1) & 3) as int + 126, 127, (n & 1) as int, 2.0)
  }

  lemma MacroValue(n: Nibble)
    ensures Float32(MacroBits(n)) == NoSubnormal(n)
  {
    var s, e, m := Split(n);
    MacroFields(n);
    if e == 0 { assert (126 + e) as int == 126; }
    else if e == 1 { assert (126 + e) as int == 127; }
    else if e == 2 { assert (126 + e) as int == 128; }
    else { assert (126 + e) as int == 129; }
  }

  lemma IntValue(n: Nibble)
    ensures E4M3(IntCode(n)) == NoSubnormal(n)
  {
    var s, e, m := Split(n);
    IntFields(n);
    if e == 0 { assert (e + 6) as int == 6; }
    else if e == 1 { assert (e + 6) as int == 7; }
    else if e == 2 { assert (e + 6) as int == 8; }
    else { assert (e + 6) as int == 9; }
  }

  /** The integer e4m3 code denotes the same number as the single-precision pattern, for every code. */
  lemma IntIsMacro(n: Nibble)
    ensures E4M3(IntCode(n)) == Float32(MacroBits(n))
  {
    MacroValue(n);
    IntValue(n);
  }

  /** The prefill macros decode the MX value exactly when the exponent field is not 0. */
  lemma MacroIsE2M1Iff(n: Nibble)
    ensures Float32(MacroBits(n)) == E2M1(n) <==> (n >> 1) & 3 != 0
  {
    var s, e, m := Split(n);
    MacroValue(n);
    Powers();
  }

  /** What the prefill patterns read as, by the low three bits. */
  const MACRO_GRID: seq<real> := [0.5, 0.75, 1.0, 1.5, 2.0, 3.0, 4.0, 6.0]

  lemma MacroGrid(n: Nibble)
    ensures (n & 7) as int < 8 && Float32(MacroBits(n)) == Sign(n >> 3) * MACRO_GRID[(n & 7) as int]
  {
    var s, e, m := Split(n);
    MacroValue(n);
    Powers();
    assert n & 7 == (e << 1) | m;
    if e == 0 && m == 0 { assert (n & 7) as int == 0; }
    else if e == 0 { assert (n & 7) as int == 1; }
    else if e == 1 && m == 0 { assert (n & 7) as int == 2; }
    else if e == 1 { assert (n & 7) as int == 3; }
    else if e == 2 && m == 0 { assert (n & 7) as int == 4; }
    else if e == 2 { assert (n & 7) as int == 5; }
    else if m == 0 { assert (n & 7) as int == 6; }
    else { assert (n & 7) as int == 7; }
  }

  /** The sign is the fourth bit. */
  lemma SignOfCode(n: Nibble)
    ensures Sign(n >> 3) == if n < 8 then 1.0 else -1.0
  {
  }

  /** The table check: all 16 entries of the lookup against the MX values. */
  method CheckDequantMath() returns (bad: seq<bv32>)
    ensures bad == []
  {
    bad := [];
    for i: int := 0 to 16
      invariant bad == []
    {
      var n: Nibble := i as bv32;
      LutIsE2M1(n);
      if Float32(LutBits(n)) != E2M1(n) {
        bad := bad + [n];
      }
    }
  }

  // ----- packed bytes

  type Byte = b: int | 0 <= b < 256

  /** Code `odd` of a packed byte, low nibble first. */
  function Code(b: Byte, odd: int): (c: int)
    ensures 0 <= c < 16
  {
    if odd == 0 then b % 16 else b / 16
  }

  /** A byte that packs two codes, the first in its low half, gives them back in that order. */
  lemma CodesOfByte(lo: int, hi: int, b: Byte)
    requires 0 <= lo < 16 && 0 <= hi < 16 && b == lo + 16 * hi
    ensures Code(b, 0) == lo && Code(b, 1) == hi
  {
  }

  /** A code through the single-precision macro. */
  function Decode32(c: int): real
    requires 0 <= c < 16
  {
    Float32(MacroBits(c as bv32))
  }

  /** A code through the integer macro. */
  function Decode8(c: int): real
    requires 0 <= c < 16
  {
    E4M3(IntCode(c as bv32))
  }

  lemma SameDecode(c: int)
    requires 0 <= c < 16
    ensures Decode8(c) == Decode32(c)
  {
    IntIsMacro(c as bv32);
  }
}
