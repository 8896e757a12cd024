/** Bit reversal of machine words by table lookup (nat_eval/enc_lib/ff3/ff_lib.h). */
module FfLib {
  import opened Bits

  function R2(n: nat): (s: seq<nat>)
    ensures |s| == 4
  {
    [n, n + 2 * 64, n + 1 * 64, n + 3 * 64]
  }

  function R4(n: nat): (s: seq<nat>)
    ensures |s| == 16
  {
    R2(n) + R2(n + 2 * 16) + R2(n + 1 * 16) + R2(n + 3 * 16)
  }

  function R6(n: nat): (s: seq<nat>)
    ensures |s| == 64
  {
    R4(n) + R4(n + 2 * 4) + R4(n + 1 * 4) + R4(n + 3 * 4)
  }

  /** The 256-entry table as the macros expand it. */
  function ByteTable(): (t: seq<nat>)
    ensures |t| == 256
  {
    R6(0) + R6(2) + R6(1) + R6(3)
  }

  /** A two-bit digit reversed. */
  function Rev2(d: nat): nat { if d == 1 then 2 else if d == 2 then 1 else d }

  lemma FourParts(a: seq<nat>, b: seq<nat>, c: seq<nat>, d: seq<nat>, w: nat, q: nat, r: nat)
    requires |a| == |b| == |c| == |d| == w && q < 4 && r < w
    ensures q * w + r < 4 * w
    ensures (a + b + c + d)[q * w + r] == (if q == 0 then a else if q == 1 then b else if q == 2 then c else d)[r]
  {
  }

  lemma R4At(n: nat, c: nat, d: nat)
    requires c < 4 && d < 4
    ensures R4(n)[c * 4 + d] == n + Rev2(d) * 64 + Rev2(c) * 16
  {
    FourParts(R2(n), R2(n + 2 * 16), R2(n + 1 * 16), R2(n + 3 * 16), 4, c, d);
  }

  lemma R6At(n: nat, b: nat, c: nat, d: nat)
    requires b < 4 && c < 4 && d < 4
    ensures R6(n)[b * 16 + (c * 4 + d)] == n + Rev2(d) * 64 + Rev2(c) * 16 + Rev2(b) * 4
  {
    hide R4;
    FourParts(R4(n), R4(n + 2 * 4), R4(n + 1 * 4), R4(n + 3 * 4), 16, b, c * 4 + d);
    R4At(n, c, d);
    R4At(n + 2 * 4, c, d);
    R4At(n + 1 * 4, c, d);
    R4At(n + 3 * 4, c, d);
  }

  lemma TableAt(a: nat, b: nat, c: nat, d: nat)
    requires a < 4 && b < 4 && c < 4 && d < 4
    ensures ByteTable()[a * 64 + (b * 16 + (c * 4 + d))] == Rev2(d) * 64 + Rev2(c) * 16 + Rev2(b) * 4 + Rev2(a)
  {
    hide R6;
    FourParts(R6(0), R6(2), R6(1), R6(3), 64, a, b * 16 + (c * 4 + d));
    R6At(0, b, c, d);
    R6At(2, b, c, d);
    R6At(1, b, c, d);
    R6At(3, b, c, d);
  }

  lemma LowDigit(x: nat, d: nat)
    requires d < 4
    ensures Shr(4 * x + d, 2) == x && Rev(4 * x + d, 2) == Rev2(d)
  {
    var i := 4 * x + d;
    assert i / 2 / 2 == x && i % 2 == d % 2 && i / 2 % 2 == d / 2;
    assert Shr(i / 2, 1) == Shr(i / 2 / 2, 0);
    assert Shr(i, 1) == Shr(i / 2, 0);
    assert Bit(i, 1) == d / 2 && Bit(i, 0) == d % 2;
    assert Rev(i, 1) == 2 * Rev(i, 0) + Bit(i, 0);
  }

  /** Reversing one digit after another. */
  lemma DigitFirst(i: nat, x: nat, d: nat, n: nat, p: nat)
    requires d < 4 && i == 4 * x + d && n >= 2 && p == Pow2(n - 2)
    ensures Rev(i, n) == Rev2(d) * p + Rev(x, n - 2)
  {
    LowDigit(x, d);
    RevConcat(i, 2, n - 2);
  }

  lemma RevDigits(i: nat, a: nat, b: nat, c: nat, d: nat)
    requires a < 4 && b < 4 && c < 4 && d < 4 && i == a * 64 + (b * 16 + (c * 4 + d))
    ensures Rev(i, 8) == Rev2(d) * 64 + Rev2(c) * 16 + Rev2(b) * 4 + Rev2(a)
  {
    hide Rev, Pow2, Shr, Rev2;
    Pow2Values();
    var x, y := a * 16 + b * 4 + c, a * 4 + b;
    DigitFirst(i, x, d, 8, 64);
    DigitFirst(x, y, c, 6, 16);
    DigitFirst(y, a, b, 4, 4);
    LowDigit(0, a);
  }

  /** The table reverses a byte. */
  lemma TableReverses(i: nat)
    requires i < 256
    ensures ByteTable()[i] == Rev(i, 8)
  {
    hide *;
    var x := i / 4;
    var y := x / 4;
    var a, b, c, d := y / 4, y % 4, x % 4, i % 4;
    assert i == a * 64 + (b * 16 + (c * 4 + d));
    TableAt(a, b, c, d);
    RevDigits(i, a, b, c, d);
  }

  /** `bit_reverse32`: four table lookups, bytes swapped end for end. */
  function BitReverse32(v: nat): nat
    requires v < 0x1_0000_0000
  {
    var t := ByteTable();
    t[v % 256] * 0x100_0000 + t[v / 0x100 % 256] * 0x1_0000 + t[v / 0x1_0000 % 256] * 0x100 + t[v / 0x100_0000 % 256]
  }

  lemma ShrByte(v: nat)
    ensures Shr(v, 8) == v / 256 && Low(v, 8) == v % 256
  {
    Pow2Values();
    LowIsMod(v, 8);
  }

  lemma ByteFirst(v: nat, n: nat)
    ensures Rev(v, 8 + n) == ByteTable()[v % 256] * Pow2(n) + Rev(v / 256, n)
  {
    ShrByte(v);
    RevConcat(v, 8, n);
    RevLow(v, 8);
    TableReverses(v % 256);
  }

  lemma RevNone(v: nat)
    ensures Rev(v, 0) == 0
  {
  }

  lemma BitReverse32IsRev(v: nat)
    requires v < 0x1_0000_0000
    ensures BitReverse32(v) == Rev(v, 32)
  {
    hide ByteTable, Rev, Pow2;
    ByteFirst(v, 24);
    ByteFirst(v / 0x100, 16);
    ByteFirst(v / 0x1_0000, 8);
    ByteFirst(v / 0x100_0000, 0);
    RevNone(v / 0x1_0000_0000);
    assert v / 0x100 / 256 == v / 0x1_0000 && v / 0x1_0000 / 256 == v / 0x100_0000
        && v / 0x100_0000 / 256 == v / 0x1_0000_0000;
    Pow2Values();
  }

  /** `bit_reverse_m`. */
  function BitReverseM(v: nat, m: nat): nat
    requires v < 0x1_0000_0000 && m <= 32
  {
    Shr(BitReverse32(v), 32 - m)
  }

  /** It reverses the low m bits and drops the others. */
  lemma BitReverseMIsRev(v: nat, m: nat)
    requires v < 0x1_0000_0000 && m <= 32
    ensures BitReverseM(v, m) == Rev(v, m)
  {
    hide BitReverse32;
    BitReverse32IsRev(v);
    RevShr(v, m, 32 - m);
  }
}
