/** Known values of the ChaCha20 block, and its inverse: nothing but the key stream and the input is
    needed to undo the twenty rounds. */
module ChaChaVectors {
  import opened Basics
  import opened MachineWords
  import opened ChaCha
  import opened ChaChaWords

  // ---------------------------------------------------------------- numerals

  /** The lowest hexadecimal digit of a word. */
  function Hex(x: bv32): nat {
    (if x & 1 == 1 then 1 else 0) + (if x & 2 == 2 then 2 else 0) + (if x & 4 == 4 then 4 else 0)
    + if x & 8 == 8 then 8 else 0
  }

  function Numeral(x: bv32): nat {
    Hex(x) + 0x10 * Hex(x >> 4) + 0x100 * Hex(x >> 8) + 0x1000 * Hex(x >> 12)
    + 0x1_0000 * Hex(x >> 16) + 0x10_0000 * Hex(x >> 20) + 0x100_0000 * Hex(x >> 24) + 0x1000_0000 * Hex(x >> 28)
  }

  lemma HexBits(x: bv32)
    ensures Hex(x) == (if Lsb(x) then 1 else 0) + (if Lsb(Half(x)) then 2 else 0) +
        (if Lsb(Half(Half(x))) then 4 else 0)
                      + if Lsb(Half(Half(Half(x)))) then 8 else 0
  {
  }

  lemma NumFour(x: bv32, n: nat)
    ensures Num(x, n + 4) == Hex(x) + 16 * Num(Shift4(x), n)
  {
    HexBits(x);
    FourHalves(x);
    hide Lsb, Half, Hex, Shift4;
    var h := Half(x);
    var i := Half(h);
    assert Num(x, n + 4) == (if Lsb(x) then 1 else 0) + 2 * Num(h, n + 3);
    assert Num(h, n + 3) == (if Lsb(h) then 1 else 0) + 2 * Num(i, n + 2);
    assert Num(i, n + 2) == (if Lsb(i) then 1 else 0) + 2 * Num(Half(i), n + 1);
  }

  lemma Shifts(x: bv32)
    ensures Shift4(x) == x >> 4 && Shift4(x >> 4) == x >> 8 && Shift4(x >> 8) == x >> 12 && Shift4(x >> 12) == x >> 16
    ensures Shift4(x >> 16) == x >> 20 && Shift4(x >> 20) == x >> 24 && Shift4(x >> 24) == x >> 28
  {
  }

  lemma NatNumeral(x: bv32)
    ensures Nat(x) == Numeral(x)
  {
    Shifts(x);
    var a, b, c, d, e, f, g := x >> 4, x >> 8, x >> 12, x >> 16, x >> 20, x >> 24, x >> 28;
    Sixteens(x, a, b, c, d, e, f, g);
  }

  lemma Sixteens(x: bv32, a: bv32, b: bv32, c: bv32, d: bv32, e: bv32, f: bv32, g: bv32)
    requires Shift4(x) == a && Shift4(a) == b && Shift4(b) == c && Shift4(c) == d && Shift4(d) == e &&
        Shift4(e) == f && Shift4(f) == g
    ensures Nat(x) == Hex(x) + 0x10 * Hex(a) + 0x100 * Hex(b) + 0x1000 * Hex(c)
      + 0x1_0000 * Hex(d) + 0x10_0000 * Hex(e) + 0x100_0000 * Hex(f) + 0x1000_0000 * Hex(g)
  {
    hide Hex, Shift4, Num;
    NumFour(x, 28);
    NumFour(a, 24);
    NumFour(b, 20);
    NumFour(c, 16);
    NumFour(d, 12);
    NumFour(e, 8);
    NumFour(f, 4);
    NumFour(g, 0);
    NoBits(Shift4(g));
  }

  lemma NoBits(x: bv32)
    ensures Num(x, 0) == 0
  {
  }

  // ---------------------------------------------------------------- the vectors

  /** Section 2.1.1 of RFC 8439. */
  lemma QuarterVector()
    ensures Quarter(Four(0x11111111, 0x01020304, 0x9b8d6f43, 0x01234567))
         == Four(0xea2a92f4, 0xcb1cf8ce, 0x4581472e, 0x5881c4bb)
  {
    hide Nat, Quarter;
    var q := Quad(0x11111111, 0x01020304, 0x9b8d6f43, 0x01234567);
    QuarterIsWords(q);
    assert QuarterWords(q) == Quad(0xea2a92f4, 0xcb1cf8ce, 0x4581472e, 0x5881c4bb);
    NatNumeral(0x11111111);
    NatNumeral(0x01020304);
    NatNumeral(0x9b8d6f43);
    NatNumeral(0x01234567);
    NatNumeral(0xea2a92f4);
    NatNumeral(0xcb1cf8ce);
    NatNumeral(0x4581472e);
    NatNumeral(0x5881c4bb);
  }

  /** The state of section 2.3.2 of RFC 8439: constants, key 00 01 02 ..., counter and nonce. */
  const EXAMPLE: Matrix :=
    Matrix(0x61707865, 0x3320646e, 0x79622d32, 0x6b206574, 0x03020100, 0x07060504, 0x0b0a0908, 0x0f0e0d0c,
           0x13121110, 0x17161514, 0x1b1a1918, 0x1f1e1d1c, 0x00000001, 0x09000000, 0x4a000000, 0x00000000)

  /** Its state after 4, 8, 12, 16 and 20 rounds. */
  const AFTER_4: Matrix :=
    Matrix(0xcf1a7584, 0x048927ec, 0x54051fda, 0xc244ff28, 0x901d2f40, 0x7974b81c, 0x378dcfb4, 0xcd47fd0e,
           0x2dafb216, 0x27c89cd6, 0xcd3c9aa0, 0x79fc89c7, 0x10aef18d, 0x16218765, 0x68f76705, 0x04d6ee22)

  const AFTER_8: Matrix :=
    Matrix(0x9a2d3589, 0x0b23fc4e, 0x40af3b6b, 0xceea8144, 0x0a1bffc6, 0x5e5993f7, 0x9904c2e7, 0x0d334718,
           0xe46c6354, 0xc9503229, 0x04fef5aa, 0xf8933f72, 0x2687d476, 0x54e65231, 0x3594ffc5, 0x2b3bb2ca)

  const AFTER_12: Matrix :=
    Matrix(0x04a3131a, 0x66176309, 0x0415bab1, 0x61b880a2, 0x36cc86c7, 0xbf8a4465, 0xf77dd720, 0xfc0bdc90,
           0x07d13aca, 0xeb0be9af, 0x61599491, 0x918512dc, 0x33b6686d, 0x795cc671, 0xc0049972, 0xa0a81bde)

  const AFTER_16: Matrix :=
    Matrix(0xca5c85dd, 0x93a4f90e, 0xd9f0df58, 0x26dd82dd, 0x982563f8, 0x712aa9ff, 0x279a61e8, 0x970f72bd,
           0x1c25931a, 0x5180bb10, 0x779c27e7, 0x54077e08, 0xa9b751fb, 0x382f3ce2, 0x8db1757d, 0xcc38080b)

  const AFTER_20: Matrix :=
    Matrix(0x837778ab, 0xe238d763, 0xa67ae21e, 0x5950bb2f, 0xc4f2d0c7, 0xfc62bb2f, 0x8fa018fc, 0x3f5ec7b7,
           0x335271c2, 0xf29489f3, 0xeabda8fc, 0x82e46ebd, 0xd19c12b4, 0xb04e16de, 0x9e83d0cb, 0x4e3c50a2)

  lemma Rounds4()
    ensures Double(Double(EXAMPLE)) == AFTER_4
  {
    assert Double(EXAMPLE) ==
      Matrix(0xcd52e917, 0x85ab03b4, 0xb3457395, 0xf96de7dd, 0xc4b7cd22, 0x5c2e187a, 0xc95eb461, 0x316c801a,
             0x7bf7d740, 0x7eddd644, 0xf1a1bdf5, 0x761246ca, 0x6b0d58a3, 0x6798471a, 0xd737f167, 0xf173888d);
  }

  lemma Rounds8()
    ensures Double(Double(AFTER_4)) == AFTER_8
  {
    assert Double(AFTER_4) ==
      Matrix(0x03a14032, 0x66b15927, 0x9d6b6b42, 0xb84c4109, 0xa7143ae0, 0xa09b33dd, 0xa5daaf88, 0x2fd91a73,
             0xc90c6b18, 0x5a202413, 0xc20e01b6, 0x72cd6b74, 0xba35d777, 0xb360f1bf, 0x8178315b, 0x2cd11b1a);
  }

  lemma Rounds12()
    ensures Double(Double(AFTER_8)) == AFTER_12
  {
    assert Double(AFTER_8) ==
      Matrix(0xc53318c5, 0xca325d96, 0x7e7d11cb, 0x3404e2ca, 0x26d7cf73, 0x6088d379, 0xc0f0e9bd, 0xe310cdb9,
             0xae2ca8db, 0x42f67c72, 0x71669aca, 0x975c171d, 0x9e5ec228, 0x7d85a9f3, 0x201d0756, 0x63fa6953);
  }

  lemma Rounds16()
    ensures Double(Double(AFTER_12)) == AFTER_16
  {
    assert Double(AFTER_12) ==
      Matrix(0x9b70f51f, 0x7ea8ac11, 0x21e54da9, 0xca393b2f, 0x93b08686, 0x6a4c50ae, 0x19212a5a, 0x9b032958,
             0xd839165e, 0x4c06e28a, 0xd3fde99e, 0x26acc13d, 0xa609f555, 0x2c246549, 0x95151853, 0x2c847a0d);
  }

  lemma Rounds20()
    ensures Double(Double(AFTER_16)) == AFTER_20
  {
    assert Double(AFTER_16) ==
      Matrix(0xb6b87de6, 0x9a016148, 0x93859815, 0x4915e6cc, 0xdc33c122, 0x98e18fa3, 0x5ffbe8fc, 0xf7154b8b,
             0x28c1fcb3, 0xc4b38f9d, 0x83e2f5d7, 0x7d24b98b, 0x21078b22, 0xb193e7a3, 0xb2f49389, 0x6cde6026);
  }

  /** The state at the end of section 2.3.2 of RFC 8439. */
  const RESULT: Matrix :=
    Matrix(0xe4e7f110, 0x15593bd1, 0x1fdd0f50, 0xc47120a3, 0xc7f4d1c7, 0x0368c033, 0x9aaa2204, 0x4e6cd4c3,
           0x466482d2, 0x09aa9f07, 0x05d7c214, 0xa2028bd9, 0xd19c12b5, 0xb94e16de, 0xe883d0cb, 0x4e3c50a2)

  /** The example of section 2.3.2 of RFC 8439. */
  lemma BlockVector()
    ensures FromBytes(KeyBlock(Words(EXAMPLE))) == Words(RESULT)
  {
    hide Words, KeyBlock, FromBytes, BlockWords;
    KeyBlockIsWords(EXAMPLE);
    ResultIs();
  }

  lemma ResultIs()
    ensures BlockWords(EXAMPLE) == RESULT
  {
    hide Doubles;
    TwentyRounds(EXAMPLE);
    assert PlusMatrix(AFTER_20, EXAMPLE) == RESULT;
  }

  lemma TwentyRounds(s: Matrix)
    requires s == EXAMPLE
    ensures Doubles(s, 10) == AFTER_20
  {
    hide Doubles, Double;
    NoRounds(s);
    FourMore(s, 0);
    FourMore(s, 2);
    FourMore(s, 4);
    FourMore(s, 6);
    FourMore(s, 8);
    Rounds4();
    Rounds8();
    Rounds12();
    Rounds16();
    Rounds20();
  }

  lemma FourMore(s: Matrix, n: nat)
    ensures Doubles(s, n + 2) == Double(Double(Doubles(s, n)))
  {
    hide Double;
    assert Doubles(s, n + 2) == Double(Doubles(s, n + 1));
  }

  lemma NoRounds(s: Matrix)
    ensures Doubles(s, 0) == s
  {
  }

  // ---------------------------------------------------------------- the inverse

  function Minus(x: bv32, y: bv32): bv32 { x - y }

  function Right7(x: bv32): bv32 { x.RotateRight(7) }

  function Right8(x: bv32): bv32 { x.RotateRight(8) }

  function Right12(x: bv32): bv32 { x.RotateRight(12) }

  function Right16(x: bv32): bv32 { x.RotateRight(16) }

  /** The steps of a quarter round taken back, last first. */
  function UndoQuarter(q: Quad): Quad {
    var b1 := Exor(Right7(q.b), q.c);
    var c1 := Minus(q.c, q.d);
    var d1 := Exor(Right8(q.d), q.a);
    var a1 := Minus(q.a, b1);
    var b := Exor(Right12(b1), c1);
    var c := Minus(c1, d1);
    var d := Exor(Right16(d1), a1);
    Quad(Minus(a1, b), b, c, d)
  }

  lemma TurnedBack(x: bv32)
    ensures Right7(Left7(x)) == x && Right8(Left8(x)) == x && Right12(Left12(x)) == x && Right16(Left16(x)) == x
  {
  }

  lemma TakenOff(x: bv32, y: bv32)
    ensures Minus(Plus(x, y), y) == x
  {
    SumLess(x, y);
    hide Minus, Plus;
    SumIs(x, y);
  }

  lemma SumLess(x: bv32, y: bv32)
    ensures (x + y) - y == x
  {
  }

  lemma SumIs(x: bv32, y: bv32)
    ensures Plus(x, y) == x + y && Minus(x + y, y) == (x + y) - y
  {
  }

  lemma MixedOff(x: bv32, y: bv32)
    ensures Exor(Exor(x, y), y) == x
  {
  }

  lemma QuarterUndone(q: Quad)
    ensures UndoQuarter(QuarterWords(q)) == q
  {
    hide Plus, Minus, Exor, Left7, Left8, Left12, Left16, Right7, Right8, Right12, Right16;
    var a1 := Plus(q.a, q.b);
    var d1 := Left16(Exor(q.d, a1));
    var c1 := Plus(q.c, d1);
    var b1 := Left12(Exor(q.b, c1));
    var a2 := Plus(a1, b1);
    var d2 := Left8(Exor(d1, a2));
    var c2 := Plus(c1, d2);
    TurnedBack(Exor(b1, c2));
    MixedOff(b1, c2);
    TakenOff(c1, d2);
    TurnedBack(Exor(d1, a2));
    MixedOff(d1, a2);
    TakenOff(a1, b1);
    TurnedBack(Exor(q.b, c1));
    MixedOff(q.b, c1);
    TakenOff(q.c, d1);
    TurnedBack(Exor(q.d, a1));
    MixedOff(q.d, a1);
    TakenOff(q.a, q.b);
  }

  /** The diagonals, then the columns. */
  function UndoDouble(s: Matrix): Matrix {
    var r0 := UndoQuarter(Quad(s.x0, s.x5, s.x10, s.x15));
    var r1 := UndoQuarter(Quad(s.x1, s.x6, s.x11, s.x12));
    var r2 := UndoQuarter(Quad(s.x2, s.x7, s.x8, s.x13));
    var r3 := UndoQuarter(Quad(s.x3, s.x4, s.x9, s.x14));
    var q0 := UndoQuarter(Quad(r0.a, r3.b, r2.c, r1.d));
    var q1 := UndoQuarter(Quad(r1.a, r0.b, r3.c, r2.d));
    var q2 := UndoQuarter(Quad(r2.a, r1.b, r0.c, r3.d));
    var q3 := UndoQuarter(Quad(r3.a, r2.b, r1.c, r0.d));
    Matrix(q0.a, q1.a, q2.a, q3.a, q0.b, q1.b, q2.b, q3.b, q0.c, q1.c, q2.c, q3.c, q0.d, q1.d, q2.d, q3.d)
  }

  lemma DoubleUndone(s: Matrix)
    ensures UndoDouble(Double(s)) == s
  {
    hide QuarterWords, UndoQuarter;
    var p0, p1 := Quad(s.x0, s.x4, s.x8, s.x12), Quad(s.x1, s.x5, s.x9, s.x13);
    var p2, p3 := Quad(s.x2, s.x6, s.x10, s.x14), Quad(s.x3, s.x7, s.x11, s.x15);
    QuarterUndone(p0);
    QuarterUndone(p1);
    QuarterUndone(p2);
    QuarterUndone(p3);
    var q0, q1, q2, q3 := QuarterWords(p0), QuarterWords(p1), QuarterWords(p2), QuarterWords(p3);
    QuarterUndone(Quad(q0.a, q1.b, q2.c, q3.d));
    QuarterUndone(Quad(q1.a, q2.b, q3.c, q0.d));
    QuarterUndone(Quad(q2.a, q3.b, q0.c, q1.d));
    QuarterUndone(Quad(q3.a, q0.b, q1.c, q2.d));
  }

  function UndoDoubles(s: Matrix, n: nat): Matrix
    decreases n
  {
    if n == 0 then s else UndoDoubles(UndoDouble(s), n - 1)
  }

  lemma {:induction false} DoublesUndone(s: Matrix, n: nat)
    ensures UndoDoubles(Doubles(s, n), n) == s
  {
    hide Double, UndoDouble;
    if n > 0 {
      DoubleUndone(Doubles(s, n - 1));
      DoublesUndone(s, n - 1);
    }
  }

  function MinusMatrix(s: Matrix, t: Matrix): Matrix {
    Matrix(Minus(s.x0, t.x0), Minus(s.x1, t.x1), Minus(s.x2, t.x2), Minus(s.x3, t.x3),
           Minus(s.x4, t.x4), Minus(s.x5, t.x5), Minus(s.x6, t.x6), Minus(s.x7, t.x7),
           Minus(s.x8, t.x8), Minus(s.x9, t.x9), Minus(s.x10, t.x10), Minus(s.x11, t.x11),
           Minus(s.x12, t.x12), Minus(s.x13, t.x13), Minus(s.x14, t.x14), Minus(s.x15, t.x15))
  }

  lemma SumUndone(s: Matrix, t: Matrix)
    ensures MinusMatrix(PlusMatrix(s, t), t) == s
  {
    hide Minus, Plus;
    forall x: bv32, y: bv32 ensures Minus(Plus(x, y), y) == x { TakenOff(x, y); }
  }

  // ---------------------------------------------------------------- every state

  /** The machine word of a number. */
  function OfNat(v: nat): bv32 { if v == 0 then 0 else Plus(OfNat(v - 1), 1) }

  lemma {:induction false} OfNatRight(v: nat)
    requires v < U32
    ensures Nat(OfNat(v)) == v
  {
    hide Nat, Plus;
    if v == 0 {
      NatNothing(0, 0);
    } else {
      OfNatRight(v - 1);
      NatPlusOne(OfNat(v - 1));
    }
  }

  /** Sixteen words of 32 bits are the words of a matrix, so the above holds for every state. */
  lemma EveryState(x: seq<nat>) returns (s: Matrix)
    requires |x| == 16 && forall i :: 0 <= i < 16 ==> x[i] < U32
    ensures Words(s) == x
  {
    hide Nat, OfNat, Words, Entry;
    forall i | 0 <= i < 16 ensures Nat(OfNat(x[i])) == x[i] { OfNatRight(x[i]); }
    s := Matrix(OfNat(x[0]), OfNat(x[1]), OfNat(x[2]), OfNat(x[3]), OfNat(x[4]), OfNat(x[5]), OfNat(x[6]), OfNat(x[7]),
                OfNat(x[8]), OfNat(x[9]), OfNat(x[10]), OfNat(x[11]), OfNat(x[12]), OfNat(x[13]), OfNat(x[14]),
                    OfNat(x[15]));
    WordsAt(s);
    SameSixteen(Words(s), x);
  }

  /** For every state: twenty rounds taken back from the words of its key block, less the state, give
      the state.  So all of it entered the rounds, and it was added once at the end. */
  lemma KeyBlockUndone(x: seq<nat>) returns (s: Matrix, block: Matrix)
    requires |x| == 16 && forall i :: 0 <= i < 16 ==> x[i] < U32
    ensures Words(s) == x && Words(block) == FromBytes(KeyBlock(x))
    ensures UndoDoubles(MinusMatrix(block, s), 10) == s
  {
    hide Words, KeyBlock, FromBytes, Doubles, PlusMatrix, MinusMatrix, UndoDoubles;
    s := EveryState(x);
    block := BlockWords(s);
    KeyBlockIsWords(s);
    SumUndone(Doubles(s, 10), s);
    DoublesUndone(s, 10);
  }
}
