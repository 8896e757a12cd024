/** The ChaCha20 block on words of the machine: the model on naturals computes the same, for every
    state; the rounds can be undone from the key stream; and the vectors of RFC 8439 hold. */
module ChaChaWords {
  import opened Basics
  import opened Bits
  import opened MachineWords
  import opened ChaCha

  // ---------------------------------------------------------------- on machine words

  datatype Quad = Quad(a: bv32, b: bv32, c: bv32, d: bv32)

  /** The quarter round of section 2.1 of RFC 8439. */
  function QuarterWords(q: Quad): Quad {
    var a1 := Plus(q.a, q.b);
    var d1 := Left16(Exor(q.d, a1));
    var c1 := Plus(q.c, d1);
    var b1 := Left12(Exor(q.b, c1));
    var a2 := Plus(a1, b1);
    var d2 := Left8(Exor(d1, a2));
    var c2 := Plus(c1, d2);
    Quad(a2, Left7(Exor(b1, c2)), c2, d2)
  }

  datatype Matrix = Matrix(x0: bv32, x1: bv32, x2: bv32, x3: bv32, x4: bv32, x5: bv32, x6: bv32, x7: bv32,
                         x8: bv32, x9: bv32, x10: bv32, x11: bv32, x12: bv32, x13: bv32, x14: bv32, x15: bv32)

  /** The eight quarter rounds of section 2.3.1 of RFC 8439. */
  function Double(s: Matrix): Matrix {
    var q0 := QuarterWords(Quad(s.x0, s.x4, s.x8, s.x12));
    var q1 := QuarterWords(Quad(s.x1, s.x5, s.x9, s.x13));
    var q2 := QuarterWords(Quad(s.x2, s.x6, s.x10, s.x14));
    var q3 := QuarterWords(Quad(s.x3, s.x7, s.x11, s.x15));
    var r0 := QuarterWords(Quad(q0.a, q1.b, q2.c, q3.d));
    var r1 := QuarterWords(Quad(q1.a, q2.b, q3.c, q0.d));
    var r2 := QuarterWords(Quad(q2.a, q3.b, q0.c, q1.d));
    var r3 := QuarterWords(Quad(q3.a, q0.b, q1.c, q2.d));
    Matrix(r0.a, r1.a, r2.a, r3.a, r3.b, r0.b, r1.b, r2.b, r2.c, r3.c, r0.c, r1.c, r1.d, r2.d, r3.d, r0.d)
  }

  function Doubles(s: Matrix, n: nat): Matrix { if n == 0 then s else Double(Doubles(s, n - 1)) }

  function PlusMatrix(s: Matrix, t: Matrix): Matrix {
    Matrix(Plus(s.x0, t.x0), Plus(s.x1, t.x1), Plus(s.x2, t.x2), Plus(s.x3, t.x3),
          Plus(s.x4, t.x4), Plus(s.x5, t.x5), Plus(s.x6, t.x6), Plus(s.x7, t.x7),
          Plus(s.x8, t.x8), Plus(s.x9, t.x9), Plus(s.x10, t.x10), Plus(s.x11, t.x11),
          Plus(s.x12, t.x12), Plus(s.x13, t.x13), Plus(s.x14, t.x14), Plus(s.x15, t.x15))
  }

  /** Twenty rounds, then the input added back. */
  function BlockWords(s: Matrix): Matrix { PlusMatrix(Doubles(s, 10), s) }

  // ---------------------------------------------------------------- the model computes it

  /** Word `i` of the matrix, row by row. */
  function Entry(s: Matrix, i: nat): bv32 {
    match i
    case 0 => s.x0 case 1 => s.x1 case 2 => s.x2 case 3 => s.x3
    case 4 => s.x4 case 5 => s.x5 case 6 => s.x6 case 7 => s.x7
    case 8 => s.x8 case 9 => s.x9 case 10 => s.x10 case 11 => s.x11
    case 12 => s.x12 case 13 => s.x13 case 14 => s.x14 case _ => s.x15
  }

  function Words(s: Matrix): (x: seq<nat>)
    ensures |x| == 16 && forall i :: 0 <= i < 16 ==> x[i] == Nat(Entry(s, i))
  {
    seq(16, i requires 0 <= i < 16 => Nat(Entry(s, i)))
  }

  lemma WordsAt(s: Matrix)
    ensures var x := Words(s);
      && x[0] == Nat(s.x0) && x[1] == Nat(s.x1) && x[2] == Nat(s.x2) && x[3] == Nat(s.x3)
      && x[4] == Nat(s.x4) && x[5] == Nat(s.x5) && x[6] == Nat(s.x6) && x[7] == Nat(s.x7)
      && x[8] == Nat(s.x8) && x[9] == Nat(s.x9) && x[10] == Nat(s.x10) && x[11] == Nat(s.x11)
      && x[12] == Nat(s.x12) && x[13] == Nat(s.x13) && x[14] == Nat(s.x14) && x[15] == Nat(s.x15)
  {
    hide Nat;
  }

  lemma SameSixteen(x: seq<nat>, y: seq<nat>)
    requires |x| == |y| == 16
    requires x[0] == y[0] && x[1] == y[1] && x[2] == y[2] && x[3] == y[3]
      && x[4] == y[4] && x[5] == y[5] && x[6] == y[6] && x[7] == y[7]
      && x[8] == y[8] && x[9] == y[9] && x[10] == y[10] && x[11] == y[11]
      && x[12] == y[12] && x[13] == y[13] && x[14] == y[14] && x[15] == y[15]
    ensures x == y
  {
  }

  /** The model's rotation exchanges the upper bits and the lower ones, which is so many turns. */
  lemma RotateTurned(v: nat, c: nat)
    requires v < U32 && c <= 32
    ensures Rotate(v, c) == Swapped(v, c, 32) == TurnedNat(v, c)
  {
    hide Low, Shr, Pow2, Join, Or, Turns, TurnedNat;
    var s := Shr(v, 32 - c);
    Pow32();
    ShrBound(v, 32 - c, c);
    OrJoin(v, s, c);
    LowJoin(Join(v, s, c), 32 - c, c);
    SplitJoin(v, s, c);
    SwappedIsTurns(v, c, 32);
    SameTurns(v, c);
  }

  lemma Pow32()
    ensures Pow2(32) == U32
  {
    Pow2Values();
  }

  lemma {:induction false} SameTurns(v: nat, c: nat)
    ensures Turns(v, c, Pow2(31)) == TurnedNat(v, c)
  {
    hide Pow2;
    Pow31();
    if c > 0 { SameTurns(v, c - 1); }
  }

  lemma RotatesNat(x: bv32)
    ensures Rotate(Nat(x), 7) == Nat(Left7(x)) && Rotate(Nat(x), 8) == Nat(Left8(x))
    ensures Rotate(Nat(x), 12) == Nat(Left12(x)) && Rotate(Nat(x), 16) == Nat(Left16(x))
  {
    hide Nat, TurnedNat, Rotate, Left7, Left8, Left12, Left16;
    NatBound(x);
    LeftsNat(x);
    RotateTurned(Nat(x), 7);
    RotateTurned(Nat(x), 8);
    RotateTurned(Nat(x), 12);
    RotateTurned(Nat(x), 16);
  }

  lemma ExorNat(x: bv32, y: bv32)
    ensures Xor(Nat(x), Nat(y)) == Nat(Exor(x, y))
  {
    XorNum(x, y, 32);
  }

  lemma Add32Nat(x: bv32, y: bv32)
    ensures Add32(Nat(x), Nat(y)) == Nat(Plus(x, y))
  {
    PlusNat(x, y);
  }

  function FourOf(q: Quad): Four { Four(Nat(q.a), Nat(q.b), Nat(q.c), Nat(q.d)) }

  /** The model's quarter round is that of the machine. */
  lemma QuarterIsWords(q: Quad)
    ensures Quarter(FourOf(q)) == FourOf(QuarterWords(q))
  {
    hide Nat, Xor, Add32, Rotate, Plus, Exor, Left7, Left8, Left12, Left16;
    var a1 := Plus(q.a, q.b);
    var d1 := Left16(Exor(q.d, a1));
    var c1 := Plus(q.c, d1);
    var b1 := Left12(Exor(q.b, c1));
    var a2 := Plus(a1, b1);
    var d2 := Left8(Exor(d1, a2));
    var c2 := Plus(c1, d2);
    Add32Nat(q.a, q.b);
    ExorNat(q.d, a1);
    RotatesNat(Exor(q.d, a1));
    Add32Nat(q.c, d1);
    ExorNat(q.b, c1);
    RotatesNat(Exor(q.b, c1));
    Add32Nat(a1, b1);
    ExorNat(d1, a2);
    RotatesNat(Exor(d1, a2));
    Add32Nat(c1, d2);
    ExorNat(b1, c2);
    RotatesNat(Exor(b1, c2));
  }

  lemma ColumnIsWords(x: seq<nat>, j: nat, q: Quad)
    requires |x| == 16 && j < 4 && Column(x, j) == FourOf(q)
    ensures var y, r := Columns(x), QuarterWords(q);
      y[j] == Nat(r.a) && y[4 + j] == Nat(r.b) && y[8 + j] == Nat(r.c) && y[12 + j] == Nat(r.d)
  {
    hide Nat, Quarter, QuarterWords, Column;
    QuarterIsWords(q);
    assert (4 + j) % 4 == (8 + j) % 4 == (12 + j) % 4 == j;
  }

  /** Four columns, row by row. */
  function Rows(p: Quad, q: Quad, r: Quad, s: Quad): Matrix {
    Matrix(p.a, q.a, r.a, s.a, p.b, q.b, r.b, s.b, p.c, q.c, r.c, s.c, p.d, q.d, r.d, s.d)
  }

  lemma ColumnsAreWords(x: seq<nat>, p: Quad, q: Quad, r: Quad, s: Quad)
    requires |x| == 16
    requires Column(x, 0) == FourOf(p) && Column(x, 1) == FourOf(q) && Column(x, 2) == FourOf(r) &&
        Column(x, 3) == FourOf(s)
    ensures Columns(x) == Words(Rows(QuarterWords(p), QuarterWords(q), QuarterWords(r), QuarterWords(s)))
  {
    hide Nat, Quarter, QuarterWords, Columns, Column, Words, Entry;
    ColumnIsWords(x, 0, p);
    ColumnIsWords(x, 1, q);
    ColumnIsWords(x, 2, r);
    ColumnIsWords(x, 3, s);
    var m := Rows(QuarterWords(p), QuarterWords(q), QuarterWords(r), QuarterWords(s));
    WordsAt(m);
    SameSixteen(Columns(x), Words(m));
  }

  /** The columns and diagonals of a matrix. */
  lemma ColumnsOf(s: Matrix)
    ensures var x := Words(s);
      && Column(x, 0) == FourOf(Quad(s.x0, s.x4, s.x8, s.x12)) && Column(x, 1) == FourOf(Quad(s.x1, s.x5, s.x9, s.x13))
      && Column(x, 2) == FourOf(Quad(s.x2, s.x6, s.x10, s.x14)) &&
          Column(x, 3) == FourOf(Quad(s.x3, s.x7, s.x11, s.x15))
      && Diagonal(x, 0) == FourOf(Quad(s.x0, s.x5, s.x10, s.x15)) &&
          Diagonal(x, 1) == FourOf(Quad(s.x1, s.x6, s.x11, s.x12))
      && Diagonal(x, 2) == FourOf(Quad(s.x2, s.x7, s.x8, s.x13)) &&
          Diagonal(x, 3) == FourOf(Quad(s.x3, s.x4, s.x9, s.x14))
  {
    hide Nat, Words, Entry;
    WordsAt(s);
  }

  lemma UnskewIs(x: seq<nat>)
    requires |x| == 16
    ensures var y := Unskew(x);
      && y[0] == x[0] && y[1] == x[1] && y[2] == x[2] && y[3] == x[3]
      && y[4] == x[7] && y[5] == x[4] && y[6] == x[5] && y[7] == x[6]
      && y[8] == x[10] && y[9] == x[11] && y[10] == x[8] && y[11] == x[9]
      && y[12] == x[13] && y[13] == x[14] && y[14] == x[15] && y[15] == x[12]
  {
  }

  lemma TurnedBack(p: Quad, q: Quad, r: Quad, s: Quad)
    ensures Unskew(Words(Rows(p, q, r, s))) ==
      Words(Matrix(p.a, q.a, r.a, s.a, s.b, p.b, q.b, r.b, r.c, s.c, p.c, q.c, q.d, r.d, s.d, p.d))
  {
    hide Nat, Unskew, Words, Entry;
    var m := Matrix(p.a, q.a, r.a, s.a, s.b, p.b, q.b, r.b, r.c, s.c, p.c, q.c, q.d, r.d, s.d, p.d);
    UnskewIs(Words(Rows(p, q, r, s)));
    WordsAt(Rows(p, q, r, s));
    WordsAt(m);
    SameSixteen(Unskew(Words(Rows(p, q, r, s))), Words(m));
  }

  /** Column rounds and diagonal rounds of the model are the eight quarter rounds. */
  lemma DoubleIsWords(s: Matrix)
    ensures DoubleRound(Words(s)) == Words(Double(s))
  {
    hide Nat, QuarterWords, Columns, Column, Diagonal, Skew, Unskew, Words, FourOf;
    var q0 := QuarterWords(Quad(s.x0, s.x4, s.x8, s.x12));
    var q1 := QuarterWords(Quad(s.x1, s.x5, s.x9, s.x13));
    var q2 := QuarterWords(Quad(s.x2, s.x6, s.x10, s.x14));
    var q3 := QuarterWords(Quad(s.x3, s.x7, s.x11, s.x15));
    ColumnsOf(s);
    ColumnsAreWords(Words(s), Quad(s.x0, s.x4, s.x8, s.x12), Quad(s.x1, s.x5, s.x9, s.x13),
                    Quad(s.x2, s.x6, s.x10, s.x14), Quad(s.x3, s.x7, s.x11, s.x15));
    var y := Words(Rows(q0, q1, q2, q3));
    ColumnsOf(Rows(q0, q1, q2, q3));
    DiagonalIsColumn(y, 0);
    DiagonalIsColumn(y, 1);
    DiagonalIsColumn(y, 2);
    DiagonalIsColumn(y, 3);
    var d0, d1 := Quad(q0.a, q1.b, q2.c, q3.d), Quad(q1.a, q2.b, q3.c, q0.d);
    var d2, d3 := Quad(q2.a, q3.b, q0.c, q1.d), Quad(q3.a, q0.b, q1.c, q2.d);
    ColumnsAreWords(Skew(y), d0, d1, d2, d3);
    TurnedBack(QuarterWords(d0), QuarterWords(d1), QuarterWords(d2), QuarterWords(d3));
  }

  lemma {:induction false} DoublesAreWords(s: Matrix, n: nat)
    ensures DoubleRounds(Words(s), n) == Words(Doubles(s, n))
  {
    hide Words, DoubleRound, Double;
    if n > 0 {
      DoublesAreWords(s, n - 1);
      DoubleIsWords(Doubles(s, n - 1));
    }
  }

  // ---------------------------------------------------------------- the key block

  /** Bytes read as little-endian words. */
  function FromBytes(b: seq<nat>): (x: seq<nat>)
    requires |b| == 64
    ensures |x| == 16
  {
    seq(16, i requires 0 <= i < 16 => b[4 * i] + 0x100 * b[4 * i + 1] + 0x1_0000 * b[4 * i + 2] +
        0x100_0000 * b[4 * i + 3])
  }

  lemma BytesOf(w: nat)
    requires w < U32
    ensures ByteOf(w, 0) + 0x100 * ByteOf(w, 1) + 0x1_0000 * ByteOf(w, 2) + 0x100_0000 * ByteOf(w, 3) == w
  {
    hide ByteOf, Pow2;
    Pow2Values();
    ByteIs(w, 0);
    ByteIs(w, 1);
    ByteIs(w, 2);
    ByteIs(w, 3);
    Digits(w);
  }

  lemma ByteIs(w: nat, k: nat)
    ensures ByteOf(w, k) == w / Pow2(8 * k) % 256
  {
    LowIsMod(w, 8 * k);
  }

  lemma Digits(w: nat)
    requires w < U32
    ensures w % 256 + 0x100 * (w / 0x100 % 256) + 0x1_0000 * (w / 0x1_0000 % 256) +
        0x100_0000 * (w / 0x100_0000 % 256) == w
  {
    var a := w / 0x100;
    var b := a / 0x100;
    assert w / 0x1_0000 == b && w / 0x100_0000 == b / 0x100;
  }

  lemma SerializedWord(x: seq<nat>, input: seq<nat>, i: nat)
    requires |x| == |input| == 16 && i < 16
    ensures FromBytes(Serialize(x, input))[i] == Add32(x[i], input[i])
  {
    hide ByteOf, Add32;
    BytesOf(Add32(x[i], input[i]));
    var b := Serialize(x, input);
    var w := Add32(x[i], input[i]);
    assert (4 * i) / 4 == (4 * i + 1) / 4 == (4 * i + 2) / 4 == (4 * i + 3) / 4 == i;
    assert b[4 * i] == ByteOf(w, 0) && b[4 * i + 1] == ByteOf(w, 1);
    assert b[4 * i + 2] == ByteOf(w, 2) && b[4 * i + 3] == ByteOf(w, 3);
  }

  /** The key block of the model, read as words, is that of the machine: for every state. */
  lemma KeyBlockIsWords(s: Matrix)
    ensures FromBytes(KeyBlock(Words(s))) == Words(BlockWords(s))
  {
    hide Nat, DoubleRounds, Doubles, Serialize, Add32, FromBytes;
    DoublesAreWords(s, 10);
    var t := Doubles(s, 10);
    forall i | 0 <= i < 16
      ensures FromBytes(KeyBlock(Words(s)))[i] == Add32(Words(t)[i], Words(s)[i])
    {
      SerializedWord(Words(t), Words(s), i);
    }
    SumIsWords(t, s, FromBytes(KeyBlock(Words(s))));
  }

  lemma SumIsWords(s: Matrix, t: Matrix, x: seq<nat>)
    requires |x| == 16 && forall i :: 0 <= i < 16 ==> x[i] == Add32(Words(s)[i], Words(t)[i])
    ensures x == Words(PlusMatrix(s, t))
  {
    hide Nat, Add32, Plus, Entry, PlusMatrix;
    forall i | 0 <= i < 16
      ensures x[i] == Nat(Entry(PlusMatrix(s, t), i))
    {
      PlusEntry(s, t, i);
      Add32Nat(Entry(s, i), Entry(t, i));
    }
  }

  lemma PlusEntry(s: Matrix, t: Matrix, i: nat)
    requires i < 16
    ensures Entry(PlusMatrix(s, t), i) == Plus(Entry(s, i), Entry(t, i))
  {
    hide Plus;
  }
}
