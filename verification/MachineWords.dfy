/** The naturals that stand for 32-bit words, against words of the machine: sum, exclusive or and
    rotation on them are those of the machine, for all words. */
module MachineWords {
  import opened Basics
  import opened Bits

  // ---------------------------------------------------------------- words bit by bit

  function Lsb(x: bv32): bool { x & 1 == 1 }

  function Half(x: bv32): bv32 { x >> 1 }

  function Masked(x: bv32, m: bv32): bv32 { x & m }

  function Exor(x: bv32, y: bv32): bv32 { x ^ y }

  function Plus(x: bv32, y: bv32): bv32 { x + y }

  /** The low `n` bits of a word as a number. */
  function Num(x: bv32, n: nat): nat {
    if n == 0 then 0 else (if Lsb(x) then 1 else 0) + 2 * Num(Half(x), n - 1)
  }

  function Nat(x: bv32): nat { Num(x, 32) }

  lemma {:induction false} NumBound(x: bv32, n: nat)
    ensures Num(x, n) < Pow2(n)
    decreases n
  {
    hide Lsb, Half;
    if n > 0 { NumBound(Half(x), n - 1); }
  }

  lemma NumStep(x: bv32, n: nat)
    requires n > 0
    ensures Num(x, n) % 2 == (if Lsb(x) then 1 else 0) && Num(x, n) / 2 == Num(Half(x), n - 1)
  {
    hide Lsb, Half;
  }

  lemma NatBound(x: bv32)
    ensures Nat(x) < U32
  {
    NumBound(x, 32);
    Pow2Values();
  }

  // ---------------------------------------------------------------- exclusive or

  lemma HalfExor(x: bv32, y: bv32)
    ensures Half(Exor(x, y)) == Exor(Half(x), Half(y)) && (Lsb(Exor(x, y)) <==> Lsb(x) != Lsb(y))
  {
  }

  lemma {:induction false} XorNum(x: bv32, y: bv32, n: nat)
    ensures Num(Exor(x, y), n) == Xor(Num(x, n), Num(y, n))
    decreases n
  {
    hide Lsb, Half, Exor, Xor;
    if n == 0 {
      XorNone();
    } else {
      HalfExor(x, y);
      XorNum(Half(x), Half(y), n - 1);
      hide Num;
      NumStep(x, n);
      NumStep(y, n);
      NumStep(Exor(x, y), n);
      XorStep(Num(x, n), Num(y, n));
    }
  }

  // ---------------------------------------------------------------- masks

  /** The low `n` bits of the mask are set. */
  predicate Ones(m: bv32, n: nat)
    decreases n
  {
    n == 0 || (Lsb(m) && Ones(Half(m), n - 1))
  }

  lemma HalfMasked(x: bv32, m: bv32)
    ensures Half(Masked(x, m)) == Masked(Half(x), Half(m)) && (Lsb(m) ==> (Lsb(Masked(x, m)) <==> Lsb(x)))
  {
  }

  lemma {:induction false} NumMasked(x: bv32, m: bv32, n: nat)
    requires Ones(m, n)
    ensures Num(Masked(x, m), n) == Num(x, n)
    decreases n
  {
    hide Lsb, Half, Masked;
    if n > 0 {
      HalfMasked(x, m);
      NumMasked(Half(x), Half(m), n - 1);
    }
  }

  lemma {:induction false} OnesLess(m: bv32, k: nat, n: nat)
    requires n <= k && Ones(m, k)
    ensures Ones(m, n)
    decreases n
  {
    hide Lsb, Half;
    if n > 0 { OnesLess(Half(m), k - 1, n - 1); }
  }

  lemma FourSet(m: bv32)
    requires m & 15 == 15
    ensures Lsb(m) && Lsb(Half(m)) && Lsb(Half(Half(m))) && Lsb(Half(Half(Half(m))))
    ensures Half(Half(Half(Half(m)))) == m >> 4
  {
  }

  lemma OnesNibble(m: bv32, n: nat)
    requires m & 15 == 15 && Ones(m >> 4, n)
    ensures Ones(m, n + 4)
  {
    FourSet(m);
    OnesFour(m, m >> 4, n);
  }

  lemma OnesFour(m: bv32, k: bv32, n: nat)
    requires Lsb(m) && Lsb(Half(m)) && Lsb(Half(Half(m))) && Lsb(Half(Half(Half(m)))) && Half(Half(Half(Half(m)))) == k
    requires Ones(k, n)
    ensures Ones(m, n + 4)
  {
    hide Lsb, Half;
    var h := Half(m);
    var i := Half(h);
    assert Ones(Half(i), n + 1) && Ones(i, n + 2) && Ones(h, n + 3);
  }

  lemma SevenFs(n: nat)
    requires n <= 31
    ensures Ones(0x7fff_ffff, n)
  {
    assert Ones(7, 3);
    OnesNibble(0x7f, 3);
    OnesNibble(0x7ff, 7);
    OnesNibble(0x7fff, 11);
    OnesNibble(0x7_ffff, 15);
    OnesNibble(0x7f_ffff, 19);
    OnesNibble(0x7ff_ffff, 23);
    OnesNibble(0x7fff_ffff, 27);
    OnesLess(0x7fff_ffff, 31, n);
  }

  // ---------------------------------------------------------------- sums

  lemma HalfPlusOne(z: bv32)
    ensures Lsb(Plus(z, 1)) <==> !Lsb(z)
    ensures Half(Plus(z, 1)) == if Lsb(z) then Masked(Plus(Half(z), 1), 0x7fff_ffff) else Half(z)
  {
  }

  lemma {:induction false} NumPlusOne(z: bv32, n: nat)
    requires n <= 32
    ensures Num(Plus(z, 1), n) == if Num(z, n) + 1 == Pow2(n) then 0 else Num(z, n) + 1
    decreases n
  {
    hide Lsb, Half, Plus, Masked;
    if n > 0 {
      HalfPlusOne(z);
      if Lsb(z) {
        NumPlusOne(Half(z), n - 1);
        SevenFs(n - 1);
        NumMasked(Plus(Half(z), 1), 0x7fff_ffff, n - 1);
      }
    }
  }

  function Pred(y: bv32): bv32 { y - 1 }

  predicate Nothing(y: bv32) { y == 0 }

  lemma OneMore(x: bv32, y: bv32)
    requires !Nothing(y)
    ensures Pred(y) < y && Plus(x, y) == Plus(Plus(x, Pred(y)), 1) && y == Plus(Pred(y), 1)
  {
  }

  lemma {:induction false} NumNothing(x: bv32, y: bv32, n: nat)
    requires Nothing(y)
    ensures Plus(x, y) == x && Num(y, n) == 0
  {
    if n > 0 { NumNothing(x, Half(y), n - 1); }
  }

  lemma Carried(a: nat, b: nat)
    requires a < U32 && b < U32
    ensures (if (a + b) % U32 + 1 == U32 then 0 else (a + b) % U32 + 1) == (a + if b + 1 == U32 then 0 else b + 1) % U32
  {
  }

  lemma NatPlusOne(z: bv32)
    ensures Nat(Plus(z, 1)) == if Nat(z) + 1 == U32 then 0 else Nat(z) + 1
  {
    hide Num, Plus;
    Pow2Values();
    NumPlusOne(z, 32);
  }

  lemma NatNothing(x: bv32, y: bv32)
    requires Nothing(y)
    ensures Plus(x, y) == x && Nat(y) == 0
  {
    NumNothing(x, y, 32);
  }

  lemma {:induction false} PlusNat(x: bv32, y: bv32)
    ensures Nat(Plus(x, y)) == (Nat(x) + Nat(y)) % U32
    decreases y
  {
    hide Plus, Nat, Pred, Nothing;
    NatBound(x);
    if Nothing(y) {
      NatNothing(x, y);
    } else {
      OneMore(x, y);
      PlusNat(x, Pred(y));
      PlusStep(x, Pred(y), y, Plus(x, y));
    }
  }

  lemma PlusStep(x: bv32, p: bv32, y: bv32, z: bv32)
    requires Nat(Plus(x, p)) == (Nat(x) + Nat(p)) % U32 && y == Plus(p, 1) && z == Plus(Plus(x, p), 1)
    ensures Nat(z) == (Nat(x) + Nat(y)) % U32
  {
    hide Plus, Nat;
    NatBound(x);
    NatBound(p);
    NatPlusOne(Plus(x, p));
    NatPlusOne(p);
    Carried(Nat(x), Nat(p));
  }

  // ---------------------------------------------------------------- rotations

  predicate Top(x: bv32) { x & 0x8000_0000 != 0 }

  function Turn(x: bv32): bv32 { x.RotateLeft(1) }

  function Turned(x: bv32, c: nat): bv32 { if c == 0 then x else Turn(Turned(x, c - 1)) }

  /** Half taken `n` times. */
  function Fold(x: bv32, n: nat): bv32
    decreases n
  {
    if n == 0 then x else Fold(Half(x), n - 1)
  }

  lemma {:induction false} NumAppend(x: bv32, n: nat)
    ensures Num(x, n + 1) == Num(x, n) + if Lsb(Fold(x, n)) then Pow2(n) else 0
    decreases n
  {
    hide Lsb, Half;
    if n > 0 { NumAppend(Half(x), n - 1); }
  }

  function Shift4(x: bv32): bv32 { x >> 4 }

  lemma FourHalves(x: bv32)
    ensures Half(Half(Half(Half(x)))) == Shift4(x)
  {
  }

  lemma FoldFour(x: bv32, n: nat)
    ensures Fold(x, n + 4) == Fold(Shift4(x), n)
  {
    FourHalves(x);
    hide Half, Shift4;
    var h := Half(x);
    var i := Half(h);
    assert Fold(x, n + 4) == Fold(h, n + 3) == Fold(i, n + 2) == Fold(Half(i), n + 1);
  }

  lemma SevenFours(x: bv32)
    ensures var y := Shift4(Shift4(Shift4(Shift4(Shift4(Shift4(Shift4(x)))))));
      Lsb(Half(Half(Half(y)))) <==> Top(x)
  {
  }

  lemma TopBit(x: bv32)
    ensures Lsb(Fold(x, 31)) <==> Top(x)
  {
    SevenFours(x);
    hide Lsb, Top, Half, Shift4, Fold;
    var y := Shift4(Shift4(x));
    var z := Shift4(Shift4(y));
    FoldFour(x, 27);
    FoldFour(Shift4(x), 23);
    FoldFour(y, 19);
    FoldFour(Shift4(y), 15);
    FoldFour(z, 11);
    FoldFour(Shift4(z), 7);
    FoldFour(Shift4(Shift4(z)), 3);
    FoldThree(Shift4(Shift4(Shift4(z))));
  }

  lemma FoldThree(y: bv32)
    ensures Fold(y, 3) == Half(Half(Half(y)))
  {
    hide Half;
    assert Fold(y, 3) == Fold(Half(y), 2) == Fold(Half(Half(y)), 1);
  }

  lemma HalfTurn(x: bv32)
    ensures Half(Turn(x)) == Masked(x, 0x7fff_ffff) && (Lsb(Turn(x)) <==> Top(x))
  {
  }

  /** A rotation by one place moves the highest bit to the lowest place. */
  function TurnNat(v: nat): nat { 2 * (v % 0x8000_0000) + v / 0x8000_0000 }

  lemma TurnNum(x: bv32)
    ensures Nat(Turn(x)) == TurnNat(Nat(x))
  {
    hide Lsb, Half, Top, Turn, Masked, Fold, Num, TurnNat, Pow2;
    HalfTurn(x);
    SevenFs(31);
    NumMasked(x, 0x7fff_ffff, 31);
    NumAppend(x, 31);
    TopBit(x);
    NumBound(x, 31);
    Pow31();
    NumStep(Turn(x), 32);
    TurnIs(Num(x, 31), if Top(x) then 1 else 0);
  }

  lemma TurnIs(low: nat, top: nat)
    requires low < 0x8000_0000 && top < 2
    ensures TurnNat(low + top * 0x8000_0000) == 2 * low + top
  {
  }

  lemma Pow31()
    ensures Pow2(31) == 0x8000_0000
  {
    Pow2Values();
    assert Pow2(32) == 2 * Pow2(31);
  }

  function TurnedNat(v: nat, c: nat): nat { if c == 0 then v else TurnNat(TurnedNat(v, c - 1)) }

  lemma {:induction false} TurnedNum(x: bv32, c: nat)
    ensures Nat(Turned(x, c)) == TurnedNat(Nat(x), c)
  {
    hide Nat, Turn, TurnNat;
    if c > 0 {
      TurnedNum(x, c - 1);
      TurnNum(Turned(x, c - 1));
    }
  }

  function Left3(x: bv32): bv32 { x.RotateLeft(3) }

  function Left4(x: bv32): bv32 { x.RotateLeft(4) }

  function Left7(x: bv32): bv32 { x.RotateLeft(7) }

  function Left8(x: bv32): bv32 { x.RotateLeft(8) }

  function Left12(x: bv32): bv32 { x.RotateLeft(12) }

  function Left16(x: bv32): bv32 { x.RotateLeft(16) }

  lemma Left3Is(x: bv32)
    ensures Turn(Turn(Turn(x))) == Left3(x)
  {
  }

  lemma Left4Is(x: bv32)
    ensures Turn(Left3(x)) == Left4(x)
  {
  }

  lemma Left7Is(x: bv32)
    ensures Left3(Left4(x)) == Left7(x)
  {
  }

  lemma Left8Is(x: bv32)
    ensures Left4(Left4(x)) == Left8(x)
  {
  }

  lemma Left12Is(x: bv32)
    ensures Left4(Left8(x)) == Left12(x)
  {
  }

  lemma Left16Is(x: bv32)
    ensures Left4(Left12(x)) == Left16(x)
  {
  }

  lemma TurnedFour(x: bv32, c: nat)
    ensures Turned(x, c + 4) == Left4(Turned(x, c)) && Turned(x, c + 3) == Left3(Turned(x, c))
  {
    hide Turn, Left3, Left4, Left7, Left8, Left12, Left16;
    Left3Is(Turned(x, c));
    Left4Is(Turned(x, c));
    var y := Turned(x, c + 1);
    assert y == Turn(Turned(x, c));
    var z := Turned(x, c + 2);
    assert z == Turn(y);
    assert Turned(x, c + 3) == Turn(z);
    assert Turned(x, c + 4) == Turn(Turned(x, c + 3));
  }

  /** The four rotations of the quarter round. */
  lemma LeftsNat(x: bv32)
    ensures Nat(Left7(x)) == TurnedNat(Nat(x), 7) && Nat(Left8(x)) == TurnedNat(Nat(x), 8)
    ensures Nat(Left12(x)) == TurnedNat(Nat(x), 12) && Nat(Left16(x)) == TurnedNat(Nat(x), 16)
  {
    hide Nat, TurnedNat, Turned, Turn, Left3, Left4, Left7, Left8, Left12, Left16;
    Left7Is(x);
    Left8Is(x);
    Left12Is(x);
    Left16Is(x);
    TurnedNone(x);
    TurnedFour(x, 0);
    TurnedFour(x, 4);
    TurnedFour(x, 8);
    TurnedFour(x, 12);
    TurnedNum(x, 7);
    TurnedNum(x, 8);
    TurnedNum(x, 12);
    TurnedNum(x, 16);
  }

  lemma TurnedNone(x: bv32)
    ensures Turned(x, 0) == x
  {
  }
}
