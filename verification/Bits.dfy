/** Words of a given number of bits as naturals: shifts, masks, bit reversal, xor and or.
    Shifts and masks are defined bit by bit; ShrIsDiv and LowIsMod say what they compute. */
module Bits {

  function Pow2(n: nat): (p: nat)
    ensures p >= 1
  {
    if n == 0 then 1 else 2 * Pow2(n - 1)
  }

  lemma {:induction false} Pow2Add(a: nat, b: nat)
    ensures Pow2(a + b) == Pow2(a) * Pow2(b)
  {
    if a > 0 {
      Pow2Add(a - 1, b);
      assert 2 * (Pow2(a - 1) * Pow2(b)) == (2 * Pow2(a - 1)) * Pow2(b);
    }
  }

  lemma {:induction false} Pow2Mono(a: nat, b: nat)
    requires a <= b
    ensures Pow2(a) <= Pow2(b)
  {
    if a < b {
      Pow2Mono(a, b - 1);
    }
  }

  lemma Pow2Values()
    ensures Pow2(0) == 1 && Pow2(2) == 4 && Pow2(4) == 16 && Pow2(6) == 64 && Pow2(8) == 0x100
        && Pow2(16) == 0x1_0000 && Pow2(24) == 0x100_0000
    ensures Pow2(26) == 0x400_0000 && Pow2(32) == 0x1_0000_0000
  {
    assert Pow2(2) == 4;
    Pow2Add(2, 2);
    Pow2Add(2, 4);
    Pow2Add(4, 4);
    Pow2Add(8, 8);
    Pow2Add(8, 16);
    Pow2Add(2, 24);
    Pow2Add(16, 16);
  }

  lemma DoubleMul(q: nat, p: nat)
    ensures q * (2 * p) == 2 * (q * p)
  {
  }

  /** v >> n */
  function Shr(v: nat, n: nat): nat {
    if n == 0 then v else Shr(v / 2, n - 1)
  }

  /** The low n bits: v & ((1 << n) - 1) */
  function Low(v: nat, n: nat): (r: nat)
    ensures r < Pow2(n)
  {
    if n == 0 then 0 else v % 2 + 2 * Low(v / 2, n - 1)
  }

  function Bit(v: nat, k: nat): (b: nat)
    ensures b < 2
  {
    Shr(v, k) % 2
  }

  lemma {:induction false} ShrLow(v: nat, n: nat)
    ensures v == Shr(v, n) * Pow2(n) + Low(v, n)
  {
    if n > 0 {
      ShrLow(v / 2, n - 1);
      DoubleMul(Shr(v / 2, n - 1), Pow2(n - 1));
    }
  }

  lemma MulGap(q: int, q': int, d: nat)
    requires q < q'
    ensures q' * d >= q * d + d
  {
    var e := q' - q - 1;
    assert q' * d == (q + e + 1) * d == q * d + e * d + d;
  }

  lemma DivModUnique(a: int, q: int, r: nat, d: nat)
    requires d > 0 && a == q * d + r && r < d
    ensures a / d == q && a % d == r
  {
    var q', r' := a / d, a % d;
    if q' > q {
      MulGap(q, q', d);
    } else if q > q' {
      MulGap(q', q, d);
    }
  }

  lemma LowIsMod(v: nat, n: nat)
    ensures Low(v, n) == v % Pow2(n) && Shr(v, n) == v / Pow2(n)
  {
    ShrLow(v, n);
    DivModUnique(v, Shr(v, n), Low(v, n), Pow2(n));
  }

  lemma {:induction false} LowSmall(v: nat, n: nat)
    requires v < Pow2(n)
    ensures Low(v, n) == v
  {
    if n > 0 {
      LowSmall(v / 2, n - 1);
    }
  }

  lemma {:induction false} ShrSmall(v: nat, n: nat)
    requires v < Pow2(n)
    ensures Shr(v, n) == 0
  {
    if n > 0 {
      ShrSmall(v / 2, n - 1);
    }
  }

  lemma {:induction false} ShrBound(v: nat, n: nat, m: nat)
    requires v < Pow2(n + m)
    ensures Shr(v, n) < Pow2(m)
  {
    if n > 0 {
      ShrBound(v / 2, n - 1, m);
    }
  }

  lemma {:induction false} ShrShr(v: nat, a: nat, b: nat)
    ensures Shr(Shr(v, a), b) == Shr(v, a + b)
    decreases a
  {
    if a > 0 {
      ShrShr(v / 2, a - 1, b);
    }
  }

  /** Masking keeps the low bits. */
  lemma {:induction false} LowBit(v: nat, n: nat, k: nat)
    requires k < n
    ensures Bit(Low(v, n), k) == Bit(v, k)
    decreases n
  {
    assert Low(v, n) / 2 == Low(v / 2, n - 1);
    if k > 0 {
      LowBit(v / 2, n - 1, k - 1);
    }
  }

  /** A word is determined by its bits. */
  lemma {:induction false} SameBits(x: nat, y: nat, n: nat)
    requires x < Pow2(n) && y < Pow2(n)
    requires forall k :: 0 <= k < n ==> Bit(x, k) == Bit(y, k)
    ensures x == y
    decreases n
  {
    if n > 0 {
      assert Bit(x, 0) == Bit(y, 0);
      forall k | 0 <= k < n - 1
        ensures Bit(x / 2, k) == Bit(y / 2, k)
      {
        assert Bit(x, k + 1) == Bit(y, k + 1);
      }
      SameBits(x / 2, y / 2, n - 1);
    }
  }

  // ---------------------------------------------------------------- joining two words

  /** (hi << n) | lo */
  function Join(hi: nat, lo: nat, n: nat): nat {
    hi * Pow2(n) + lo
  }

  lemma SplitJoin(hi: nat, lo: nat, n: nat)
    requires lo < Pow2(n)
    ensures Shr(Join(hi, lo, n), n) == hi && Low(Join(hi, lo, n), n) == lo
  {
    LowIsMod(Join(hi, lo, n), n);
    DivModUnique(Join(hi, lo, n), hi, lo, Pow2(n));
  }

  lemma JoinBound(hi: nat, lo: nat, m: nat, n: nat)
    requires hi < Pow2(m) && lo < Pow2(n)
    ensures Join(hi, lo, n) < Pow2(m + n)
  {
    Pow2Add(m, n);
    MulGap(hi, Pow2(m), Pow2(n));
  }

  lemma JoinSplit(v: nat, n: nat)
    ensures Join(Shr(v, n), Low(v, n), n) == v
  {
    ShrLow(v, n);
  }

  lemma JoinNone(hi: nat)
    ensures Join(hi, 0, 0) == hi
  {
  }

  lemma JoinStep(hi: nat, lo: nat, b: nat, n: nat)
    requires n > 0
    ensures Join(hi, b + 2 * lo, n) == b + 2 * Join(hi, lo, n - 1)
  {
    DoubleMul(hi, Pow2(n - 1));
  }

  /** Cutting a word in two and joining the parts keeps u + v low bits. */
  lemma {:induction false} LowJoin(x: nat, u: nat, v: nat)
    ensures Join(Low(Shr(x, v), u), Low(x, v), v) == Low(x, u + v)
    decreases v
  {
    hide Join, Pow2;
    if v == 0 {
      JoinNone(Low(x, u));
    } else {
      LowJoin(x / 2, u, v - 1);
      JoinStep(Low(Shr(x, v), u), Low(x / 2, v - 1), x % 2, v);
      assert Low(x, u + v) == x % 2 + 2 * Low(x / 2, u + (v - 1));
    }
  }

  /** The bits of a joined word are those of its parts. */
  lemma JoinBit(hi: nat, lo: nat, n: nat, k: nat)
    requires lo < Pow2(n)
    ensures Bit(Join(hi, lo, n), k) == if k < n then Bit(lo, k) else Bit(hi, k - n)
  {
    hide Join, Low, Shr, Pow2;
    SplitJoin(hi, lo, n);
    if k < n {
      LowBit(Join(hi, lo, n), n, k);
    } else {
      ShrShr(Join(hi, lo, n), n, k - n);
    }
  }

  // ---------------------------------------------------------------- rotation

  /** A rotation by one place: the highest bit, of weight `p`, becomes the lowest. */
  function TurnOnce(v: nat, p: nat): nat
    requires p > 0
  {
    2 * (v % p) + v / p
  }

  /** A rotation of a w-bit word by `c` places, its two parts exchanged. */
  function Swapped(v: nat, c: nat, w: nat): nat
    requires c <= w
  {
    Join(Low(v, w - c), Shr(v, w - c), c)
  }

  /** Exchanging at the next place is one turn more. */
  lemma SwapTurns(v: nat, c: nat, w: nat)
    requires v < Pow2(w) && c < w
    ensures Swapped(v, c + 1, w) == TurnOnce(Swapped(v, c, w), Pow2(w - 1))
  {
    hide Low, Shr, Pow2, Join, TurnOnce;
    var n := w - c - 1;
    var l, s := Low(v, n), Shr(v, n);
    LowJoin(v, 1, n);
    ShrShr(v, n, 1);
    OneBit(s);
    ShrBound(v, n + 1, c);
    MoveBit(l, s, n, c);
  }

  lemma OneBit(s: nat)
    ensures Low(s, 1) == s % 2 && Shr(s, 1) == s / 2
  {
    assert Low(s / 2, 0) == 0;
  }

  lemma MoveBit(l: nat, s: nat, n: nat, c: nat)
    requires l < Pow2(n) && s / 2 < Pow2(c)
    ensures TurnOnce(Join(Join(s % 2, l, n), s / 2, c), Pow2(n + c)) == Join(l, s, c + 1)
  {
    hide Pow2;
    Pow2Add(n, c);
    JoinBound(l, s / 2, n, c);
    TwoJoins(s % 2, l, s / 2, Pow2(n), Pow2(c));
    DivModUnique(Join(Join(s % 2, l, n), s / 2, c), s % 2, Join(l, s / 2, c), Pow2(n + c));
    Doubled(c);
    DoubleMul(l, Pow2(c));
  }

  lemma Doubled(c: nat)
    ensures Pow2(c + 1) == 2 * Pow2(c)
  {
  }

  lemma TwoJoins(b: nat, l: nat, t: nat, p: nat, q: nat)
    ensures (b * p + l) * q + t == b * (p * q) + (l * q + t)
  {
  }

  /** `c` turns. */
  function Turns(v: nat, c: nat, p: nat): nat
    requires p > 0
  {
    if c == 0 then v else TurnOnce(Turns(v, c - 1, p), p)
  }

  /** A rotation by `c` places is `c` turns. */
  lemma {:induction false} SwappedIsTurns(v: nat, c: nat, w: nat)
    requires v < Pow2(w) && c <= w && w > 0
    ensures Swapped(v, c, w) == Turns(v, c, Pow2(w - 1))
  {
    hide TurnOnce, Pow2;
    if c > 0 {
      SwappedIsTurns(v, c - 1, w);
      SwapTurns(v, c - 1, w);
    } else {
      NotSwapped(v, w);
    }
  }

  lemma NotSwapped(v: nat, w: nat)
    requires v < Pow2(w)
    ensures Swapped(v, 0, w) == v
  {
    hide Low, Shr, Pow2, Join;
    LowSmall(v, w);
    ShrSmall(v, w);
    JoinNone(v);
  }

  // ---------------------------------------------------------------- reversal

  /** The low `m` bits of `v` in reverse order. */
  function Rev(v: nat, m: nat): (r: nat)
    ensures r < Pow2(m)
  {
    if m == 0 then 0 else 2 * Rev(v, m - 1) + Bit(v, m - 1)
  }

  lemma {:induction false} RevBit(v: nat, m: nat, k: nat)
    requires k < m
    ensures Bit(Rev(v, m), k) == Bit(v, m - 1 - k)
    decreases m
  {
    var r := Rev(v, m - 1);
    assert (2 * r + Bit(v, m - 1)) / 2 == r;
    if k > 0 {
      RevBit(v, m - 1, k - 1);
    }
  }

  /** Reversal is an involution on m-bit words. */
  lemma RevRev(v: nat, m: nat)
    requires v < Pow2(m)
    ensures Rev(Rev(v, m), m) == v
  {
    forall k | 0 <= k < m
      ensures Bit(Rev(Rev(v, m), m), k) == Bit(v, k)
    {
      RevBit(Rev(v, m), m, k);
      RevBit(v, m, m - 1 - k);
    }
    SameBits(Rev(Rev(v, m), m), v, m);
  }

  /** Reversal ignores bits above the word. */
  lemma {:induction false} RevIgnores(v: nat, w: nat, m: nat)
    requires forall k :: 0 <= k < m ==> Bit(v, k) == Bit(w, k)
    ensures Rev(v, m) == Rev(w, m)
    decreases m
  {
    if m > 0 {
      RevIgnores(v, w, m - 1);
    }
  }

  lemma RevLow(v: nat, m: nat)
    ensures Rev(Low(v, m), m) == Rev(v, m)
  {
    forall k | 0 <= k < m
      ensures Bit(Low(v, m), k) == Bit(v, k)
    {
      LowBit(v, m, k);
    }
    RevIgnores(Low(v, m), v, m);
  }

  /** Shifting a longer reversal right leaves the reversal of the low part. */
  lemma {:induction false} RevShr(v: nat, a: nat, b: nat)
    ensures Shr(Rev(v, a + b), b) == Rev(v, a)
    decreases b
  {
    if b > 0 {
      assert Rev(v, a + b) / 2 == Rev(v, a + b - 1);
      RevShr(v, a, b - 1);
    }
  }

  /** Reversing a concatenation swaps the reversed parts. */
  lemma {:induction false} RevConcat(v: nat, a: nat, b: nat)
    ensures Rev(v, a + b) == Join(Rev(v, a), Rev(Shr(v, a), b), b)
    decreases b
  {
    hide Join, Pow2;
    if b == 0 {
      JoinNone(Rev(v, a));
    } else {
      RevConcat(v, a, b - 1);
      ShrShr(v, a, b - 1);
      JoinStep(Rev(v, a), Rev(Shr(v, a), b - 1), Bit(Shr(v, a), b - 1), b);
      assert a + b - 1 == a + (b - 1);
      assert Rev(v, a + b) == 2 * Rev(v, a + (b - 1)) + Bit(Shr(v, a), b - 1);
    }
  }

  // ---------------------------------------------------------------- xor and or

  function Xor(a: nat, b: nat): nat {
    if a == 0 && b == 0 then 0 else (if a % 2 != b % 2 then 1 else 0) + 2 * Xor(a / 2, b / 2)
  }

  function Or(a: nat, b: nat): nat {
    if a == 0 && b == 0 then 0 else (if a % 2 == 1 || b % 2 == 1 then 1 else 0) + 2 * Or(a / 2, b / 2)
  }

  lemma XorStep(a: nat, b: nat)
    ensures Xor(a, b) % 2 == (if a % 2 != b % 2 then 1 else 0)
    ensures Xor(a, b) / 2 == Xor(a / 2, b / 2)
  {
  }

  lemma OrStep(a: nat, b: nat)
    ensures Or(a, b) % 2 == (if a % 2 == 1 || b % 2 == 1 then 1 else 0)
    ensures Or(a, b) / 2 == Or(a / 2, b / 2)
  {
  }

  lemma {:induction false} XorCancel(a: nat, b: nat)
    ensures Xor(Xor(a, b), b) == a
    decreases a + b
  {
    if a > 0 || b > 0 {
      XorCancel(a / 2, b / 2);
      XorStep(a, b);
      XorStep(Xor(a, b), b);
    }
  }

  lemma {:induction false} XorCommutes(a: nat, b: nat)
    ensures Xor(a, b) == Xor(b, a)
    decreases a + b
  {
    if a > 0 || b > 0 {
      XorCommutes(a / 2, b / 2);
    }
  }

  lemma {:induction false} XorBound(a: nat, b: nat, n: nat)
    requires a < Pow2(n) && b < Pow2(n)
    ensures Xor(a, b) < Pow2(n)
    decreases n
  {
    if n > 0 {
      XorBound(a / 2, b / 2, n - 1);
    }
  }

  lemma {:induction false} XorBit(a: nat, b: nat, k: nat)
    ensures Bit(Xor(a, b), k) == if Bit(a, k) != Bit(b, k) then 1 else 0
    decreases k
  {
    XorStep(a, b);
    if k > 0 {
      XorBit(a / 2, b / 2, k - 1);
    }
  }

  lemma LowStep(v: nat, n: nat)
    ensures if n == 0 then Low(v, n) == 0 else Low(v, n) % 2 == v % 2 && Low(v, n) / 2 == Low(v / 2, n - 1)
  {
  }

  /** Masking commutes with xor. */
  lemma {:induction false} XorLow(a: nat, b: nat, n: nat)
    ensures Low(Xor(a, b), n) == Xor(Low(a, n), Low(b, n))
    decreases n
  {
    hide Xor, Low, Pow2;
    LowStep(a, n);
    LowStep(b, n);
    LowStep(Xor(a, b), n);
    if n > 0 {
      XorLow(a / 2, b / 2, n - 1);
      XorStep(a, b);
      XorStep(Low(a, n), Low(b, n));
    } else {
      XorNone();
    }
  }

  lemma XorNone()
    ensures Xor(0, 0) == 0
  {
  }

  /** Setting the bits of `c` again after cutting a word to `n` bits restores the word, when
      the word is `c | h` for some n-bit `h`. */
  lemma {:induction false} OrLow(c: nat, h: nat, n: nat)
    requires h < Pow2(n)
    ensures Or(c, Low(Or(c, h), n)) == Or(c, h)
    decreases n
  {
    if n == 0 {
      OrZero(c);
    } else {
      OrLow(c / 2, h / 2, n - 1);
      OrStep(c, h);
      OrStep(c, Low(Or(c, h), n));
    }
  }

  /** Or-ing the same word hides the bits it has set, and no others. */
  lemma {:induction false} OrSameIff(c: nat, a: nat, b: nat, n: nat)
    requires a < Pow2(n) && b < Pow2(n)
    ensures Or(c, a) == Or(c, b) <==> forall k: nat :: k < n && Bit(c, k) == 0 ==> Bit(a, k) == Bit(b, k)
    decreases n
  {
    if n > 0 {
      OrSameIff(c / 2, a / 2, b / 2, n - 1);
      OrStep(c, a);
      OrStep(c, b);
      TailBits(c, a, b, n);
    }
  }

  lemma TailBits(c: nat, a: nat, b: nat, n: nat)
    requires n > 0
    ensures (forall k: nat :: k < n && Bit(c, k) == 0 ==> Bit(a, k) == Bit(b, k)) <==>
        (c % 2 == 0 ==> a % 2 == b % 2) &&
        forall k: nat :: k < n - 1 && Bit(c / 2, k) == 0 ==> Bit(a / 2, k) == Bit(b / 2, k)
  {
    BitStep(c);
    BitStep(a);
    BitStep(b);
    hide Bit;
    if forall k: nat :: k < n && Bit(c, k) == 0 ==> Bit(a, k) == Bit(b, k) {
      forall k: nat | k < n - 1 && Bit(c / 2, k) == 0 ensures Bit(a / 2, k) == Bit(b / 2, k) {
        assert Bit(c, k + 1) == Bit(c / 2, k);
      }
    }
    if (c % 2 == 0 ==> a % 2 == b % 2) &&
        forall k: nat :: k < n - 1 && Bit(c / 2, k) == 0 ==> Bit(a / 2, k) == Bit(b / 2, k) {
      forall k: nat | k < n && Bit(c, k) == 0 ensures Bit(a, k) == Bit(b, k) {
        if k > 0 { assert Bit(c / 2, k - 1) == Bit(c, k); }
      }
    }
  }

  lemma BitStep(v: nat)
    ensures Bit(v, 0) == v % 2 && forall k: nat :: Bit(v, k + 1) == Bit(v / 2, k)
  {
  }

  /** Or-ing into cleared low bits joins. */
  lemma {:induction false} OrJoin(hi: nat, lo: nat, n: nat)
    requires lo < Pow2(n)
    ensures Or(hi * Pow2(n), lo) == Join(hi, lo, n)
    decreases n
  {
    if n == 0 {
      OrZero(hi);
    } else {
      OrJoin(hi, lo / 2, n - 1);
      DoubleMul(hi, Pow2(n - 1));
      var x := hi * Pow2(n);
      assert x == 2 * (hi * Pow2(n - 1));
      assert x % 2 == 0 && x / 2 == hi * Pow2(n - 1);
      OrStep(x, lo);
    }
  }

  lemma {:induction false} OrZero(c: nat)
    ensures Or(c, 0) == c
  {
    if c > 0 {
      OrZero(c / 2);
    }
  }
}
