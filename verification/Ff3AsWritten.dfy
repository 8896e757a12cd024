/** FF3 decryption as it is written (nat_eval/enc_lib/ff3/ff3.c:195-240): the half goes into a
    buffer that the cipher call clears, so every round value is that of a zero half.  When does it
    still return what was encrypted? */
module Ff3AsWritten {
  import opened Bits
  import opened Ff3

  /** Round values added to one side (parity 0: the left half, 1: the right) when encrypting. */
  function Added(f: RoundFn, tw: Tweak, len: nat, n: nat, h: Halves, parity: nat): int {
    if n == 0 then 0
    else Added(f, tw, len, n - 1, h, parity)
         + if (n - 1) % 2 == parity then f(TweakWord(tw, n - 1), EncRounds(f, tw, len, n - 1, h).b) else 0
  }

  /** The constants that decryption as written takes off the same side. */
  function TakenOff(f: RoundFn, tw: Tweak, n: nat, parity: nat): int {
    if n == 0 then 0
    else TakenOff(f, tw, n - 1, parity) + if (n - 1) % 2 == parity then f(TweakWord(tw, n - 1), 0) else 0
  }

  lemma {:induction false} EncAdds(f: RoundFn, tw: Tweak, len: nat, n: nat, h: Halves)
    requires Fits(len, 0, h)
    ensures var e := EncRounds(f, tw, len, n, h);
      var left := Mod(h.a + Added(f, tw, len, n, h, 0), Pow2(U(len)));
      var right := Mod(h.b + Added(f, tw, len, n, h, 1), Pow2(V(len)));
      e == if n % 2 == 0 then Halves(left, right) else Halves(right, left)
  {
    hide Pow2, Mod;
    if n == 0 {
      ModSmall(h.a, Pow2(U(len)));
      ModSmall(h.b, Pow2(V(len)));
    } else {
      EncAdds(f, tw, len, n - 1, h);
      var y := f(TweakWord(tw, n - 1), EncRounds(f, tw, len, n - 1, h).b);
      if n % 2 == 0 {
        ModAbsorb(h.b + Added(f, tw, len, n - 1, h, 1), y, Pow2(V(len)));
      } else {
        ModAbsorb(h.a + Added(f, tw, len, n - 1, h, 0), y, Pow2(U(len)));
      }
    }
  }

  lemma {:induction false} BlindTakesOff(f: RoundFn, tw: Tweak, len: nat, n: nat, h: Halves)
    requires Fits(len, n, h)
    ensures var left, right := if n % 2 == 0 then h.a else h.b, if n % 2 == 0 then h.b else h.a;
      DecRounds(Blind(f), tw, len, n, h)
      == Halves(Mod(left - TakenOff(f, tw, n, 0), Pow2(U(len))), Mod(right - TakenOff(f, tw, n, 1), Pow2(V(len))))
  {
    hide Pow2, Mod;
    if n == 0 {
      ModSmall(h.a, Pow2(U(len)));
      ModSmall(h.b, Pow2(V(len)));
    } else {
      var g := DecRound(Blind(f), tw, len, n - 1, h);
      BlindTakesOff(f, tw, len, n - 1, g);
      var y := f(TweakWord(tw, n - 1), 0);
      if n % 2 == 0 {
        ModAbsorb(h.b - y, -TakenOff(f, tw, n - 1, 1), Pow2(V(len)));
      } else {
        ModAbsorb(h.b - y, -TakenOff(f, tw, n - 1, 0), Pow2(U(len)));
      }
    }
  }

  lemma ModReturns(a: nat, s: int, t: int, d: nat)
    requires a < d
    ensures Mod(Mod(a + s, d) - t, d) == a <==> Mod(s - t, d) == 0
  {
    ModAbsorb(a + s, -t, d);
    var q := (s - t) / d;
    assert s - t == q * d + (s - t) % d;
    if (s - t) % d == 0 {
      DivModUnique(a + s - t, q, a, d);
    } else if (a + s - t) % d == a {
      DivModUnique(s - t, (a + s - t) / d, 0, d);
      assert false;
    }
  }

  lemma CloseInjective(g: Halves, h: Halves, len: nat)
    requires Fits(len, 0, g) && Fits(len, 0, h) && Close(g, len) == Close(h, len)
    ensures g == h
  {
    OpenClose(g, len);
    OpenClose(h, len);
  }

  /** The halves that decryption as written recovers from an encryption. */
  lemma AsWrittenHalves(f: RoundFn, tw: Tweak, len: nat, n: nat, h: Halves)
    requires n % 2 == 0 && Fits(len, 0, h)
    ensures
      var left := Mod(Mod(h.a + Added(f, tw, len, n, h, 0), Pow2(U(len))) - TakenOff(f, tw, n, 0), Pow2(U(len)));
      var right := Mod(Mod(h.b + Added(f, tw, len, n, h, 1), Pow2(V(len))) - TakenOff(f, tw, n, 1), Pow2(V(len)));
      DecRounds(Blind(f), tw, len, n, EncRounds(f, tw, len, n, h)) == Halves(left, right)
  {
    hide Added, TakenOff, EncRounds, DecRounds, Pow2, Mod, Blind;
    EncRoundsFit(f, tw, len, n, h);
    EncAdds(f, tw, len, n, h);
    BlindTakesOff(f, tw, len, n, EncRounds(f, tw, len, n, h));
  }

  /** Decryption as written returns the plaintext of an encryption exactly when, on both sides,
      the round values added while encrypting and the constants taken off agree modulo the
      width of the side. */
  lemma AsWrittenIff(f: RoundFn, tw: Tweak, len: nat, n: nat, x: nat)
    requires n % 2 == 0
    ensures var h := Open(x, len);
      Decrypt(Blind(f), tw, len, n, Encrypt(f, tw, len, n, x)) == Low(x, len)
      <==>
      && Mod(Added(f, tw, len, n, h, 0) - TakenOff(f, tw, n, 0), Pow2(U(len))) == 0
      && Mod(Added(f, tw, len, n, h, 1) - TakenOff(f, tw, n, 1), Pow2(V(len))) == 0
  {
    hide Added, TakenOff, EncRounds, DecRounds, Open, Close, Pow2, Mod, Blind;
    var h := Open(x, len);
    var e := EncRounds(f, tw, len, n, h);
    var d := DecRounds(Blind(f), tw, len, n, e);
    EncRoundsFit(f, tw, len, n, h);
    OpenClose(e, len);
    CloseOpen(x, len);
    AsWrittenHalves(f, tw, len, n, h);
    ModReturns(h.a, Added(f, tw, len, n, h, 0), TakenOff(f, tw, n, 0), Pow2(U(len)));
    ModReturns(h.b, Added(f, tw, len, n, h, 1), TakenOff(f, tw, n, 1), Pow2(V(len)));
    if Close(d, len) == Close(h, len) {
      CloseInjective(d, h, len);
    }
  }

  // ---------------------------------------------------------------- all blocks at once

  /** Decryption as written returns every block that was encrypted. */
  ghost predicate RestoresAll(f: RoundFn, tw: Tweak, len: nat, n: nat) {
    forall x: nat :: Decrypt(Blind(f), tw, len, n, Encrypt(f, tw, len, n, x)) == Low(x, len)
  }

  /** The round values do not depend on the half they are given, as far as the round sees them. */
  ghost predicate Insensitive(f: RoundFn, tw: Tweak, len: nat, n: nat) {
    forall i: nat, half: nat :: i < n && half < Pow2(Width(len, i + 1)) ==>
      Mod(f(TweakWord(tw, i), half) - f(TweakWord(tw, i), 0), Pow2(Width(len, i))) == 0
  }

  /** It returns every block exactly if the cipher is the same with all halves zero: that is, if
      it only adds constants to the two halves. */
  lemma RestoresAllIff(f: RoundFn, tw: Tweak, len: nat, n: nat)
    requires n % 2 == 0
    ensures RestoresAll(f, tw, len, n) <==>
        forall x: nat :: Encrypt(f, tw, len, n, x) == Encrypt(Blind(f), tw, len, n, x)
  {
    hide Encrypt, Decrypt, Low, Blind;
    forall x: nat
      ensures Decrypt(Blind(f), tw, len, n, Encrypt(f, tw, len, n, x)) == Low(x, len)
         <==> Encrypt(f, tw, len, n, x) == Encrypt(Blind(f), tw, len, n, x)
    {
      var y := Encrypt(f, tw, len, n, x);
      DecryptEncrypt(f, tw, len, n, x);
      DecryptEncrypt(Blind(f), tw, len, n, x);
      EncryptDecrypt(Blind(f), tw, len, n, y);
      LowSmall(y, len);
    }
  }

  /** A round function that ignores its half is enough, which can be seen without any block. */
  lemma InsensitiveRestores(f: RoundFn, tw: Tweak, len: nat, n: nat)
    requires n % 2 == 0 && Insensitive(f, tw, len, n)
    ensures RestoresAll(f, tw, len, n)
  {
    hide Added, TakenOff, EncRounds, DecRounds, Open, Insensitive;
    forall x: nat
      ensures Decrypt(Blind(f), tw, len, n, Encrypt(f, tw, len, n, x)) == Low(x, len)
    {
      InsensitiveSums(f, tw, len, n, Open(x, len), n);
      AsWrittenIff(f, tw, len, n, x);
    }
  }

  lemma {:induction false} InsensitiveSums(f: RoundFn, tw: Tweak, len: nat, n: nat, h: Halves, k: nat)
    requires Insensitive(f, tw, len, n) && k <= n && Fits(len, 0, h)
    ensures Mod(Added(f, tw, len, k, h, 0) - TakenOff(f, tw, k, 0), Pow2(U(len))) == 0
    ensures Mod(Added(f, tw, len, k, h, 1) - TakenOff(f, tw, k, 1), Pow2(V(len))) == 0
  {
    hide Mod, EncRounds, Pow2, TweakWord;
    if k == 0 {
      ModSmall(0, Pow2(U(len)));
      ModSmall(0, Pow2(V(len)));
    } else {
      InsensitiveSums(f, tw, len, n, h, k - 1);
      EncRoundsFit(f, tw, len, k - 1, h);
      var w, half := TweakWord(tw, k - 1), EncRounds(f, tw, len, k - 1, h).b;
      var parity := (k - 1) % 2;
      ModAbsorb(Added(f, tw, len, k - 1, h, parity) - TakenOff(f, tw, k - 1, parity), f(w, half) - f(w, 0),
          Pow2(Width(len, k - 1)));
    }
  }

  // ---------------------------------------------------------------- for which numbers of rounds

  lemma {:induction false} XorZero(a: nat)
    ensures Xor(a, 0) == a && Xor(0, a) == a && Xor(a, a) == 0
  {
    if a > 0 {
      XorZero(a / 2);
    }
  }

  lemma XorSame(r: nat, j: nat)
    ensures Xor(r, j) == r <==> j == 0
  {
    XorZero(r);
    XorCancel(j, r);
    XorCommutes(r, j);
  }

  /** A round function that only ever adds 1, in round 0 and for the half 1. */
  function OneShot(tw: Tweak): RoundFn {
    (w: nat, half: nat) => if w == tw.right && half == 1 then 1 else 0
  }

  lemma {:induction false} OneShotSums(tw: Tweak, len: nat, n: nat, h: Halves)
    requires n > 0 && h.b == 1
    ensures Added(OneShot(tw), tw, len, n, h, 0) == 1 && TakenOff(OneShot(tw), tw, n, 0) == 0
  {
    hide Xor;
    XorSame(tw.right, n - 1);
    if n > 1 {
      OneShotSums(tw, len, n - 1, h);
    } else {
      assert EncRounds(OneShot(tw), tw, len, 0, h) == h;
      assert Added(OneShot(tw), tw, len, 0, h, 0) == 0 && TakenOff(OneShot(tw), tw, 0, 0) == 0;
    }
  }

  /** With it, decryption as written fails on some block, whatever tweak, length and rounds. */
  lemma AsWrittenFails(tw: Tweak, len: nat, n: nat) returns (x: nat)
    requires n % 2 == 0 && n > 0 && len >= 2
    ensures Decrypt(Blind(OneShot(tw)), tw, len, n, Encrypt(OneShot(tw), tw, len, n, x)) != Low(x, len)
  {
    hide Added, TakenOff, Open, Close, OneShot;
    var h := Halves(0, 1);
    Pow2Mono(1, V(len));
    Pow2Mono(1, U(len));
    assert Pow2(1) == 2;
    x := Close(h, len);
    OpenClose(h, len);
    OneShotSums(tw, len, n, h);
    AsWrittenIff(OneShot(tw), tw, len, n, x);
    ModSmall(1, Pow2(U(len)));
  }

  /** So the routine as written undoes encryption for all round functions and blocks only if there
      are no rounds at all. */
  lemma AsWrittenNeverUndoes(tw: Tweak, len: nat, n: nat)
    requires n % 2 == 0 && len >= 2
    ensures (forall f: RoundFn :: RestoresAll(f, tw, len, n)) <==> n == 0
  {
    if n > 0 {
      var x := AsWrittenFails(tw, len, n);
      assert !RestoresAll(OneShot(tw), tw, len, n);
    } else {
      forall f: RoundFn ensures RestoresAll(f, tw, len, n) {
        InsensitiveRestores(f, tw, len, n);
      }
    }
  }

  // ---------------------------------------------------------------- ignoring the half is not needed

  /** It gives the half back in rounds 0 and 2, where on two-bit blocks the two values cancel. */
  function Twice(): RoundFn {
    (w: nat, half: nat) => if w == 0 || w == 2 then half else 0
  }

  const TWICE_TWEAK: Tweak := Tweak(16, 0)

  lemma TwiceWords(i: nat)
    requires i < NUM_ROUNDS
    ensures TweakWord(TWICE_TWEAK, i) == 0 || TweakWord(TWICE_TWEAK, i) == 2 <==> i == 0 || i == 2
  {
    hide Xor;
    XorZero(i);
    if i % 2 == 1 {
      XorStep(16, i);
    }
  }

  lemma TwiceRound(i: nat, h: Halves)
    requires i < NUM_ROUNDS && h.a < 2 && h.b < 2
    ensures EncRound(Twice(), TWICE_TWEAK, 2, i, h) == Halves(h.b, if i == 0 || i == 2 then (h.a + h.b) % 2 else h.a)
  {
    hide TweakWord;
    TwiceWords(i);
    assert Pow2(1) == 2;
  }

  lemma {:induction false} TwiceRounds(k: nat, h: Halves)
    requires k <= NUM_ROUNDS && h.a < 2 && h.b < 2
    ensures EncRounds(Twice(), TWICE_TWEAK, 2, k, h) ==
      if k == 1 then Halves(h.b, (h.a + h.b) % 2) else if k == 2 then Halves((h.a + h.b) % 2, h.b)
      else if k % 2 == 0 then h else Halves(h.b, h.a)
  {
    hide EncRound, Twice;
    if k > 0 {
      TwiceRounds(k - 1, h);
      TwiceRound(k - 1, EncRounds(Twice(), TWICE_TWEAK, 2, k - 1, h));
    }
  }

  lemma {:induction false} BlindRounds(k: nat, h: Halves)
    requires h.a < 2 && h.b < 2
    ensures EncRounds(Blind(Twice()), TWICE_TWEAK, 2, k, h) == if k % 2 == 0 then h else Halves(h.b, h.a)
  {
    if k > 0 {
      BlindRounds(k - 1, h);
      assert Pow2(1) == 2;
    }
  }

  lemma TwiceEncrypts(x: nat)
    ensures Encrypt(Twice(), TWICE_TWEAK, 2, NUM_ROUNDS, x) == Encrypt(Blind(Twice()), TWICE_TWEAK, 2, NUM_ROUNDS, x)
  {
    hide EncRounds, Close;
    var h := Open(x, 2);
    assert Pow2(1) == 2;
    assert Fits(2, 0, h);
    TwiceRounds(NUM_ROUNDS, h);
    BlindRounds(NUM_ROUNDS, h);
  }

  /** The sufficient condition is not a necessary one: here the round values depend on the half,
      and still every block is returned. */
  lemma SensitiveYetRestores()
    ensures RestoresAll(Twice(), TWICE_TWEAK, 2, NUM_ROUNDS) && !Insensitive(Twice(), TWICE_TWEAK, 2, NUM_ROUNDS)
  {
    hide EncRound, Encrypt, Decrypt, Open;
    var f, tw := Twice(), TWICE_TWEAK;
    forall x: nat
      ensures Encrypt(f, tw, 2, NUM_ROUNDS, x) == Encrypt(Blind(f), tw, 2, NUM_ROUNDS, x)
    {
      TwiceEncrypts(x);
    }
    RestoresAllIff(f, tw, 2, NUM_ROUNDS);
    TwiceWords(0);
    assert Pow2(1) == 2;
    assert Mod(f(TweakWord(tw, 0), 1) - f(TweakWord(tw, 0), 0), 2) == 1;
  }
}
