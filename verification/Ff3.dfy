/** The FF3 format-preserving cipher with radix 2 (nat_eval/enc_lib/ff3/ff3.c).

    The AES call is an uninterpreted round function of the block it is given: the tweak word
    with the round number xored into its low byte, and the half.  Its value is the signed 64-bit
    number the code reads back.  Adding it wraps at 64 bits in the code, which the reduction to
    at most 24 bits does not see.
  */
module Ff3 {
  import opened Bits

  type RoundFn = (nat, nat) -> int

  datatype Tweak = Tweak(left: nat, right: nat)

  const NUM_ROUNDS: nat := 8
  const MAX_LEN: nat := 48

  // ---------------------------------------------------------------- rounds

  function V(len: nat): nat { len / 2 }

  function U(len: nat): nat { len - len / 2 }

  /** Width of the half a round replaces, and the tweak word it uses. */
  function Width(len: nat, i: nat): nat { if i % 2 == 0 then U(len) else V(len) }

  function Side(tw: Tweak, i: nat): nat { if i % 2 == 0 then tw.right else tw.left }

  /** The word the cipher sees in round `i`: reversing its bytes turns the xor of the round number
      into the last byte into one into the first. */
  function TweakWord(tw: Tweak, i: nat): nat { Xor(Side(tw, i), i) }

  /** The two halves, bit-reversed as the loops keep them. */
  datatype Halves = Halves(a: nat, b: nat)

  /** Halves as they stand before round `i`. */
  ghost predicate Fits(len: nat, i: nat, h: Halves) {
    h.a < Pow2(Width(len, i)) && h.b < Pow2(Width(len, i + 1))
  }

  /** x & ((1 << m) - 1) in two's complement, for d = 2^m. */
  function Mod(x: int, d: nat): (r: nat)
    requires d > 0
    ensures r < d
  {
    x % d
  }

  function EncRound(f: RoundFn, tw: Tweak, len: nat, i: nat, h: Halves): (r: Halves)
    ensures h.b < Pow2(Width(len, i + 1)) ==> Fits(len, i + 1, r)
  {
    var c := Mod(f(TweakWord(tw, i), h.b) + h.a, Pow2(Width(len, i)));
    assert Width(len, i + 2) == Width(len, i);
    Halves(h.b, c)
  }

  function DecRound(f: RoundFn, tw: Tweak, len: nat, i: nat, h: Halves): (r: Halves)
    ensures h.a < Pow2(Width(len, i + 1)) ==> Fits(len, i, r)
  {
    var c := Mod(h.b - f(TweakWord(tw, i), h.a), Pow2(Width(len, i)));
    Halves(c, h.a)
  }

  function EncRounds(f: RoundFn, tw: Tweak, len: nat, n: nat, h: Halves): Halves {
    if n == 0 then h else EncRound(f, tw, len, n - 1, EncRounds(f, tw, len, n - 1, h))
  }

  function DecRounds(f: RoundFn, tw: Tweak, len: nat, n: nat, h: Halves): Halves {
    if n == 0 then h else DecRounds(f, tw, len, n - 1, DecRound(f, tw, len, n - 1, h))
  }

  // ---------------------------------------------------------------- modular arithmetic

  lemma ModAbsorb(x: int, y: int, d: nat)
    requires d > 0
    ensures Mod(Mod(x, d) + y, d) == Mod(x + y, d)
  {
    var q, s := x / d, (x + y) / d;
    assert x == q * d + x % d && x + y == s * d + (x + y) % d;
    assert x % d + y == (s - q) * d + (x + y) % d;
    DivModUnique(x % d + y, s - q, (x + y) % d, d);
  }

  lemma ModSmall(x: nat, d: nat)
    requires x < d
    ensures Mod(x, d) == x
  {
  }

  // ---------------------------------------------------------------- rounds undo each other

  lemma RoundUndone(f: RoundFn, tw: Tweak, len: nat, i: nat, h: Halves)
    requires Fits(len, i, h)
    ensures DecRound(f, tw, len, i, EncRound(f, tw, len, i, h)) == h
  {
    hide Mod;
    var d, y := Pow2(Width(len, i)), f(TweakWord(tw, i), h.b);
    ModAbsorb(y + h.a, -y, d);
    ModSmall(h.a, d);
  }

  lemma RoundRedone(f: RoundFn, tw: Tweak, len: nat, i: nat, h: Halves)
    requires Fits(len, i + 1, h)
    ensures EncRound(f, tw, len, i, DecRound(f, tw, len, i, h)) == h
  {
    hide Mod;
    var d, y := Pow2(Width(len, i)), f(TweakWord(tw, i), h.a);
    assert Width(len, i + 2) == Width(len, i);
    ModAbsorb(h.b - y, y, d);
    ModSmall(h.b, d);
  }

  lemma {:induction false} EncRoundsFit(f: RoundFn, tw: Tweak, len: nat, n: nat, h: Halves)
    requires Fits(len, 0, h)
    ensures Fits(len, n, EncRounds(f, tw, len, n, h))
  {
    if n > 0 {
      EncRoundsFit(f, tw, len, n - 1, h);
    }
  }

  lemma {:induction false} DecRoundsFit(f: RoundFn, tw: Tweak, len: nat, n: nat, h: Halves)
    requires Fits(len, n, h)
    ensures Fits(len, 0, DecRounds(f, tw, len, n, h))
  {
    hide DecRound, Pow2;
    if n > 0 {
      DecRoundsFit(f, tw, len, n - 1, DecRound(f, tw, len, n - 1, h));
    }
  }

  /** For any number of rounds, the decrypt loop undoes the encrypt loop ... */
  lemma {:induction false} DecUndoesEnc(f: RoundFn, tw: Tweak, len: nat, n: nat, h: Halves)
    requires Fits(len, 0, h)
    ensures DecRounds(f, tw, len, n, EncRounds(f, tw, len, n, h)) == h
  {
    hide EncRound, DecRound, Fits;
    if n > 0 {
      EncRoundsFit(f, tw, len, n - 1, h);
      RoundUndone(f, tw, len, n - 1, EncRounds(f, tw, len, n - 1, h));
      DecUndoesEnc(f, tw, len, n - 1, h);
    }
  }

  /** ... and the other way round. */
  lemma {:induction false} EncUndoesDec(f: RoundFn, tw: Tweak, len: nat, n: nat, h: Halves)
    requires Fits(len, n, h)
    ensures EncRounds(f, tw, len, n, DecRounds(f, tw, len, n, h)) == h
  {
    hide EncRound, DecRound, Width;
    if n > 0 {
      var g := DecRound(f, tw, len, n - 1, h);
      EncUndoesDec(f, tw, len, n - 1, g);
      RoundRedone(f, tw, len, n - 1, h);
    }
  }

  // ---------------------------------------------------------------- the cipher on words

  /** Step 2 and the hoisted reversals: split a word into reversed halves. */
  function Open(x: nat, len: nat): (h: Halves)
    ensures Fits(len, 0, h)
  {
    Halves(Rev(Shr(x, V(len)), U(len)), Rev(Low(x, V(len)), V(len)))
  }

  /** The last statement: reverse back and join. */
  function Close(h: Halves, len: nat): nat {
    Join(Rev(h.a, U(len)), Rev(h.b, V(len)), V(len))
  }

  lemma OpenClose(h: Halves, len: nat)
    requires Fits(len, 0, h)
    ensures Open(Close(h, len), len) == h
  {
    SplitJoin(Rev(h.a, U(len)), Rev(h.b, V(len)), V(len));
    RevRev(h.a, U(len));
    RevRev(h.b, V(len));
  }

  /** Reversed back, the halves are the low `len` bits of the word: higher bits are ignored. */
  lemma CloseOpen(x: nat, len: nat)
    ensures Close(Open(x, len), len) == Low(x, len) < Pow2(len)
  {
    hide Rev, Low, Shr, Join, Pow2;
    var u, v := U(len), V(len);
    var hi, lo := Low(Shr(x, v), u), Low(x, v);
    RevLow(Shr(x, v), u);
    RevRev(hi, u);
    RevRev(lo, v);
    LowJoin(x, u, v);
  }

  /** The bits of a closed word, highest first, are those of the halves, lowest first. */
  lemma CloseBit(h: Halves, len: nat, k: nat)
    requires k < len
    ensures Bit(Close(h, len), k) == if k < V(len) then Bit(h.b, V(len) - 1 - k) else Bit(h.a, len - 1 - k)
  {
    hide Bit, Rev, Join, Pow2;
    JoinBit(Rev(h.a, U(len)), Rev(h.b, V(len)), V(len), k);
    if k < V(len) {
      RevBit(h.b, V(len), k);
    } else {
      RevBit(h.a, U(len), k - V(len));
    }
  }

  lemma OpenIgnores(x: nat, len: nat)
    ensures Open(x, len) == Open(Low(x, len), len)
  {
    CloseOpen(x, len);
    OpenClose(Open(x, len), len);
  }

  function Encrypt(f: RoundFn, tw: Tweak, len: nat, n: nat, x: nat): nat {
    Close(EncRounds(f, tw, len, n, Open(x, len)), len)
  }

  function Decrypt(f: RoundFn, tw: Tweak, len: nat, n: nat, x: nat): nat {
    Close(DecRounds(f, tw, len, n, Open(x, len)), len)
  }

  lemma EvenRoundsFit(len: nat, n: nat, h: Halves)
    requires n % 2 == 0
    ensures Fits(len, n, h) <==> Fits(len, 0, h)
  {
  }

  /** Decrypting undoes encrypting: the low `len` bits come back, bits above are ignored. */
  lemma DecryptEncrypt(f: RoundFn, tw: Tweak, len: nat, n: nat, x: nat)
    requires n % 2 == 0
    ensures Encrypt(f, tw, len, n, x) < Pow2(len)
    ensures Encrypt(f, tw, len, n, x) == Encrypt(f, tw, len, n, Low(x, len))
    ensures Decrypt(f, tw, len, n, Encrypt(f, tw, len, n, x)) == Low(x, len)
  {
    var h := Open(x, len);
    var e := EncRounds(f, tw, len, n, h);
    EncRoundsFit(f, tw, len, n, h);
    EvenRoundsFit(len, n, e);
    OpenClose(e, len);
    DecUndoesEnc(f, tw, len, n, h);
    CloseOpen(x, len);
    CloseOpen(Close(e, len), len);
    OpenClose(h, len);
  }

  /** Encrypting undoes decrypting: with the above, a permutation of the `len`-bit words. */
  lemma EncryptDecrypt(f: RoundFn, tw: Tweak, len: nat, n: nat, x: nat)
    requires n % 2 == 0
    ensures Decrypt(f, tw, len, n, x) < Pow2(len)
    ensures Encrypt(f, tw, len, n, Decrypt(f, tw, len, n, x)) == Low(x, len)
  {
    var h := Open(x, len);
    var e := DecRounds(f, tw, len, n, h);
    EvenRoundsFit(len, n, h);
    DecRoundsFit(f, tw, len, n, h);
    OpenClose(e, len);
    EncUndoesDec(f, tw, len, n, h);
    CloseOpen(x, len);
    CloseOpen(Close(e, len), len);
  }

  // ---------------------------------------------------------------- Algorithm 9 of SP 800-38G

  /** One round of FF3.Encrypt in section 5.2 of NIST SP 800-38G, on halves that are not kept
      reversed: NUM(REV(A)) plus the round value, then REV(STR(c)). */
  function NistRound(f: RoundFn, tw: Tweak, len: nat, i: nat, h: Halves): Halves {
    var u := (len + 1) / 2;
    var v := len - u;
    var (m, other, t) := if i % 2 == 0 then (u, v, tw.right) else (v, u, tw.left);
    var c: nat := (Rev(h.a, m) + f(Xor(t, i), Rev(h.b, other))) % Pow2(m);
    Halves(h.b, Rev(c, m))
  }

  lemma NistRoundFits(f: RoundFn, tw: Tweak, len: nat, i: nat, h: Halves)
    requires h.b < Pow2(Width(len, i + 1))
    ensures Fits(len, i + 1, NistRound(f, tw, len, i, h))
  {
    hide Rev, Xor, Pow2;
    assert (len + 1) / 2 == U(len);
    assert Width(len, i + 2) == Width(len, i);
  }

  function NistRounds(f: RoundFn, tw: Tweak, len: nat, n: nat, h: Halves): Halves {
    if n == 0 then h else NistRound(f, tw, len, n - 1, NistRounds(f, tw, len, n - 1, h))
  }

  function NistEncrypt(f: RoundFn, tw: Tweak, len: nat, n: nat, x: nat): nat {
    var u := (len + 1) / 2;
    var v := len - u;
    var r := NistRounds(f, tw, len, n, Halves(Low(Shr(x, v), u), Low(x, v)));
    Join(r.a, r.b, v)
  }

  function Reversed(len: nat, i: nat, h: Halves): Halves {
    Halves(Rev(h.a, Width(len, i)), Rev(h.b, Width(len, i + 1)))
  }

  lemma RoundSimulates(f: RoundFn, tw: Tweak, len: nat, i: nat, h: Halves)
    ensures EncRound(f, tw, len, i, Reversed(len, i, h)) == Reversed(len, i + 1, NistRound(f, tw, len, i, h))
  {
    hide Rev, Xor, Pow2;
    var m := Width(len, i);
    assert (len + 1) / 2 == U(len);
    assert Width(len, i + 2) == m;
    RevRev(Mod(Rev(h.a, m) + f(TweakWord(tw, i), Rev(h.b, Width(len, i + 1))), Pow2(m)), m);
  }

  lemma {:induction false} RoundsSimulate(f: RoundFn, tw: Tweak, len: nat, n: nat, h: Halves)
    ensures EncRounds(f, tw, len, n, Reversed(len, 0, h)) == Reversed(len, n, NistRounds(f, tw, len, n, h))
  {
    hide EncRound, NistRound, Reversed;
    if n > 0 {
      RoundsSimulate(f, tw, len, n - 1, h);
      RoundSimulates(f, tw, len, n - 1, NistRounds(f, tw, len, n - 1, h));
    }
  }

  lemma {:induction false} NistRoundsFit(f: RoundFn, tw: Tweak, len: nat, n: nat, h: Halves)
    requires Fits(len, 0, h)
    ensures Fits(len, n, NistRounds(f, tw, len, n, h))
  {
    hide NistRound;
    if n > 0 {
      NistRoundsFit(f, tw, len, n - 1, h);
      NistRoundFits(f, tw, len, n - 1, NistRounds(f, tw, len, n - 1, h));
    }
  }

  /** Hoisting the reversals out of the loop preserves meaning: the code computes Algorithm 9
      with the same round values. */
  lemma EncryptIsNist(f: RoundFn, tw: Tweak, len: nat, n: nat, x: nat)
    requires n % 2 == 0
    ensures Encrypt(f, tw, len, n, x) == NistEncrypt(f, tw, len, n, x)
  {
    hide Rev, Low, Shr, NistRounds, EncRounds;
    assert (len + 1) / 2 == U(len);
    var h := Halves(Low(Shr(x, V(len)), U(len)), Low(x, V(len)));
    RevLow(Shr(x, V(len)), U(len));
    RevLow(x, V(len));
    assert Open(x, len) == Reversed(len, 0, h);
    RoundsSimulate(f, tw, len, n, h);
    NistRoundsFit(f, tw, len, n, h);
    var r := NistRounds(f, tw, len, n, h);
    RevRev(r.a, U(len));
    RevRev(r.b, V(len));
  }

  // ---------------------------------------------------------------- decryption as written

  /** As written, `ff3_decrypt` puts the half into the buffer that the AES call then clears, so
      the round function sees a zero half. */
  function Blind(f: RoundFn): RoundFn {
    (w: nat, half: nat) => f(w, 0)
  }
}
