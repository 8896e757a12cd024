/** `ff3_encrypt` and `ff3_decrypt` as loops over machine words (nat_eval/enc_lib/ff3/ff3.c). */
module Ff3Code {
  import opened Basics
  import opened Bits
  import opened FfLib
  import opened Ff3

  /** (x << k) >> k on a 32-bit word. */
  function ShlShr(x: nat, k: nat): nat
    requires k < 32
  {
    Shr(x % U32 * Pow2(k) % U32, k)
  }

  /** It keeps the low 32 - k bits. */
  lemma ShlShrIsLow(x: nat, k: nat)
    requires k < 32
    ensures ShlShr(x, k) == Low(x, 32 - k)
  {
    var n := 32 - k;
    Pow2Values();
    LowIsMod(x, 32);
    LowLow(x, n, 32);
    var y := Low(x, 32);
    ShrLow(y, n);
    Pow2Add(n, k);
    ShlMod(Shr(y, n), Low(y, n), n, k);
  }

  lemma ShlMod(q: nat, r: nat, n: nat, k: nat)
    requires r < Pow2(n) && Pow2(n) * Pow2(k) == U32 == Pow2(n + k)
    ensures Shr((q * Pow2(n) + r) * Pow2(k) % U32, k) == r
  {
    var s := r * Pow2(k);
    MulGap(r, Pow2(n), Pow2(k));
    Regroup(q, r, Pow2(n), Pow2(k));
    DivModUnique((q * Pow2(n) + r) * Pow2(k), q, s, U32);
    SplitJoin(r, 0, k);
  }

  lemma Regroup(q: nat, r: nat, a: nat, b: nat)
    ensures (q * a + r) * b == q * (a * b) + r * b
  {
    assert (q * a + r) * b == q * a * b + r * b;
  }

  lemma {:induction false} LowLow(x: nat, n: nat, m: nat)
    requires n <= m
    ensures Low(Low(x, m), n) == Low(x, n)
    decreases m
  {
    if n > 0 {
      LowLow(x / 2, n - 1, m - 1);
      assert Low(x, m) / 2 == Low(x / 2, m - 1);
    }
  }

  lemma RevWord(x: nat, u: nat)
    requires u <= 32
    ensures x % U32 < U32 && BitReverseM(x % U32, u) == Rev(x, u)
  {
    Pow2Values();
    LowIsMod(x, 32);
    BitReverseMIsRev(x % U32, u);
    RevLow(x, u);
    RevLow(Low(x, 32), u);
    LowLow(x, u, 32);
  }

  lemma HalfIsWord(x: nat, w: nat)
    requires x < Pow2(w) && w <= 32
    ensures x < U32
  {
    Pow2Values();
    Pow2Mono(w, 32);
  }

  /** The split of the input block into reversed halves. */
  method OpenBlock(x: nat, len: nat) returns (a: nat, b: nat)
    requires 2 <= len <= MAX_LEN
    ensures Halves(a, b) == Open(x, len)
  {
    hide Rev, Low, Pow2, BitReverseM, ShlShr;
    var v := len / 2;
    var u := len - v;
    a := Shr(x, v) % U32;
    b := ShlShr(x, 32 - v);
    ShlShrIsLow(x, 32 - v);
    RevWord(Shr(x, v), u);
    HalfIsWord(b, v);
    BitReverseMIsRev(b, v);
    a := BitReverseM(a, u);
    b := BitReverseM(b, v);
  }

  /** Reversing the halves back and joining them. */
  method CloseBlock(a: nat, b: nat, len: nat) returns (x: nat)
    requires 2 <= len <= MAX_LEN && Fits(len, 0, Halves(a, b))
    ensures x == Close(Halves(a, b), len)
  {
    var v := len / 2;
    var u := len - v;
    HalfIsWord(a, u);
    HalfIsWord(b, v);
    BitReverseMIsRev(a, u);
    BitReverseMIsRev(b, v);
    x := Join(BitReverseM(a, u), BitReverseM(b, v), v);
  }

  /** `ff3_encrypt`: fails above 48 bits.  With fewer than 2 bits the code would shift a
      32-bit word by 32. */
  method Ff3Encrypt(f: RoundFn, pt: nat, len: nat, tw: Tweak) returns (ct: Option<nat>)
    requires len >= 2
    ensures ct == if len > MAX_LEN then None else Some(Encrypt(f, tw, len, NUM_ROUNDS, pt))
  {
    hide Open, Close, EncRound, Fits;
    if len > MAX_LEN {
      return None;
    }
    var a, b := OpenBlock(pt, len);
    ghost var h := Open(pt, len);
    for i := 0 to NUM_ROUNDS
      invariant Halves(a, b) == EncRounds(f, tw, len, i, h)
    {
      a, b := EncStep(f, tw, len, i, a, b);
    }
    EncRoundsFit(f, tw, len, NUM_ROUNDS, h);
    EvenRoundsFit(len, NUM_ROUNDS, Halves(a, b));
    var x := CloseBlock(a, b, len);
    ct := Some(x);
  }

  /** Body of the encryption loop. */
  method EncStep(f: RoundFn, tw: Tweak, len: nat, i: nat, a0: nat, b0: nat) returns (a: nat, b: nat)
    ensures Halves(a, b) == EncRound(f, tw, len, i, Halves(a0, b0))
  {
    var m, w;
    if i % 2 == 0 {
      m, w := len - len / 2, tw.right;
    } else {
      m, w := len / 2, tw.left;
    }
    var y := f(Xor(w, i), b0);
    var c := Mod(y + a0, Pow2(m));
    a := b0;
    b := c;
  }

  /** `ff3_decrypt`.  `intoT` says into which buffer the half goes that the round function
      should see: `T`, as in encryption and as the comment asks, or `P`, as written, which the
      cipher call clears before use. */
  method Ff3Decrypt(f: RoundFn, ct: nat, len: nat, tw: Tweak, intoT: bool) returns (pt: Option<nat>)
    requires len >= 2
    ensures pt == if len > MAX_LEN then None
                  else Some(Decrypt(if intoT then f else Blind(f), tw, len, NUM_ROUNDS, ct))
  {
    hide Open, Close, DecRound, Fits;
    if len > MAX_LEN {
      return None;
    }
    var a, b := OpenBlock(ct, len);
    ghost var h := Open(ct, len);
    ghost var g := if intoT then f else Blind(f);
    var i := NUM_ROUNDS as int - 1;
    while i >= 0
      invariant -1 <= i < NUM_ROUNDS
      invariant DecRounds(g, tw, len, i + 1, Halves(a, b)) == DecRounds(g, tw, len, NUM_ROUNDS, h)
    {
      a, b := DecStep(f, tw, len, i, a, b, intoT);
      i := i - 1;
    }
    EvenRoundsFit(len, NUM_ROUNDS, h);
    DecRoundsFit(g, tw, len, NUM_ROUNDS, h);
    var x := CloseBlock(a, b, len);
    pt := Some(x);
  }

  /** Body of the decryption loop. */
  method DecStep(f: RoundFn, tw: Tweak, len: nat, i: nat, a0: nat, b0: nat, intoT: bool) returns (a: nat, b: nat)
    ensures Halves(a, b) == DecRound(if intoT then f else Blind(f), tw, len, i, Halves(a0, b0))
  {
    var m, w;
    if i % 2 == 0 {
      m, w := len - len / 2, tw.right;
    } else {
      m, w := len / 2, tw.left;
    }
    var half := if intoT then a0 else 0;
    var y := f(Xor(w, i), half);
    var c := Mod(b0 - y, Pow2(m));
    b := a0;
    a := c;
  }

  /** End to end: what `ff3_encrypt` produces, decryption through `T` returns, for every block
      of 2 to 48 bits. */
  method EncryptThenDecrypt(f: RoundFn, pt: nat, len: nat, tw: Tweak) returns (back: nat)
    requires 2 <= len <= MAX_LEN
    ensures back == Low(pt, len)
  {
    var ct := Ff3Encrypt(f, pt, len, tw);
    var r := Ff3Decrypt(f, ct.value, len, tw, true);
    DecryptEncrypt(f, tw, len, NUM_ROUNDS, pt);
    back := r.value;
  }
}
