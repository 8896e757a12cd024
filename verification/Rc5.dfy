/** RC5 with 16-bit words (cipher of section 6 of RFC 2040) and the whitening around it
    (nat_eval/enc_lib/rc5.h, nat_eval/enc_lib/nat_enc.h). */
module Rc5 {
  import opened Basics
  import opened Bits

  const ROUNDS: nat := 20

  /** The rotation macros: `a` is promoted to int before shifting, so the shift by 16 that
      amount 0 causes is well defined; the assignment cuts the result back to 16 bits. */
  function RotL(a: nat, n: nat): nat {
    var k := n % 16; Low(Or(a * Pow2(k), Shr(a, 16 - k)), 16)
  }

  function RotR(a: nat, n: nat): nat {
    var k := n % 16; Low(Or(a * Pow2(16 - k), Shr(a, k)), 16)
  }

  /** Both are the two parts of the word, exchanged. */
  lemma RotIsSwap(a: nat, k: nat)
    requires a < U16 && k <= 16
    ensures Low(Or(a * Pow2(k), Shr(a, 16 - k)), 16) == Join(Low(a, 16 - k), Shr(a, 16 - k), k)
    ensures Shr(a, 16 - k) < Pow2(k)
  {
    hide Or, Low, Shr, Pow2;
    Pow2Values();
    ShrBound(a, 16 - k, k);
    OrJoin(a, Shr(a, 16 - k), k);
    var w := Join(a, Shr(a, 16 - k), k);
    SplitJoin(a, Shr(a, 16 - k), k);
    LowJoin(w, 16 - k, k);
  }

  /** Exchanging the parts back gives the word. */
  lemma SwapSwap(a: nat, k: nat, b: nat)
    requires a < U16 && k <= 16 && b == Join(Low(a, 16 - k), Shr(a, 16 - k), k)
    ensures b < U16 && Join(Low(b, k), Shr(b, k), 16 - k) == a
  {
    hide Or, Low, Shr, Pow2;
    Pow2Values();
    ShrBound(a, 16 - k, k);
    SplitJoin(Low(a, 16 - k), Shr(a, 16 - k), k);
    JoinBound(Low(a, 16 - k), Shr(a, 16 - k), 16 - k, k);
    JoinSplit(a, 16 - k);
  }

  lemma RotBack(a: nat, n: nat)
    requires a < U16
    ensures RotL(a, n) < U16 && RotR(RotL(a, n), n) == a
  {
    hide Or, Low, Shr, Pow2, Join;
    var k := n % 16;
    RotIsSwap(a, k);
    SwapSwap(a, k, RotL(a, n));
    RotIsSwap(RotL(a, n), 16 - k);
  }

  lemma RotForth(a: nat, n: nat)
    requires a < U16
    ensures RotR(a, n) < U16 && RotL(RotR(a, n), n) == a
  {
    hide Or, Low, Shr, Pow2, Join;
    var k := n % 16;
    RotIsSwap(a, 16 - k);
    SwapSwap(a, 16 - k, RotR(a, n));
    RotIsSwap(RotR(a, n), k);
  }

  /** 16-bit addition and subtraction wrap. */
  function Add16(a: nat, k: nat): (r: nat)
    ensures r < U16
  {
    (a + k) % U16
  }

  function Sub16(a: nat, k: nat): (r: nat)
    ensures r < U16
  {
    (a - k) % U16
  }

  lemma PlusMinus(a: nat, k: nat)
    requires a < U16
    ensures Sub16(Add16(a, k), k) == a && Add16(Sub16(a, k), k) == a
  {
  }

  lemma XorWord(a: nat, b: nat)
    requires a < U16 && b < U16
    ensures Xor(a, b) < U16 && Xor(Xor(a, b), b) == a
  {
    Pow2Values();
    XorBound(a, b, 16);
    XorCancel(a, b);
  }

  // ---------------------------------------------------------------- rounds

  datatype Block = Block(a: nat, b: nat)

  ghost predicate BlockOk(x: Block) { x.a < U16 && x.b < U16 }

  /** E_RC5_16: rotation amounts come from the data. */
  function ERound(x: Block, s: seq<nat>, n: nat): (y: Block)
    requires n + 1 < |s|
    ensures BlockOk(y)
  {
    var a := Add16(RotL(Xor(x.a, x.b), x.b), s[n]);
    var b := Add16(RotL(Xor(x.b, a), a), s[n + 1]);
    Block(a, b)
  }

  /** D_RC5_16 */
  function DRound(x: Block, s: seq<nat>, n: nat): Block
    requires n + 1 < |s|
  {
    var b := Xor(RotR(Sub16(x.b, s[n + 1]), x.a), x.a);
    var a := Xor(RotR(Sub16(x.a, s[n]), b), b);
    Block(a, b)
  }

  lemma RoundUndone(x: Block, s: seq<nat>, n: nat)
    requires n + 1 < |s| && BlockOk(x)
    ensures DRound(ERound(x, s, n), s, n) == x
  {
    hide RotL, RotR, Add16, Sub16, Xor;
    var y := ERound(x, s, n);
    XorWord(x.b, y.a);
    RotBack(Xor(x.b, y.a), y.a);
    PlusMinus(RotL(Xor(x.b, y.a), y.a), s[n + 1]);
    XorWord(x.a, x.b);
    RotBack(Xor(x.a, x.b), x.b);
    PlusMinus(RotL(Xor(x.a, x.b), x.b), s[n]);
  }

  lemma RoundRedone(x: Block, s: seq<nat>, n: nat)
    requires n + 1 < |s| && BlockOk(x)
    ensures BlockOk(DRound(x, s, n)) && ERound(DRound(x, s, n), s, n) == x
  {
    hide RotL, RotR, Add16, Sub16, Xor;
    var y := DRound(x, s, n);
    var p, q := Sub16(x.a, s[n]), Sub16(x.b, s[n + 1]);
    RotForth(q, x.a);
    XorWord(RotR(q, x.a), x.a);
    PlusMinus(x.b, s[n + 1]);
    RotForth(p, y.b);
    XorWord(RotR(p, y.b), y.b);
    PlusMinus(x.a, s[n]);
  }

  /** Rounds 1 to r, as the copies of the macro are written out. */
  function ERounds(x: Block, s: seq<nat>, r: nat): (y: Block)
    requires 2 * r + 1 < |s|
    ensures BlockOk(x) ==> BlockOk(y)
  {
    if r == 0 then x else ERound(ERounds(x, s, r - 1), s, 2 * r)
  }

  function DRounds(x: Block, s: seq<nat>, r: nat): Block
    requires 2 * r + 1 < |s|
    decreases r
  {
    if r == 0 then x else DRounds(DRound(x, s, 2 * r), s, r - 1)
  }

  function Encrypt(x: Block, s: seq<nat>, r: nat): Block
    requires 2 * r + 1 < |s|
  {
    ERounds(Block(Add16(x.a, s[0]), Add16(x.b, s[1])), s, r)
  }

  function Decrypt(x: Block, s: seq<nat>, r: nat): Block
    requires 2 * r + 1 < |s|
  {
    var y := DRounds(x, s, r); Block(Sub16(y.a, s[0]), Sub16(y.b, s[1]))
  }

  lemma {:induction false} RoundsUndone(x: Block, s: seq<nat>, r: nat)
    requires 2 * r + 1 < |s| && BlockOk(x)
    ensures DRounds(ERounds(x, s, r), s, r) == x
  {
    hide ERound, DRound;
    if r > 0 {
      RoundUndone(ERounds(x, s, r - 1), s, 2 * r);
      RoundsUndone(x, s, r - 1);
    }
  }

  lemma {:induction false} RoundsRedone(x: Block, s: seq<nat>, r: nat)
    requires 2 * r + 1 < |s| && BlockOk(x)
    ensures BlockOk(DRounds(x, s, r)) && ERounds(DRounds(x, s, r), s, r) == x
    decreases r
  {
    hide ERound, DRound;
    if r > 0 {
      RoundRedone(x, s, 2 * r);
      RoundsRedone(DRound(x, s, 2 * r), s, r - 1);
    }
  }

  /** For every key schedule and number of rounds, a permutation of the blocks and its
      inverse. */
  lemma CipherInverts(x: Block, s: seq<nat>, r: nat)
    requires 2 * r + 1 < |s| && BlockOk(x)
    ensures Decrypt(Encrypt(x, s, r), s, r) == x && BlockOk(Encrypt(x, s, r))
    ensures Encrypt(Decrypt(x, s, r), s, r) == x && BlockOk(Decrypt(x, s, r))
  {
    hide ERounds, DRounds, Add16, Sub16;
    PlusMinus(x.a, s[0]);
    PlusMinus(x.b, s[1]);
    RoundsUndone(Block(Add16(x.a, s[0]), Add16(x.b, s[1])), s, r);
    RoundsRedone(x, s, r);
    var y := DRounds(x, s, r);
    PlusMinus(y.a, s[0]);
    PlusMinus(y.b, s[1]);
  }

  // ---------------------------------------------------------------- half rounds

  /** A rotation by the low four bits of the amount, one place at a time. */
  function TurnLeft(a: nat, n: nat): nat { Turns(a, n % 16, 0x8000) }

  lemma RotIsTurns(a: nat, n: nat)
    requires a < U16
    ensures RotL(a, n) == TurnLeft(a, n)
  {
    hide Or, Low, Shr, Pow2, Join, Turns;
    Pow15();
    RotIsSwap(a, n % 16);
    SwappedIsTurns(a, n % 16, 16);
  }

  lemma Pow15()
    ensures Pow2(15) == 0x8000 && Pow2(16) == U16
  {
    Pow2Values();
    Doubled(15);
  }

  /** Half a round as section 4.1 of the RC5 paper analyses it: the words change places, and the one
      that moves is mixed with the other, turned by it, and gets the next word of the key. */
  function HalfRound(x: Block, k: nat): Block {
    Block(x.b, (TurnLeft(Xor(x.a, x.b), x.b) + k) % 0x1_0000)
  }

  /** Half rounds 2 to i; half round j takes word j of the key. */
  function HalfRounds(x: Block, s: seq<nat>, i: nat): Block
    requires i < |s|
  {
    if i <= 1 then x else HalfRound(HalfRounds(x, s, i - 1), s[i])
  }

  lemma RoundIsHalves(x: Block, s: seq<nat>, n: nat)
    requires n + 1 < |s| && BlockOk(x)
    ensures ERound(x, s, n) == HalfRound(HalfRound(x, s[n]), s[n + 1])
  {
    hide RotL, TurnLeft, Xor;
    XorWord(x.a, x.b);
    RotIsTurns(Xor(x.a, x.b), x.b);
    var a := Add16(RotL(Xor(x.a, x.b), x.b), s[n]);
    XorWord(x.b, a);
    RotIsTurns(Xor(x.b, a), a);
  }

  /** The cipher is 2r half rounds after the first two words of the key are added: so word j enters
      half round j, for every block, key and number of rounds. */
  lemma {:induction false} RoundsAreHalves(x: Block, s: seq<nat>, r: nat)
    requires 2 * r + 1 < |s| && BlockOk(x)
    ensures ERounds(x, s, r) == HalfRounds(x, s, 2 * r + 1)
  {
    hide ERound, HalfRound;
    if r > 0 {
      RoundsAreHalves(x, s, r - 1);
      RoundIsHalves(ERounds(x, s, r - 1), s, 2 * r);
      assert HalfRounds(x, s, 2 * r) == HalfRound(HalfRounds(x, s, 2 * r - 1), s[2 * r]);
    }
  }

  lemma EncryptIsHalves(x: Block, s: seq<nat>, r: nat)
    requires 2 * r + 1 < |s| && BlockOk(x)
    ensures Encrypt(x, s, r) == HalfRounds(Block((x.a + s[0]) % 0x1_0000, (x.b + s[1]) % 0x1_0000), s, 2 * r + 1)
  {
    hide ERounds, HalfRounds;
    RoundsAreHalves(Block(Add16(x.a, s[0]), Add16(x.b, s[1])), s, r);
  }

  // ---------------------------------------------------------------- whitening

  /** A 32-bit word as the two 16-bit words at its address (little-endian). */
  function Halve(w: nat): Block { Block(w % U16, w / U16) }

  function Whole(x: Block): nat { x.b * U16 + x.a }

  lemma HalveWhole(w: nat, x: Block)
    requires w < U16 * U16 && BlockOk(x)
    ensures Whole(Halve(w)) == w && BlockOk(Halve(w)) && Halve(w).a + 0x1_0000 * Halve(w).b == w
    ensures Halve(Whole(x)) == x && Whole(x) < U16 * U16
  {
  }

  lemma Whitened(w: nat, hash: nat)
    requires w < U16 * U16 && hash < U16 * U16
    ensures Xor(w, hash) < U16 * U16 && Xor(Xor(w, hash), hash) == w
  {
    Pow2Values();
    XorBound(w, hash, 32);
    XorCancel(w, hash);
  }

  /** E_RC5_16, one statement after the other. */
  method EMacro(a0: nat, b0: nat, s: array<nat>, n: nat) returns (a: nat, b: nat)
    requires n + 1 < s.Length
    ensures Block(a, b) == ERound(Block(a0, b0), s[..], n)
  {
    hide RotL, Add16, Xor;
    a, b := a0, b0;
    a := Xor(a, b);
    a := RotL(a, b);
    a := Add16(a, s[n]);
    b := Xor(b, a);
    b := RotL(b, a);
    b := Add16(b, s[n + 1]);
  }

  /** D_RC5_16 */
  method DMacro(a0: nat, b0: nat, s: array<nat>, n: nat) returns (a: nat, b: nat)
    requires n + 1 < s.Length
    ensures Block(a, b) == DRound(Block(a0, b0), s[..], n)
  {
    hide RotR, Sub16, Xor;
    a, b := a0, b0;
    b := Sub16(b, s[n + 1]);
    b := RotR(b, a);
    b := Xor(b, a);
    a := Sub16(a, s[n]);
    a := RotR(a, b);
    a := Xor(a, b);
  }

  /** `RC5_16_encrypt`: in place on the two words of a block. */
  method Encrypt16(d: array<nat>, key: array<nat>)
    requires d.Length == 2 && key.Length == 2 * (ROUNDS + 1) && d != key
    modifies d
    ensures Block(d[0], d[1]) == Encrypt(Block(old(d[0]), old(d[1])), key[..], ROUNDS)
  {
    hide ERound, Add16;
    var a, b := Add16(d[0], key[0]), Add16(d[1], key[1]);
    ghost var x := Block(a, b);
    for i := 0 to ROUNDS
      invariant Block(a, b) == ERounds(x, key[..], i)
    {
      a, b := EMacro(a, b, key, 2 * (i + 1));
    }
    d[0] := a;
    d[1] := b;
  }

  /** `RC5_16_decrypt`. */
  method Decrypt16(d: array<nat>, key: array<nat>)
    requires d.Length == 2 && key.Length == 2 * (ROUNDS + 1) && d != key
    modifies d
    ensures Block(d[0], d[1]) == Decrypt(Block(old(d[0]), old(d[1])), key[..], ROUNDS)
  {
    hide DRound, Sub16;
    var a, b := d[0], d[1];
    ghost var y := DRounds(Block(a, b), key[..], ROUNDS);
    for i := ROUNDS downto 0
      invariant DRounds(Block(a, b), key[..], i) == y
    {
      a, b := DMacro(a, b, key, 2 * (i + 1));
    }
    d[0] := Sub16(a, key[0]);
    d[1] := Sub16(b, key[1]);
  }

  /** `nat_encrypt_rc5`: a local copy is whitened with the hash, encrypted in place and
      whitened again. */
  method NatEncrypt(pt: nat, key: array<nat>, hash: nat) returns (ct: nat)
    requires key.Length == 2 * (ROUNDS + 1)
    ensures ct == Xor(Whole(Encrypt(Halve(Xor(pt, hash)), key[..], ROUNDS)), hash)
  {
    hide Encrypt, Xor;
    var val := new nat[2];
    val[0], val[1] := Halve(Xor(pt, hash)).a, Halve(Xor(pt, hash)).b;
    Encrypt16(val, key);
    ct := Xor(Whole(Block(val[0], val[1])), hash);
  }

  /** `nat_decrypt_rc5`. */
  method NatDecrypt(ct: nat, key: array<nat>, hash: nat) returns (pt: nat)
    requires key.Length == 2 * (ROUNDS + 1)
    ensures pt == Xor(Whole(Decrypt(Halve(Xor(ct, hash)), key[..], ROUNDS)), hash)
  {
    hide Decrypt, Xor;
    var val := new nat[2];
    val[0], val[1] := Halve(Xor(ct, hash)).a, Halve(Xor(ct, hash)).b;
    Decrypt16(val, key);
    pt := Xor(Whole(Block(val[0], val[1])), hash);
  }

  /** Decryption with the same key schedule and hash returns every 32-bit block, and every
      block is the encryption of one. */
  method RoundTrip(x: nat, key: array<nat>, hash: nat) returns (back: nat, forth: nat)
    requires key.Length == 2 * (ROUNDS + 1) && x < U16 * U16 && hash < U16 * U16
    ensures back == x && forth == x
  {
    hide Encrypt, Decrypt, Halve, Whole, Xor;
    ghost var s, w := key[..], Halve(Xor(x, hash));
    Whitened(x, hash);
    HalveWhole(Xor(x, hash), Block(0, 0));
    CipherInverts(w, s, ROUNDS);
    HalveWhole(Xor(x, hash), Encrypt(w, s, ROUNDS));
    HalveWhole(Xor(x, hash), Decrypt(w, s, ROUNDS));
    Whitened(Whole(Encrypt(w, s, ROUNDS)), hash);
    Whitened(Whole(Decrypt(w, s, ROUNDS)), hash);
    var ct := NatEncrypt(x, key, hash);
    back := NatDecrypt(ct, key, hash);
    var pt := NatDecrypt(x, key, hash);
    forth := NatEncrypt(pt, key, hash);
  }
}
