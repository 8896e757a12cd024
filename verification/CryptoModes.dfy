/** What the crypto device does to a packet: the cipher modes and authentication of the
    configured algorithms, over an arbitrary invertible block cipher, key stream and MAC. */
module CryptoModes {
  import opened Basics
  import opened Bits

  const AES_BLOCK: nat := 16

  /** The keyed primitives, left uninterpreted. */
  datatype Primitives = Primitives(
    enc: seq<Byte> -> seq<Byte>,                 // one cipher block
    dec: seq<Byte> -> seq<Byte>,
    stream: (seq<Byte>, nat) -> Byte,            // key stream byte for a counter block
    mac: seq<Byte> -> seq<Byte>,                 // digest of the authenticated bytes
    tag: (seq<Byte>, seq<Byte>, seq<Byte>) -> seq<Byte>)  // GCM tag: counter block, AAD, ciphertext

  /** The block cipher is invertible on blocks. */
  ghost predicate Invertible(k: Primitives) {
    forall x: seq<Byte> | |x| == AES_BLOCK ::
      |k.enc(x)| == AES_BLOCK && |k.dec(x)| == AES_BLOCK && k.dec(k.enc(x)) == x
  }

  function XorByte(a: Byte, b: Byte): (r: Byte) {
    XorFits(a, b);
    Xor(a, b)
  }

  lemma XorFits(a: Byte, b: Byte)
    ensures Xor(a, b) < 256
  {
    Pow2Values();
    XorBound(a, b, 8);
  }

  function XorBytes(a: seq<Byte>, b: seq<Byte>): (r: seq<Byte>)
    requires |a| == |b|
    ensures |r| == |a|
    ensures forall i :: 0 <= i < |r| ==> r[i] == XorByte(a[i], b[i])
  {
    seq(|a|, i requires 0 <= i < |a| => XorByte(a[i], b[i]))
  }

  lemma XorBytesCancel(a: seq<Byte>, b: seq<Byte>)
    requires |a| == |b|
    ensures XorBytes(b, XorBytes(b, a)) == a
  {
    forall i | 0 <= i < |a|
      ensures XorBytes(b, XorBytes(b, a))[i] == a[i]
    {
      XorCommutes(b[i], a[i]);
      XorCancel(a[i], b[i]);
      XorCommutes(b[i], Xor(a[i], b[i]));
    }
  }

  // ---------------------------------------------------------------- CBC

  function CbcEnc(k: Primitives, iv: seq<Byte>, x: seq<Byte>): (c: seq<Byte>)
    requires Invertible(k) && |iv| == AES_BLOCK && |x| % AES_BLOCK == 0
    ensures |c| == |x|
    decreases |x|
  {
    if x == [] then []
    else
      var c := k.enc(XorBytes(iv, x[..AES_BLOCK]));
      c + CbcEnc(k, c, x[AES_BLOCK..])
  }

  function CbcDec(k: Primitives, iv: seq<Byte>, c: seq<Byte>): (x: seq<Byte>)
    requires Invertible(k) && |iv| == AES_BLOCK && |c| % AES_BLOCK == 0
    ensures |x| == |c|
    decreases |c|
  {
    if c == [] then []
    else XorBytes(iv, k.dec(c[..AES_BLOCK])) + CbcDec(k, c[..AES_BLOCK], c[AES_BLOCK..])
  }

  lemma {:induction false} CbcInverts(k: Primitives, iv: seq<Byte>, x: seq<Byte>)
    requires Invertible(k) && |iv| == AES_BLOCK && |x| % AES_BLOCK == 0
    ensures CbcDec(k, iv, CbcEnc(k, iv, x)) == x
    decreases |x|
  {
    hide XorBytes;
    if x != [] {
      var b, t := x[..AES_BLOCK], x[AES_BLOCK..];
      var c := k.enc(XorBytes(iv, b));
      var rest := CbcEnc(k, c, t);
      assert (c + rest)[..AES_BLOCK] == c && (c + rest)[AES_BLOCK..] == rest;
      XorBytesCancel(b, iv);
      CbcInverts(k, c, t);
      assert x == b + t;
    }
  }

  /** Enciphering a leading block makes its ciphertext the IV of what follows: this is how the
      outbound path sends its IV. */
  lemma CbcLeadingBlock(k: Primitives, icb: seq<Byte>, lead: seq<Byte>, x: seq<Byte>)
    requires Invertible(k) && |icb| == |lead| == AES_BLOCK && |x| % AES_BLOCK == 0
    ensures var c0 := k.enc(XorBytes(icb, lead));
      CbcEnc(k, icb, lead + x) == c0 + CbcEnc(k, c0, x)
  {
    assert (lead + x)[..AES_BLOCK] == lead && (lead + x)[AES_BLOCK..] == x;
  }

  // ---------------------------------------------------------------- counter mode

  function StreamByte(k: Primitives, icb: seq<Byte>, i: nat): Byte { k.stream(icb, i) }

  function KeyStream(k: Primitives, icb: seq<Byte>, n: nat): (s: seq<Byte>)
    ensures |s| == n
  {
    seq(n, i requires 0 <= i < n => StreamByte(k, icb, i))
  }

  function Ctr(k: Primitives, icb: seq<Byte>, x: seq<Byte>): (c: seq<Byte>)
    ensures |c| == |x| && forall i :: 0 <= i < |x| ==> c[i] == XorByte(k.stream(icb, i), x[i])
  {
    XorBytes(KeyStream(k, icb, |x|), x)
  }

  lemma CtrInverts(k: Primitives, icb: seq<Byte>, x: seq<Byte>)
    ensures Ctr(k, icb, Ctr(k, icb, x)) == x
  {
    XorBytesCancel(x, KeyStream(k, icb, |x|));
  }
}
