/** ESP tunnel framing, on bytes (ipsec_eval/esp.c, ipsec_eval/ipip.h, ipsec_eval/sa.c): what is
    put on the wire, what the crypto device does to it, and what is taken off again. */
module EspSpec {
  import opened Basics
  import opened CryptoModes

  const IPPROTO_IPIP: nat := 4
  const IPPROTO_IPV6: nat := 41
  const IPPROTO_ESP: nat := 50
  const IPDEFTTL: nat := 64
  const IP_MAXPACKET: nat := 65535
  const ESP_HDR: nat := 8

  /** BadFlags stands for any flags value that is none of the three modes; transport mode is
      not modelled. */
  datatype Mode = Ip4Tunnel | Ip6Tunnel | BadFlags

  datatype Cipher = NullCipher | AesCbc | AesCtr | AesGcm | BadCipher

  datatype Auth = NullAuth | Sha1Hmac | Sha256Hmac | GcmAuth | BadAuth

  datatype Sa = Sa(spi: nat, mode: Mode, cipher: Cipher, auth: Auth,
                   ivLen: nat, blockSize: nat, digestLen: nat,
                   salt: seq<Byte>, src: seq<Byte>, dst: seq<Byte>)

  function HdrLen(m: Mode): nat { if m.Ip6Tunnel? then 40 else 20 }

  /** What the configuration parser guarantees of an SA. */
  ghost predicate SaOk(sa: Sa) {
    && sa.spi < U32
    && !sa.mode.BadFlags? && !sa.cipher.BadCipher? && !sa.auth.BadAuth?
    && (sa.blockSize == 4 || sa.blockSize == 16)
    && (sa.cipher.NullCipher? ==> sa.ivLen == 0)
    && (sa.cipher.AesCbc? ==> sa.ivLen == sa.blockSize == AES_BLOCK)
    && (sa.cipher.AesCtr? || sa.cipher.AesGcm? ==> sa.ivLen == 8)
    && sa.digestLen <= 32 && (sa.auth.NullAuth? ==> sa.digestLen == 0)
    && |sa.salt| == 4 && |sa.src| == |sa.dst| == 16
  }

  // ---------------------------------------------------------------- fields

  function Be16(x: nat): (b: seq<Byte>)
    ensures |b| == 2
  {
    [x / 0x100 % 256, x % 256]
  }

  function Be32(x: nat): (b: seq<Byte>)
    ensures |b| == 4
  {
    Be16(x / 0x1_0000 % 0x1_0000) + Be16(x % 0x1_0000)
  }

  /** A 64-bit counter as it lies in memory. */
  function Le64(x: nat): (b: seq<Byte>)
    ensures |b| == 8
  {
    LeBytes(x, 8)
  }

  function LeBytes(x: nat, n: nat): (b: seq<Byte>)
    ensures |b| == n
  {
    if n == 0 then [] else [x % 256] + LeBytes(x / 256, n - 1)
  }

  // ---------------------------------------------------------------- inner packet

  function Version(p: seq<Byte>): nat
    requires |p| > 0
  {
    p[0] / 16
  }

  /** An IPv4 or IPv6 packet with at least its fixed header. */
  ghost predicate PacketOk(p: seq<Byte>) {
    |p| >= 20 && (Version(p) == 4 || (Version(p) == 6 && |p| >= 40))
  }

  /** Traffic class byte: TOS of IPv4, the bits after the version of IPv6. */
  function DsEcn(p: seq<Byte>): Byte
    requires |p| >= 2
  {
    if Version(p) == 4 then p[1] else p[0] % 16 * 16 + p[1] / 16
  }

  function TtlAt(p: seq<Byte>): nat
    requires |p| > 0
  {
    if Version(p) == 4 then 8 else 7
  }

  /** TTL or hop limit lowered by `n` modulo 256, nothing else changed. */
  function Aged(p: seq<Byte>, n: nat): (q: seq<Byte>)
    requires |p| >= 9
    ensures |q| == |p|
  {
    p[TtlAt(p) := (p[TtlAt(p)] - n) % 256]
  }

  /** The ECN setup on the inner header when the outer one says "congestion experienced". */
  function EcnSet(p: seq<Byte>): (q: seq<Byte>)
    requires |p| >= 2
    ensures |q| == |p|
  {
    if DsEcn(p) % 4 == 0 then p
    else if Version(p) == 4 then p[1 := Marked4(p[1])]
    else p[1 := Marked6(p[1])]
  }

  /** The TOS byte with both ECN bits set. */
  function Marked4(b: Byte): Byte {
    var x: nat := b;
    x / 4 * 4 + 3
  }

  /** The same bits in the second byte of an IPv6 header. */
  function Marked6(b: Byte): Byte {
    var x: nat := b;
    x / 64 * 64 + 48 + x % 16
  }

  // ---------------------------------------------------------------- padding

  /** RTE_ALIGN_CEIL for a power of two. */
  function AlignCeil(x: nat, b: nat): nat
    requires b > 0
  {
    (x + b - 1) / b * b
  }

  /** Padded payload length and padding length, both 16 bits wide in the code. */
  function PadPayloadLen(n: nat, b: nat): nat
    requires b > 0
  {
    AlignCeil(n + 2, b) % U16
  }

  function PadLen(n: nat, b: nat): nat
    requires b > 0
  {
    (PadPayloadLen(n, b) - n) % U16
  }

  /** Padding 1, 2, 3, ..., then its length, then the next header. */
  function Padding(n: nat): (b: seq<Byte>)
    requires n < 256
    ensures |b| == n && forall i :: 0 <= i < n ==> b[i] == i + 1
  {
    if n == 0 then [] else Padding(n - 1) + [n]
  }

  function Trailer(padLen: nat, nlp: Byte): (b: seq<Byte>)
    requires 2 <= padLen < 258
    ensures |b| == padLen
  {
    Padding(padLen - 2) + [padLen - 2, nlp]
  }

  /** The padding follows section 2.4 of RFC 4303: payload, padding, pad length and next header
      together fill whole blocks, and no shorter padding would. */
  lemma PaddingMinimal(n: nat, b: nat)
    requires b == 4 || b == 16
    ensures var len := AlignCeil(n + 2, b);
      && len % b == 0 && n + 2 <= len < n + 2 + b
      && forall l: nat | l % b == 0 && n + 2 <= l :: len <= l
  {
    hide AlignCeil;
    AlignCeilFits(n + 2, b);
    forall l: nat | l % b == 0 && n + 2 <= l
      ensures AlignCeil(n + 2, b) <= l
    {
      NextMultiple(n + 2, b, l);
    }
  }

  lemma AlignCeilFits(x: nat, b: nat)
    requires b == 4 || b == 16
    ensures var len := AlignCeil(x, b); len % b == 0 && x <= len < x + b
  {
    if b == 4 {
      assert AlignCeil(x, 4) == (x + 3) / 4 * 4;
    } else {
      assert AlignCeil(x, 16) == (x + 15) / 16 * 16;
    }
  }

  lemma NextMultiple(x: nat, b: nat, l: nat)
    requires b == 4 || b == 16
    requires l % b == 0 && x <= l
    ensures AlignCeil(x, b) <= l
  {
    if b == 4 {
      assert (x + 3) / 4 <= l / 4;
    } else {
      assert (x + 15) / 16 <= l / 16;
    }
  }

  /** Even where the 16-bit padded length wraps, the padding length itself is right. */
  lemma PadLenRight(n: nat, b: nat)
    requires (b == 4 || b == 16) && n <= IP_MAXPACKET
    ensures 2 <= PadLen(n, b) < 2 + b && n + PadLen(n, b) == AlignCeil(n + 2, b)
    ensures AlignCeil(n + 2, b) < U16 ==> PadPayloadLen(n, b) == n + PadLen(n, b)
  {
    PaddingMinimal(n, b);
  }

  // ---------------------------------------------------------------- outer headers

  /** Section 5.1.2.1 of RFC 4301.  `total` is the length of the whole packet, which the code
      stores in the IPv6 payload length too; `sum` is whatever the two checksum bytes held. */
  function OuterHeader(sa: Sa, dsEcn: Byte, total: nat, sum: seq<Byte>): (h: seq<Byte>)
    requires |sa.src| == |sa.dst| == 16 && |sum| == 2
    ensures |h| == HdrLen(sa.mode)
  {
    if sa.mode.Ip6Tunnel? then
      [0x60 + dsEcn / 16, dsEcn % 16 * 16, 0, 0] + Be16(total % U16) + [IPPROTO_ESP, IPDEFTTL] + sa.src + sa.dst
    else
      [0x45, dsEcn] + Be16(total % U16) + [0, 0, 0, 0, IPDEFTTL, IPPROTO_ESP] + sum + sa.src[..4] + sa.dst[..4]
  }

  function EspHeader(sa: Sa, seqno: nat): (h: seq<Byte>)
    ensures |h| == ESP_HDR
  {
    Be32(sa.spi % U32) + Be32(seqno % U32)
  }

  function IvField(sa: Sa, seqno: nat): (iv: seq<Byte>)
    requires sa.cipher.AesCtr? || sa.cipher.AesGcm? ==> sa.ivLen == 8
    ensures |iv| == sa.ivLen
  {
    if sa.cipher.AesCtr? || sa.cipher.AesGcm? then Le64(seqno) else Zeros(sa.ivLen)
  }

  /** The counter block: salt, IV, and a counter of 1. */
  function Icb(sa: Sa, iv: seq<Byte>): (b: seq<Byte>)
    requires |sa.salt| == 4 && |iv| == 8
    ensures |b| == AES_BLOCK
  {
    sa.salt + iv + [0, 0, 0, 1]
  }

  // ---------------------------------------------------------------- the device

  /** The crypto operation handed to the device: cipher range and IV, authenticated range,
      additional data. */
  datatype CryptoOp = CryptoOp(cOff: nat, cLen: nat, iv: seq<Byte>, aOff: nat, aLen: nat, aad: seq<Byte>)

  ghost predicate OpOk(sa: Sa, op: CryptoOp, n: nat) {
    && op.cOff + op.cLen + sa.digestLen <= n && op.aOff + op.aLen + sa.digestLen <= n
    && (sa.cipher.AesCbc? ==> op.cLen % AES_BLOCK == 0 && |op.iv| == AES_BLOCK)
  }

  ghost predicate KeysOk(k: Primitives, sa: Sa) {
    && Invertible(k)
    && (forall x: seq<Byte> :: |k.mac(x)| == sa.digestLen)
    && forall x: seq<Byte>, y: seq<Byte>, z: seq<Byte> :: |k.tag(x, y, z)| == sa.digestLen
  }

  function Encipher(k: Primitives, c: Cipher, iv: seq<Byte>, x: seq<Byte>): (y: seq<Byte>)
    requires Invertible(k) && (c.AesCbc? ==> |x| % AES_BLOCK == 0 && |iv| == AES_BLOCK)
    ensures |y| == |x|
  {
    match c
    case AesCbc => CbcEnc(k, iv, x)
    case AesCtr => Ctr(k, iv, x)
    case AesGcm => Ctr(k, iv, x)
    case _ => x
  }

  function Decipher(k: Primitives, c: Cipher, iv: seq<Byte>, x: seq<Byte>): (y: seq<Byte>)
    requires Invertible(k) && (c.AesCbc? ==> |x| % AES_BLOCK == 0 && |iv| == AES_BLOCK)
    ensures |y| == |x|
  {
    match c
    case AesCbc => CbcDec(k, iv, x)
    case AesCtr => Ctr(k, iv, x)
    case AesGcm => Ctr(k, iv, x)
    case _ => x
  }

  function Digest(k: Primitives, sa: Sa, op: CryptoOp, m: seq<Byte>): (d: seq<Byte>)
    requires KeysOk(k, sa) && OpOk(sa, op, |m|) && (sa.auth.NullAuth? ==> sa.digestLen == 0) && !sa.auth.BadAuth?
    ensures |d| == sa.digestLen
  {
    if sa.auth.NullAuth? then []
    else if sa.auth.GcmAuth? then k.tag(op.iv, op.aad, m[op.cOff..op.cOff + op.cLen])
    else k.mac(m[op.aOff..op.aOff + op.aLen])
  }

  function Ranged(m: seq<Byte>, off: nat, part: seq<Byte>): (r: seq<Byte>)
    requires off + |part| <= |m|
    ensures |r| == |m|
  {
    m[..off] + part + m[off + |part|..]
  }

  /** Outbound: encipher, then write the digest at the end. */
  function Seal(k: Primitives, sa: Sa, op: CryptoOp, m: seq<Byte>): (w: seq<Byte>)
    requires KeysOk(k, sa) && OpOk(sa, op, |m|) && (sa.auth.NullAuth? ==> sa.digestLen == 0) && !sa.auth.BadAuth?
    ensures |w| == |m|
  {
    var e := Ranged(m, op.cOff, Encipher(k, sa.cipher, op.iv, m[op.cOff..op.cOff + op.cLen]));
    Ranged(e, |e| - sa.digestLen, Digest(k, sa, op, e))
  }

  /** Inbound: compare the digest, then decipher; None is a failed crypto operation. */
  function Unseal(k: Primitives, sa: Sa, op: CryptoOp, w: seq<Byte>): (d: Option<seq<Byte>>)
    requires KeysOk(k, sa) && OpOk(sa, op, |w|) && (sa.auth.NullAuth? ==> sa.digestLen == 0) && !sa.auth.BadAuth?
    ensures d.Some? ==> |d.value| == |w|
  {
    if Digest(k, sa, op, w) != w[|w| - sa.digestLen..] then None
    else Some(Ranged(w, op.cOff, Decipher(k, sa.cipher, op.iv, w[op.cOff..op.cOff + op.cLen])))
  }

  // ---------------------------------------------------------------- outbound

  /** The packet handed to the device: outer header, ESP header, IV, inner packet with its TTL
      lowered, trailer, and room for the digest with arbitrary contents. */
  function Clear(sa: Sa, seqno: nat, p: seq<Byte>, sum: seq<Byte>, room: seq<Byte>): (m: seq<Byte>)
    requires SaOk(sa) && PacketOk(p) && |p| <= IP_MAXPACKET && |sum| == 2 && |room| == sa.digestLen
    ensures |m| == HdrLen(sa.mode) + ESP_HDR + sa.ivLen + AlignCeil(|p| + 2, sa.blockSize) + sa.digestLen
  {
    PadLenRight(|p|, sa.blockSize);
    var x := Inner(sa, p);
    var total := HdrLen(sa.mode) + ESP_HDR + sa.ivLen + |x| + sa.digestLen;
    OuterHeader(sa, DsEcn(p), total, sum) + EspHeader(sa, seqno) + IvField(sa, seqno) + x + room
  }

  /** The enciphered part: packet and trailer. */
  function Inner(sa: Sa, p: seq<Byte>): (x: seq<Byte>)
    requires SaOk(sa) && PacketOk(p) && |p| <= IP_MAXPACKET
    ensures |x| == AlignCeil(|p| + 2, sa.blockSize)
  {
    PadLenRight(|p|, sa.blockSize);
    Aged(p, 1) + Trailer(PadLen(|p|, sa.blockSize), if Version(p) == 4 then IPPROTO_IPIP else IPPROTO_IPV6)
  }

  function OutOp(sa: Sa, seqno: nat, padded: nat): CryptoOp
    requires SaOk(sa)
  {
    var h := HdrLen(sa.mode);
    var counter := sa.cipher.AesCtr? || sa.cipher.AesGcm?;
    CryptoOp(if counter then h + ESP_HDR + sa.ivLen else h + ESP_HDR,
             if counter then padded else padded + sa.ivLen,
             Icb(sa, Le64(seqno)), h, ESP_HDR + sa.ivLen + padded, EspHeader(sa, seqno))
  }

  // ---------------------------------------------------------------- inbound

  /** Header length the receiver derives from the packet: from the IPv4 header, or fixed. */
  function OuterLen(w: seq<Byte>): Option<nat>
    requires |w| > 0
  {
    if Version(w) == 4 then Some(w[0] % 16 * 4) else if Version(w) == 6 then Some(40) else None
  }

  /** The test of the code's bit mask, for a power of two. */
  predicate WholeBlocks(n: int, b: nat)
    requires b > 0
  {
    n % b == 0
  }

  /** `esp_inbound`: the crypto operation, or an error for a wrong version, a payload that is
      empty or no multiple of the block size, or an unknown algorithm. */
  function InOp(sa: Sa, w: seq<Byte>): Option<CryptoOp>
    requires |w| > 0 && |sa.salt| == 4 && sa.blockSize > 0
    requires sa.cipher.AesCtr? || sa.cipher.AesGcm? ==> sa.ivLen == 8
  {
    match OuterLen(w)
    case None => None
    case Some(h) =>
      var payload := |w| - h - ESP_HDR - sa.ivLen - sa.digestLen;
      if !WholeBlocks(payload, sa.blockSize) || payload <= 0 || sa.cipher.BadCipher? || sa.auth.BadAuth? then None
      else
        var off := h + ESP_HDR + sa.ivLen;
        var iv := w[h + ESP_HDR..off];
        Some(CryptoOp(off, payload, if sa.cipher.AesCtr? || sa.cipher.AesGcm? then Icb(sa, iv) else iv,
                      h, ESP_HDR + sa.ivLen + payload, w[h..h + ESP_HDR]))
  }

  /** The trailer check and the removal of trailer and digest in `esp_inbound_post`: the bytes
      before the pad length field must be 1, 2, 3, ... */
  function Untrailed(sa: Sa, d: seq<Byte>): Option<seq<Byte>>
    requires |d| >= sa.digestLen + 2
  {
    var end := |d| - sa.digestLen - 2;
    var padLen := d[end];
    if padLen <= end && d[end - padLen..end] == Padding(padLen)
    then Some(d[..|d| - (padLen + 2 + sa.digestLen)])
    else None
  }

  /** What the decapsulation takes off. */
  function FrontLen(sa: Sa, t: seq<Byte>): nat
    requires |t| > 0
  {
    (if Version(t) == 4 then 20 else 40) + ESP_HDR + sa.ivLen
  }

  /** The tunnel case of `esp_inbound_post` (`ipip_inbound`): drop the outer headers, copy
      congestion marks inwards, lower the TTL again. */
  function Detunneled(sa: Sa, t: seq<Byte>): seq<Byte>
    requires |t| > 0 && |t| >= FrontLen(sa, t) + 9
  {
    var q := t[FrontLen(sa, t)..];
    Aged(if DsEcn(t) % 4 == 3 then EcnSet(q) else q, 1)
  }
}
