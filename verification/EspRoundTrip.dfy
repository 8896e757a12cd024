/** An ESP tunnel packet that is sealed and opened comes back as it was, except for its TTL
    (ipsec_eval/esp.c, ipsec_eval/ipip.h). */
module EspRoundTrip {
  import opened Basics
  import opened CryptoModes
  import opened EspSpec

  // ---------------------------------------------------------------- packets in five parts

  /** Outer header, ESP header, IV, enciphered part, digest. */
  datatype Parts = Parts(h: seq<Byte>, e: seq<Byte>, iv: seq<Byte>, x: seq<Byte>, d: seq<Byte>) {
    function Bytes(): seq<Byte> { h + e + iv + x + d }

    ghost predicate Fits(sa: Sa) {
      |h| == HdrLen(sa.mode) && |e| == ESP_HDR && |iv| == sa.ivLen && |d| == sa.digestLen
    }
  }

  lemma Slices(p: Parts)
    ensures var b := p.Bytes();
      var i, j, l, m := |p.h|, |p.h| + |p.e|, |p.h| + |p.e| + |p.iv|, |p.h| + |p.e| + |p.iv| + |p.x|;
      && |b| == m + |p.d|
      && b[..i] == p.h && b[i..j] == p.e && b[j..l] == p.iv && b[l..m] == p.x && b[m..] == p.d
      && b[..l] == p.h + p.e + p.iv && b[j..m] == p.iv + p.x && b[i..m] == p.e + p.iv + p.x
          && b[..m] == p.h + p.e + p.iv + p.x
  {
  }

  lemma ReplaceH(p: Parts, h: seq<Byte>)
    requires |h| == |p.h|
    ensures h + p.Bytes()[|h|..] == p.(h := h).Bytes()
  {
    assert p.Bytes() == p.h + (p.e + p.iv + p.x + p.d);
    assert p.Bytes()[|h|..] == p.e + p.iv + p.x + p.d;
  }

  lemma ReplaceX(p: Parts, y: seq<Byte>)
    requires |y| == |p.x|
    ensures Ranged(p.Bytes(), |p.h| + |p.e| + |p.iv|, y) == p.(x := y).Bytes()
  {
    Slices(p);
  }

  lemma ReplaceIvX(p: Parts, v: seq<Byte>, y: seq<Byte>)
    requires |v| == |p.iv| && |y| == |p.x|
    ensures Ranged(p.Bytes(), |p.h| + |p.e|, v + y) == p.(iv := v, x := y).Bytes()
  {
    Slices(p);
    assert p.h + p.e + (v + y) + p.d == p.(iv := v, x := y).Bytes();
  }

  lemma ReplaceD(p: Parts, d: seq<Byte>)
    requires |d| == |p.d|
    ensures Ranged(p.Bytes(), |p.Bytes()| - |p.d|, d) == p.(d := d).Bytes()
  {
    Slices(p);
  }

  // ---------------------------------------------------------------- sealing

  function CounterMode(sa: Sa): bool { sa.cipher.AesCtr? || sa.cipher.AesGcm? }

  /** The IV the receiver gives the device, from the IV field of the packet. */
  function ReceiverIv(sa: Sa, iv: seq<Byte>): seq<Byte>
    requires SaOk(sa) && |iv| == sa.ivLen
  {
    if CounterMode(sa) then Icb(sa, iv) else iv
  }

  /** The digest the receiver computes from the parts on the wire. */
  function WireDigest(k: Primitives, sa: Sa, p: Parts): seq<Byte>
    requires SaOk(sa) && p.Fits(sa)
  {
    if sa.auth.NullAuth? then []
    else if sa.auth.GcmAuth? then k.tag(ReceiverIv(sa, p.iv), p.e, p.x)
    else k.mac(p.e + p.iv + p.x)
  }

  /** The digest the sender computed over the same parts: its IV is always a counter block, and
      its cipher range begins at the IV field unless the cipher is a counter mode. */
  function SenderDigest(k: Primitives, sa: Sa, seqno: nat, p: Parts): seq<Byte>
    requires SaOk(sa) && p.Fits(sa)
  {
    if sa.auth.NullAuth? then []
    else if sa.auth.GcmAuth? then k.tag(Icb(sa, Le64(seqno)), p.e, if CounterMode(sa) then p.x else p.iv + p.x)
    else k.mac(p.e + p.iv + p.x)
  }

  /** GCM authentication goes with a counter mode. */
  predicate Matched(sa: Sa) { sa.auth.GcmAuth? && sa.digestLen > 0 ==> CounterMode(sa) }

  lemma DigestsAgree(k: Primitives, sa: Sa, seqno: nat, p: Parts)
    requires SaOk(sa) && KeysOk(k, sa) && p.Fits(sa) && Matched(sa)
    requires CounterMode(sa) ==> p.iv == Le64(seqno)
    ensures SenderDigest(k, sa, seqno, p) == WireDigest(k, sa, p)
  {
    hide Icb, ReceiverIv;
    if sa.auth.GcmAuth? && !CounterMode(sa) {
      assert |SenderDigest(k, sa, seqno, p)| == |WireDigest(k, sa, p)| == 0;
    } else if sa.auth.GcmAuth? {
      CounterIv(sa, p.iv);
    }
  }

  lemma CounterIv(sa: Sa, iv: seq<Byte>)
    requires SaOk(sa) && CounterMode(sa) && |iv| == sa.ivLen
    ensures ReceiverIv(sa, iv) == Icb(sa, iv)
  {
  }

  lemma CbcLength(sa: Sa, n: nat)
    requires SaOk(sa) && n % sa.blockSize == 0
    ensures sa.cipher.AesCbc? ==> n % AES_BLOCK == 0 && (n + sa.ivLen) % AES_BLOCK == 0
  {
  }

  /** Enciphering keeps the five parts; the receiver's IV deciphers the fourth. */
  lemma Enciphered(k: Primitives, sa: Sa, seqno: nat, p: Parts) returns (q: Parts)
    requires SaOk(sa) && Invertible(k) && p.Fits(sa) && |p.x| % sa.blockSize == 0
    requires p.iv == IvField(sa, seqno)
    ensures var op := OutOp(sa, seqno, |p.x|);
      && op.cOff + op.cLen + sa.digestLen == |p.Bytes()|
      && (sa.cipher.AesCbc? ==> op.cLen % AES_BLOCK == 0 && |p.x| % AES_BLOCK == 0)
      && Ranged(p.Bytes(), op.cOff, Encipher(k, sa.cipher, op.iv, p.Bytes()[op.cOff..op.cOff + op.cLen])) == q.Bytes()
    ensures q.Fits(sa) && q.h == p.h && q.e == p.e && q.d == p.d && |q.x| == |p.x| && (CounterMode(sa) ==> q.iv == p.iv)
    ensures Decipher(k, sa.cipher, ReceiverIv(sa, q.iv), q.x) == p.x
  {
    hide Icb, Ctr, CbcEnc, CbcDec;
    Slices(p);
    var op := OutOp(sa, seqno, |p.x|);
    CbcLength(sa, |p.x|);
    if sa.cipher.AesCbc? {
      var c0 := k.enc(XorBytes(op.iv, p.iv));
      CbcLeadingBlock(k, op.iv, p.iv, p.x);
      CbcInverts(k, c0, p.x);
      q := p.(iv := c0, x := CbcEnc(k, c0, p.x));
      ReplaceIvX(p, c0, q.x);
    } else if CounterMode(sa) {
      q := p.(x := Ctr(k, op.iv, p.x));
      CtrInverts(k, op.iv, p.x);
      ReplaceX(p, q.x);
    } else {
      q := p;
      assert p.iv + p.x == p.x;
      ReplaceX(p, p.x);
    }
  }

  /** A sealed packet in parts: the digest covers what is on the wire. */
  lemma Sealed(k: Primitives, sa: Sa, seqno: nat, p: Parts) returns (w: Parts)
    requires SaOk(sa) && KeysOk(k, sa) && p.Fits(sa) && |p.x| % sa.blockSize == 0
    requires p.iv == IvField(sa, seqno) && p.e == EspHeader(sa, seqno)
    ensures var op := OutOp(sa, seqno, |p.x|);
      OpOk(sa, op, |p.Bytes()|) && Seal(k, sa, op, p.Bytes()) == w.Bytes()
    ensures w.Fits(sa) && w.h == p.h && w.e == p.e && |w.x| == |p.x| && (CounterMode(sa) ==> w.iv == p.iv)
    ensures w.d == SenderDigest(k, sa, seqno, w)
    ensures Decipher(k, sa.cipher, ReceiverIv(sa, w.iv), w.x) == p.x
  {
    hide Encipher, Decipher, Invertible;
    var op := OutOp(sa, seqno, |p.x|);
    var q := Enciphered(k, sa, seqno, p);
    Slices(p);
    Slices(q);
    w := q.(d := SenderDigest(k, sa, seqno, q));
    assert Digest(k, sa, op, q.Bytes()) == w.d;
    ReplaceD(q, w.d);
  }

  // ---------------------------------------------------------------- opening

  /** An outer header as it may arrive: version and length as sent, all else rewritten at will. */
  ghost predicate Arrived(sa: Sa, h: seq<Byte>) {
    |h| == HdrLen(sa.mode) && OuterLen(h) == Some(HdrLen(sa.mode)) && (Version(h) == 6 <==> sa.mode.Ip6Tunnel?)
  }

  /** The receiver finds the same five parts and, if the digest is right, undoes the cipher. */
  lemma Opened(k: Primitives, sa: Sa, w: Parts) returns (op: CryptoOp)
    requires SaOk(sa) && KeysOk(k, sa) && w.Fits(sa) && Arrived(sa, w.h)
    requires |w.x| > 0 && |w.x| % sa.blockSize == 0
    ensures InOp(sa, w.Bytes()) == Some(op) && OpOk(sa, op, |w.Bytes()|)
    ensures Unseal(k, sa, op, w.Bytes()) == if w.d != WireDigest(k, sa, w) then None
      else Some(w.(x := Decipher(k, sa.cipher, ReceiverIv(sa, w.iv), w.x)).Bytes())
  {
    hide Decipher, Invertible, Icb;
    Slices(w);
    var b := w.Bytes();
    var off := |w.h| + ESP_HDR + sa.ivLen;
    assert b[0] == w.h[0] && OuterLen(b) == OuterLen(w.h);
    assert |b| - |w.h| - ESP_HDR - sa.ivLen - sa.digestLen == |w.x|;
    op := CryptoOp(off, |w.x|, ReceiverIv(sa, w.iv), |w.h|, ESP_HDR + sa.ivLen + |w.x|, w.e);
    assert |b| - sa.digestLen == off + |w.x|;
    assert Digest(k, sa, op, b) == WireDigest(k, sa, w) && b[|b| - sa.digestLen..] == w.d;
    ReplaceX(w, Decipher(k, sa.cipher, ReceiverIv(sa, w.iv), w.x));
  }

  /** The receiver's trailer check passes, and exactly trailer and digest are removed. */
  lemma Stripped(sa: Sa, q: Parts, t: seq<Byte>, padLen: nat, nlp: Byte)
    requires SaOk(sa) && q.Fits(sa) && 2 <= padLen < 258 && q.x == t + Trailer(padLen, nlp)
    ensures Untrailed(sa, q.Bytes()) == Some(q.h + q.e + q.iv + t)
  {
    hide Padding, SaOk, HdrLen;
    var front := q.h + q.e + q.iv + t;
    var pad := Padding(padLen - 2);
    var b := q.Bytes();
    assert b == front + pad + [padLen - 2, nlp] + q.d;
    TrailerSlices(front, pad, padLen - 2, nlp, q.d);
  }

  lemma TrailerSlices(front: seq<Byte>, pad: seq<Byte>, n: Byte, nlp: Byte, d: seq<Byte>)
    ensures var b := front + pad + [n, nlp] + d;
      var end := |front| + |pad|;
      |b| == end + 2 + |d| && b[end] == n && b[|front|..end] == pad && b[..|front|] == front
  {
  }

  /** Decapsulation leaves the inner packet, with the congestion mark of the outer header
      carried over and its TTL lowered once more. */
  lemma Unwrapped(sa: Sa, h: seq<Byte>, e: seq<Byte>, iv: seq<Byte>, p: seq<Byte>)
    requires SaOk(sa) && Arrived(sa, h) && |e| == ESP_HDR && |iv| == sa.ivLen && PacketOk(p)
    ensures var t := h + e + iv + Aged(p, 1);
      |t| >= FrontLen(sa, t) + 9
      && Detunneled(sa, t) == Aged(if DsEcn(h) % 4 == 3 then EcnSet(p) else p, 2)
  {
    hide Aged, EcnSet;
    var q := Aged(p, 1);
    var t := h + e + iv + q;
    assert t[0] == h[0] && t[1] == h[1];
    assert t[|h| + ESP_HDR + sa.ivLen..] == q;
    AgedTwice(p);
    AgedAfterMark(p);
  }

  lemma AgedTwice(p: seq<Byte>)
    requires PacketOk(p)
    ensures Aged(Aged(p, 1), 1) == Aged(p, 2)
  {
    var q := Aged(p, 1);
    assert q[0] == p[0];
    assert TtlAt(q) == TtlAt(p);
  }

  lemma AgedAfterMark(p: seq<Byte>)
    requires PacketOk(p)
    ensures Aged(EcnSet(Aged(p, 1)), 1) == Aged(EcnSet(p), 2)
  {
    hide Version, DsEcn;
    EcnAfterAged(p);
    AgedTwice(EcnSet(p));
  }

  lemma EcnAfterAged(p: seq<Byte>)
    requires PacketOk(p)
    ensures PacketOk(EcnSet(p)) && EcnSet(Aged(p, 1)) == Aged(EcnSet(p), 1)
  {
    var q := Aged(p, 1);
    assert q[0] == p[0] && q[1] == p[1] && EcnSet(p)[0] == p[0];
    assert DsEcn(q) == DsEcn(p);
    assert TtlAt(EcnSet(p)) == TtlAt(p);
  }

  /** An outer header as the sender writes it arrives, and carries the inner traffic class. */
  lemma OuterHeaderArrives(sa: Sa, dsEcn: Byte, total: nat, sum: seq<Byte>)
    requires SaOk(sa) && |sum| == 2
    ensures var h := OuterHeader(sa, dsEcn, total, sum); Arrived(sa, h) && DsEcn(h) == dsEcn
  {
  }

  /** Where the inner packet is already marked, or not ECN capable, marking changes nothing. */
  lemma EcnSettled(p: seq<Byte>)
    requires PacketOk(p) && DsEcn(p) % 4 == 3
    ensures EcnSet(p) == p
  {
    if Version(p) != 4 {
      assert p[1] / 16 % 4 == 3;
      assert p[1] / 64 * 64 + 48 + p[1] % 16 == p[1];
    }
  }

  // ---------------------------------------------------------------- the round trip

  /** The receiver hands the packet to its device. */
  ghost predicate Offered(sa: Sa, w: seq<Byte>)
    requires SaOk(sa) && |w| > 0
  {
    InOp(sa, w).Some? && OpOk(sa, InOp(sa, w).value, |w|)
  }

  /** The digest check of the device. */
  ghost predicate Accepted(k: Primitives, sa: Sa, w: seq<Byte>)
    requires SaOk(sa) && KeysOk(k, sa) && |w| > 0 && Offered(sa, w)
  {
    Unseal(k, sa, InOp(sa, w).value, w).Some?
  }

  /** The receiver's side up to the decapsulation: None if any check on the way fails. */
  ghost function Trimmed(k: Primitives, sa: Sa, w: seq<Byte>): Option<seq<Byte>>
    requires SaOk(sa) && KeysOk(k, sa) && |w| > 0
  {
    var op := InOp(sa, w);
    if op.None? || !OpOk(sa, op.value, |w|) then None
    else
      var d := Unseal(k, sa, op.value, w);
      if d.None? || |d.value| < sa.digestLen + 2 then None else Untrailed(sa, d.value)
  }

  /** Every check passed, and the inner packet is `p`. */
  ghost predicate Receives(k: Primitives, sa: Sa, w: seq<Byte>, p: seq<Byte>)
    requires SaOk(sa) && KeysOk(k, sa) && |w| > 0
  {
    var t := Trimmed(k, sa, w);
    && t.Some? && |t.value| > 0 && |t.value| >= FrontLen(sa, t.value) + 9
    && Detunneled(sa, t.value) == p
  }

  /** The last assertion of the decapsulation: what is left is longer than the outer header. */
  predicate StillBigger(sa: Sa, t: seq<Byte>)
    requires |t| > 0
  {
    |t| - FrontLen(sa, t) > if Version(t) == 4 then 20 else 40
  }

  /** Every range of the outbound crypto operation lies inside the packet. */
  lemma OutOpFits(sa: Sa, seqno: nat, n: nat)
    requires SaOk(sa)
    ensures var len := AlignCeil(n + 2, sa.blockSize);
      OpOk(sa, OutOp(sa, seqno, len), HdrLen(sa.mode) + ESP_HDR + sa.ivLen + len + sa.digestLen)
  {
    PaddingMinimal(n, sa.blockSize);
    var len := AlignCeil(n + 2, sa.blockSize);
    if sa.cipher.AesCbc? {
      assert (len + sa.ivLen) % AES_BLOCK == 0;
    }
  }

  lemma SealReady(sa: Sa, seqno: nat, p: seq<Byte>, sum: seq<Byte>, room: seq<Byte>)
    requires SaOk(sa) && PacketOk(p) && |p| <= IP_MAXPACKET && |sum| == 2 && |room| == sa.digestLen
    ensures OpOk(sa, OutOp(sa, seqno, AlignCeil(|p| + 2, sa.blockSize)), |Clear(sa, seqno, p, sum, room)|)
  {
    hide OpOk, AlignCeil;
    OutOpFits(sa, seqno, |p|);
  }

  /** What leaves the sender: the packet handed to the device, sealed by it. */
  function Sent(k: Primitives, sa: Sa, seqno: nat, p: seq<Byte>, sum: seq<Byte>, room: seq<Byte>): (w: seq<Byte>)
    requires SaOk(sa) && KeysOk(k, sa) && PacketOk(p) && |p| <= IP_MAXPACKET && |sum| == 2 && |room| == sa.digestLen
    ensures |w| > HdrLen(sa.mode)
  {
    SealReady(sa, seqno, p, sum, room);
    Seal(k, sa, OutOp(sa, seqno, AlignCeil(|p| + 2, sa.blockSize)), Clear(sa, seqno, p, sum, room))
  }

  /** What leaves the sender, in parts, and what the receiver makes of it under another outer
      header: the packet before decapsulation exactly if the two ends agree on the digest. */
  lemma Transit(k: Primitives, sa: Sa, seqno: nat, p: seq<Byte>, sum: seq<Byte>, room: seq<Byte>, h: seq<Byte>)
      returns (w: Parts)
    requires SaOk(sa) && KeysOk(k, sa) && PacketOk(p) && |p| <= IP_MAXPACKET && |sum| == 2 && |room| == sa.digestLen
    requires Arrived(sa, h)
    ensures Sent(k, sa, seqno, p, sum, room) == w.Bytes()
    ensures w.Fits(sa) && |w.x| == AlignCeil(|p| + 2, sa.blockSize) && (CounterMode(sa) ==> w.iv == Le64(seqno))
    ensures w.e == EspHeader(sa, seqno)
    ensures var arrived := h + Sent(k, sa, seqno, p, sum, room)[|h|..];
      var agree := SenderDigest(k, sa, seqno, w) == WireDigest(k, sa, w);
      && Offered(sa, arrived) && (Accepted(k, sa, arrived) <==> agree)
      && (agree ==>
          Unseal(k, sa, InOp(sa, arrived).value, arrived) == Some(h + w.e + w.iv + Inner(sa, p) + w.d))
    ensures Trimmed(k, sa, h + Sent(k, sa, seqno, p, sum, room)[|h|..]) ==
      if SenderDigest(k, sa, seqno, w) == WireDigest(k, sa, w) then Some(h + w.e + w.iv + Aged(p, 1)) else None
  {
    hide Seal, Unseal, Untrailed, InOp, Encipher, Decipher, Invertible, Trailer, OuterHeader, AlignCeil,
        Aged, WireDigest, SenderDigest, ReceiverIv, EspHeader, KeysOk, OpOk;
    PaddingMinimal(|p|, sa.blockSize);
    PadLenRight(|p|, sa.blockSize);
    var x := Inner(sa, p);
    var total := HdrLen(sa.mode) + ESP_HDR + sa.ivLen + |x| + sa.digestLen;
    var m := Parts(OuterHeader(sa, DsEcn(p), total, sum), EspHeader(sa, seqno), IvField(sa, seqno), x, room);
    w := Sealed(k, sa, seqno, m);
    assert Sent(k, sa, seqno, p, sum, room) == w.Bytes();
    var a := w.(h := h);
    ReplaceH(w, h);
    DigestSkipsHeader(k, sa, w, h);
    var op := Opened(k, sa, a);
    var d := a.(x := x);
    Stripped(sa, d, Aged(p, 1), PadLen(|p|, sa.blockSize), if Version(p) == 4 then IPPROTO_IPIP else IPPROTO_IPV6);
    Slices(d);
  }

  /** Whatever happens to the outer header in transit, as long as its version and length stay, the
      receiver delivers the packet that was sent, its TTL or hop limit lowered by two, with a
      congestion mark if the outer header picked one up, exactly if the two ends agree on the digest;
      with a matched SA they do.  The last assertion on the way holds exactly if the packet is longer
      than an outer header. */
  lemma TransitRoundTrip(k: Primitives, sa: Sa, seqno: nat, p: seq<Byte>, sum: seq<Byte>, room: seq<Byte>, h: seq<Byte>)
      returns (w: Parts)
    requires SaOk(sa) && KeysOk(k, sa) && PacketOk(p) && |p| <= IP_MAXPACKET && |sum| == 2 && |room| == sa.digestLen
    requires Arrived(sa, h)
    ensures w.Fits(sa) && Sent(k, sa, seqno, p, sum, room) == w.Bytes()
    ensures Matched(sa) ==> SenderDigest(k, sa, seqno, w) == WireDigest(k, sa, w)
    ensures var arrived := h + w.Bytes()[|h|..];
      var agree := SenderDigest(k, sa, seqno, w) == WireDigest(k, sa, w);
      && Offered(sa, arrived) && (Accepted(k, sa, arrived) <==> agree)
      && (Receives(k, sa, arrived, Aged(if DsEcn(h) % 4 == 3 then EcnSet(p) else p, 2)) <==> agree)
      && (agree ==> (StillBigger(sa, Trimmed(k, sa, arrived).value) <==> |p| > HdrLen(sa.mode)))
  {
    hide Detunneled, Trimmed, SenderDigest, WireDigest, Aged, EcnSet, KeysOk, Sent, Offered, Accepted;
    w := Transit(k, sa, seqno, p, sum, room, h);
    if Matched(sa) { DigestsAgree(k, sa, seqno, w); }
    Unwrapped(sa, h, w.e, w.iv, p);
    assert (h + w.e + w.iv + Aged(p, 1))[0] == h[0];
  }

  lemma DigestSkipsHeader(k: Primitives, sa: Sa, w: Parts, h: seq<Byte>)
    requires SaOk(sa) && w.Fits(sa) && |h| == |w.h|
    ensures WireDigest(k, sa, w.(h := h)) == WireDigest(k, sa, w)
  {
  }

  /** Sealing and opening: where the ends agree on the digest, as with a matched SA, every inner
      packet within the size limit comes back with its TTL or hop limit lowered by two and no other
      change; otherwise none does. */
  lemma TunnelRoundTrip(k: Primitives, sa: Sa, seqno: nat, p: seq<Byte>, sum: seq<Byte>, room: seq<Byte>)
      returns (w: Parts)
    requires SaOk(sa) && KeysOk(k, sa) && PacketOk(p) && |p| <= IP_MAXPACKET && |sum| == 2 && |room| == sa.digestLen
    ensures w.Fits(sa) && Sent(k, sa, seqno, p, sum, room) == w.Bytes()
    ensures Matched(sa) ==> SenderDigest(k, sa, seqno, w) == WireDigest(k, sa, w)
    ensures var agree := SenderDigest(k, sa, seqno, w) == WireDigest(k, sa, w);
      && Offered(sa, w.Bytes()) && (Accepted(k, sa, w.Bytes()) <==> agree)
      && (Receives(k, sa, w.Bytes(), Aged(p, 2)) <==> agree)
  {
    hide Receives, OuterHeader, Detunneled, KeysOk, Aged, EcnSet, Version, Sent, Trimmed, StillBigger, Arrived, Matched,
        SenderDigest, WireDigest, Offered, Accepted;
    var total := HdrLen(sa.mode) + ESP_HDR + sa.ivLen + |Inner(sa, p)| + sa.digestLen;
    var h := OuterHeader(sa, DsEcn(p), total, sum);
    OuterHeaderArrives(sa, DsEcn(p), total, sum);
    SentKeepsHeader(k, sa, seqno, p, sum, room);
    w := TransitRoundTrip(k, sa, seqno, p, sum, room, h);
    if DsEcn(p) % 4 == 3 { EcnSettled(p); }
    assert h + w.Bytes()[|h|..] == w.Bytes();
  }

  lemma SentKeepsHeader(k: Primitives, sa: Sa, seqno: nat, p: seq<Byte>, sum: seq<Byte>, room: seq<Byte>)
    requires SaOk(sa) && KeysOk(k, sa) && PacketOk(p) && |p| <= IP_MAXPACKET && |sum| == 2 && |room| == sa.digestLen
    ensures var h := OuterHeader(sa, DsEcn(p), HdrLen(sa.mode) + ESP_HDR + sa.ivLen + |Inner(sa, p)| + sa.digestLen,
        sum);
      Sent(k, sa, seqno, p, sum, room)[..|h|] == h
  {
    hide Seal, Encipher, Decipher, Invertible, Trailer, OuterHeader, AlignCeil, Aged, IvField, WireDigest;
    PaddingMinimal(|p|, sa.blockSize);
    var x := Inner(sa, p);
    var total := HdrLen(sa.mode) + ESP_HDR + sa.ivLen + |x| + sa.digestLen;
    var m := Parts(OuterHeader(sa, DsEcn(p), total, sum), EspHeader(sa, seqno), IvField(sa, seqno), x, room);
    var w := Sealed(k, sa, seqno, m);
    assert Sent(k, sa, seqno, p, sum, room) == w.Bytes();
  }

  // ---------------------------------------------------------------- which SAs carry packets

  ghost predicate Carries(k: Primitives, sa: Sa)
    requires SaOk(sa) && KeysOk(k, sa)
  {
    forall seqno: nat, p: seq<Byte>, sum: seq<Byte>, room: seq<Byte>
      | PacketOk(p) && |p| <= IP_MAXPACKET && |sum| == 2 && |room| == sa.digestLen ::
      Receives(k, sa, Sent(k, sa, seqno, p, sum, room), Aged(p, 2))
  }

  /** An SA works with every key exactly if GCM authentication comes with a counter mode. */
  lemma CarriesIff(sa: Sa)
    requires SaOk(sa)
    ensures Matched(sa) <==> forall k | KeysOk(k, sa) :: Carries(k, sa)
  {
    if Matched(sa) {
      forall k | KeysOk(k, sa) ensures Carries(k, sa) { MatchedCarries(k, sa); }
    } else {
      UnmatchedRefuses(sa);
    }
  }

  lemma MatchedCarries(k: Primitives, sa: Sa)
    requires SaOk(sa) && KeysOk(k, sa) && Matched(sa)
    ensures Carries(k, sa)
  {
    hide Receives, Sent, Aged, KeysOk, SaOk, Matched;
    forall seqno: nat, p: seq<Byte>, sum: seq<Byte>, room: seq<Byte>
      | PacketOk(p) && |p| <= IP_MAXPACKET && |sum| == 2 && |room| == sa.digestLen
      ensures Receives(k, sa, Sent(k, sa, seqno, p, sum, room), Aged(p, 2))
    {
      var w := TunnelRoundTrip(k, sa, seqno, p, sum, room);
    }
  }

  /** Primitives whose tag tells the two ends apart by the lengths they authenticate. */
  function Telltale(sa: Sa, n: nat): Primitives {
    Primitives(x => x, x => x, (x, i) => 0, x => Zeros(sa.digestLen), (iv, aad, x) => LengthTag(sa.digestLen, n, iv, x))
  }

  function LengthTag(len: nat, n: nat, iv: seq<Byte>, x: seq<Byte>): (t: seq<Byte>)
    ensures |t| == len
  {
    if |iv| == AES_BLOCK && |x| == n then seq(len, _ => 1) else Zeros(len)
  }

  lemma TelltaleKeys(sa: Sa, n: nat)
    ensures KeysOk(Telltale(sa, n), sa)
  {
  }

  lemma TelltaleTags(sa: Sa, seqno: nat, w: Parts, n: nat)
    requires SaOk(sa) && !Matched(sa) && w.Fits(sa) && n == sa.ivLen + |w.x|
    ensures SenderDigest(Telltale(sa, n), sa, seqno, w) != WireDigest(Telltale(sa, n), sa, w)
  {
    hide Icb, LengthTag;
    var len, icb := sa.digestLen, Icb(sa, Le64(seqno));
    assert SenderDigest(Telltale(sa, n), sa, seqno, w) == LengthTag(len, n, icb, w.iv + w.x);
    assert WireDigest(Telltale(sa, n), sa, w) == LengthTag(len, n, w.iv, w.x);
    TagsDiffer(len, n, icb, w.iv + w.x, w.iv, w.x);
  }

  lemma TagsDiffer(len: nat, n: nat, iv: seq<Byte>, x: seq<Byte>, jv: seq<Byte>, y: seq<Byte>)
    requires len > 0 && |iv| == AES_BLOCK && |x| == n && (|jv| != AES_BLOCK || |y| != n)
    ensures LengthTag(len, n, iv, x) != LengthTag(len, n, jv, y)
  {
    assert LengthTag(len, n, iv, x)[0] == 1 && LengthTag(len, n, jv, y)[0] == 0;
  }

  lemma UnmatchedRefuses(sa: Sa)
    requires SaOk(sa) && !Matched(sa)
    ensures exists k :: KeysOk(k, sa) && !Carries(k, sa)
  {
    hide AlignCeil, Telltale, KeysOk, SaOk, Matched, Sent, Trimmed, Aged;
    var p: seq<Byte>, sum, room := [0x60] + Zeros(39), Zeros(2), Zeros(sa.digestLen);
    assert PacketOk(p);
    var k := RefusesOne(sa, 1, p, sum, room);
    assert !Receives(k, sa, Sent(k, sa, 1, p, sum, room), Aged(p, 2));
  }

  lemma RefusesOne(sa: Sa, seqno: nat, p: seq<Byte>, sum: seq<Byte>, room: seq<Byte>) returns (k: Primitives)
    requires SaOk(sa) && !Matched(sa) && PacketOk(p) && |p| <= IP_MAXPACKET && |sum| == 2 && |room| == sa.digestLen
    ensures KeysOk(k, sa) && Trimmed(k, sa, Sent(k, sa, seqno, p, sum, room)) == None
  {
    hide Trimmed, Sent, AlignCeil, Aged, EspHeader, OuterHeader, Telltale, KeysOk, SenderDigest, WireDigest;
    var n := sa.ivLen + AlignCeil(|p| + 2, sa.blockSize);
    PaddingMinimal(|p|, sa.blockSize);
    k := Telltale(sa, n);
    TelltaleKeys(sa, n);
    var w := AsSent(k, sa, seqno, p, sum, room);
    TelltaleTags(sa, seqno, w, n);
  }

  /** Transit with the header as sent. */
  lemma AsSent(k: Primitives, sa: Sa, seqno: nat, p: seq<Byte>, sum: seq<Byte>, room: seq<Byte>) returns (w: Parts)
    requires SaOk(sa) && KeysOk(k, sa) && PacketOk(p) && |p| <= IP_MAXPACKET && |sum| == 2 && |room| == sa.digestLen
    ensures w.Fits(sa) && |w.x| == AlignCeil(|p| + 2, sa.blockSize)
    ensures SenderDigest(k, sa, seqno, w) != WireDigest(k, sa, w) ==>
        Trimmed(k, sa, Sent(k, sa, seqno, p, sum, room)) == None
  {
    hide Trimmed, Sent, AlignCeil, Aged, EspHeader, OuterHeader, KeysOk, SenderDigest, WireDigest;
    var total := HdrLen(sa.mode) + ESP_HDR + sa.ivLen + |Inner(sa, p)| + sa.digestLen;
    var h := OuterHeader(sa, DsEcn(p), total, sum);
    OuterHeaderArrives(sa, DsEcn(p), total, sum);
    SentKeepsHeader(k, sa, seqno, p, sum, room);
    var s := Sent(k, sa, seqno, p, sum, room);
    assert h + s[|h|..] == s;
    w := Transit(k, sa, seqno, p, sum, room, h);
  }
}
