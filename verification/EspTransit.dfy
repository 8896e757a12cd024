/** A packet through the whole tunnel in one buffer: `esp_outbound`, the crypto device, and on the
    other end `esp_inbound`, the device again and `esp_inbound_post` (ipsec_eval/esp.c). */
module EspTransit {
  import opened Basics
  import opened CryptoModes
  import opened EspSpec
  import opened EspRoundTrip
  import opened EspCode

  /** The device on the sender's side: enciphers in place, then writes the digest. */
  method DeviceSeals(k: Primitives, sa: Sa, op: CryptoOp, m: Mbuf)
    requires SaOk(sa) && KeysOk(k, sa) && m.Valid() && OpOk(sa, op, m.len)
    modifies m.buf
    ensures m.Data() == Seal(k, sa, op, old(m.Data()))
  {
    hide Encipher, Digest, Ranged, Invertible, SaOk;
    SaKnown(sa);
    var x := m.Bytes(op.cOff, op.cOff + op.cLen);
    m.Put(op.cOff, Encipher(k, sa.cipher, op.iv, x));
    var e := m.Bytes(0, m.len);
    assert e == m.Data();
    m.Put(m.len - sa.digestLen, Digest(k, sa, op, e));
  }

  lemma SaKnown(sa: Sa)
    requires SaOk(sa)
    ensures (sa.auth.NullAuth? ==> sa.digestLen == 0) && !sa.auth.BadAuth?
  {
  }

  /** The device on the receiver's side: compares the digest, then deciphers in place. */
  method DeviceOpens(k: Primitives, sa: Sa, op: CryptoOp, m: Mbuf) returns (ok: bool)
    requires SaOk(sa) && KeysOk(k, sa) && m.Valid() && OpOk(sa, op, m.len)
    modifies m.buf
    ensures match Unseal(k, sa, op, old(m.Data()))
      case None => !ok && m.Data() == old(m.Data())
      case Some(d) => ok && m.Data() == d
  {
    hide Decipher, Digest, Ranged, Invertible, SaOk;
    SaKnown(sa);
    var w := m.Bytes(0, m.len);
    assert w == m.Data();
    ok := Digest(k, sa, op, w) == w[m.len - sa.digestLen..];
    if ok { m.Put(op.cOff, Decipher(k, sa.cipher, op.iv, w[op.cOff..op.cOff + op.cLen])); }
  }

  /** The receiver's half: -1 where its device refuses the digest, and the inner packet `q` where all
      checks pass. */
  method Receive(k: Primitives, sa: Sa, m: Mbuf, ghost q: seq<Byte>) returns (r: Option<int>)
    requires SaOk(sa) && KeysOk(k, sa) && m.Valid() && m.len >= sa.digestLen + 2 && Offered(sa, m.Data())
    requires Accepted(k, sa, m.Data()) ==> Receives(k, sa, m.Data(), q)
    modifies m, m.buf
    ensures m.Valid()
    ensures old(Accepted(k, sa, m.Data())) ==> r == Some(0) && m.Data() == q
    ensures !old(Accepted(k, sa, m.Data())) ==> r == Some(-1) && m.Data() == old(m.Data())
  {
    hide InOp, OpOk, Unseal, Untrailed, Detunneled, FrontLen;
    var op := EspInbound(m, sa);
    var ok := DeviceOpens(k, sa, op.value, m);
    ghost var d := m.Data();
    if Untrailed(sa, d).Some? {
      TrimmedIsPrefix(sa, d);
      var t := Untrailed(sa, d).value;
      if ok { FrontOfPrefix(sa, m.Rest(), m.len, |t|); }
    }
    r := EspInboundPost(m, sa, ok);
  }

  lemma TrimmedIsPrefix(sa: Sa, d: seq<Byte>)
    requires |d| >= sa.digestLen + 2 && Untrailed(sa, d).Some?
    ensures var t := Untrailed(sa, d).value; |t| <= |d| && t == d[..|t|]
  {
  }

  lemma FrontOfPrefix(sa: Sa, r: seq<Byte>, n: nat, k: nat)
    requires 0 < k <= n <= |r|
    ensures FrontLen(sa, r[..n][..k]) == FrontLen(sa, r)
  {
  }

  /** Sent and received in one buffer, a packet is as it was but for its TTL or hop limit, lowered by
      two, if both ends agree on the digest, as they do with a matched SA, and else the device refuses
      it; where the sender declines, the packet is untouched. */
  method ThroughTunnel(s: SecAssoc, k: Primitives, m: Mbuf)
      returns (sent: Outcome, r: Option<int>, ghost w: Parts)
    requires SaOk(s.sa) && KeysOk(k, s.sa) && s.seqno < U64
    requires m.Valid() && PacketOk(m.Data())
    modifies s`seqno, m, m.buf
    ensures m.Valid()
    ensures var refused := old(Declined(s.sa, m.Data(), m.buf.Length - m.off - m.len));
      match refused
      case Some(e) => sent == e && m.Data() == old(m.Data())
      case None =>
        if FrontRoom(s.sa) > old(m.off) then sent == Fault
        else
          && sent.Ready? && w.Fits(s.sa)
          && var agree := SenderDigest(k, s.sa, s.seqno, w) == WireDigest(k, s.sa, w);
          && (Matched(s.sa) ==> agree)
          && (agree ==> r == Some(0) && m.Data() == Aged(old(m.Data()), 2))
          && (!agree ==> r == Some(-1) && m.Data() == w.Bytes())
  {
    hide Declined, Receives, Offered, Accepted, Aged, SaOk, KeysOk, Matched, PacketOk, SenderDigest, WireDigest, Sent,
        FrontRoom;
    ghost var p, sum, room := m.Data(), [], [];
    PacketShape(p);
    sent, sum, room := Emit(s, k, m);
    if !sent.Ready? { return sent, None, Parts([], [], [], [], []); }
    w := TunnelRoundTrip(k, s.sa, s.seqno, p, sum, room);
    r := Receive(k, s.sa, m, Aged(p, 2));
  }

  /** The sender's half: what leaves is the packet sealed by the device. */
  method Emit(s: SecAssoc, k: Primitives, m: Mbuf)
      returns (sent: Outcome, ghost sum: seq<Byte>, ghost room: seq<Byte>)
    requires SaOk(s.sa) && KeysOk(k, s.sa) && s.seqno < U64
    requires m.Valid() && PacketOk(m.Data())
    modifies s`seqno, m, m.buf
    ensures m.Valid()
    ensures match old(Declined(s.sa, m.Data(), m.buf.Length - m.off - m.len))
      case Some(e) => sent == e && m.Data() == old(m.Data())
      case None =>
        if FrontRoom(s.sa) > old(m.off) then sent == Fault
        else
          && sent.Ready? && s.seqno == (old(s.seqno) + 1) % U64 && |sum| == 2 && |room| == s.sa.digestLen
          && m.Data() == Sent(k, s.sa, s.seqno, old(m.Data()), sum, room)
  {
    hide Declined, Aged, OutOp, Seal, Clear, SaOk, KeysOk, AlignCeil, PacketOk, PadLen, Sent, Version, SaShape, OpOk;
    ghost var p, all, off := m.Data(), m.buf[..], m.off;
    PacketShape(p);
    OkShape(s.sa);
    sent := s.EspOutbound(m);
    if !sent.Ready? { return sent, [], []; }
    ghost var end := off + |p| + PadLen(|p|, s.sa.blockSize);
    sum, room := all[m.off + 10..m.off + 12], all[end..end + s.sa.digestLen];
    SentIs(k, s.sa, s.seqno, p, sum, room);
    DeviceSeals(k, s.sa, sent.op, m);
  }

  lemma SentIs(k: Primitives, sa: Sa, seqno: nat, p: seq<Byte>, sum: seq<Byte>, room: seq<Byte>)
    requires SaOk(sa) && KeysOk(k, sa) && PacketOk(p) && |p| <= IP_MAXPACKET && |sum| == 2 && |room| == sa.digestLen
    ensures var m, op := Clear(sa, seqno, p, sum, room), OutOp(sa, seqno, AlignCeil(|p| + 2, sa.blockSize));
      && OpOk(sa, op, |m|) && (sa.auth.NullAuth? ==> sa.digestLen == 0) && !sa.auth.BadAuth?
      && Seal(k, sa, op, m) == Sent(k, sa, seqno, p, sum, room)
  {
    SealReady(sa, seqno, p, sum, room);
  }

  lemma PacketShape(p: seq<Byte>)
    requires PacketOk(p)
    ensures |p| >= 20 && (Version(p) == 6 ==> |p| >= 40)
  {
  }

  lemma OkShape(sa: Sa)
    requires SaOk(sa)
    ensures SaShape(sa) && !sa.mode.BadFlags? && !sa.cipher.BadCipher? && !sa.auth.BadAuth?
  {
  }
}
