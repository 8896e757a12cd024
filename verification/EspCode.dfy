/** `esp_outbound`, `esp_inbound` and `esp_inbound_post` in tunnel mode, as they rewrite a packet
    buffer (ipsec_eval/esp.c, ipsec_eval/ipip.h). */
module EspCode {
  import opened Basics
  import opened CryptoModes
  import opened EspSpec

  /** What may be wrong with a packet or an SA before a packet is sent.  Fault stands for an assertion
      that fails, behind which the code uses a null pointer. */
  datatype Outcome = Einval | Enospc | Fault | Ready(op: CryptoOp)

  /** The sizes of an SA are consistent; its mode and algorithms may still be unknown ones. */
  ghost predicate SaShape(sa: Sa) {
    && sa.spi < U32 && (sa.blockSize == 4 || sa.blockSize == 16) && sa.ivLen <= 16 && sa.digestLen <= 32
    && (sa.cipher.NullCipher? ==> sa.ivLen == 0)
    && (sa.cipher.AesCbc? ==> sa.ivLen == sa.blockSize == AES_BLOCK)
    && (sa.cipher.AesCtr? || sa.cipher.AesGcm? ==> sa.ivLen == 8)
    && (sa.auth.NullAuth? ==> sa.digestLen == 0)
    && |sa.salt| == 4 && |sa.src| == |sa.dst| == 16
  }

  /** The head room that the new headers need. */
  function FrontRoom(sa: Sa): nat { HdrLen(sa.mode) + ESP_HDR + sa.ivLen }

  /** The checks of `esp_outbound` that come before it changes anything. */
  function Declined(sa: Sa, p: seq<Byte>, tailroom: nat): (e: Option<Outcome>)
    requires |p| > 0 && sa.blockSize > 0
    ensures e.Some? ==> e.value == Einval || e.value == Enospc
  {
    if Version(p) != 4 && Version(p) != 6 then Some(Einval)
    else if sa.mode.BadFlags? then Some(Einval)
    else if HdrLen(sa.mode) + ESP_HDR + sa.ivLen + PadPayloadLen(|p|, sa.blockSize) + sa.digestLen > IP_MAXPACKET
        then Some(Einval)
    else if PadLen(|p|, sa.blockSize) + sa.digestLen > tailroom then Some(Enospc)
    else None
  }

  lemma RangedNothing(d: seq<Byte>, at: nat)
    requires at <= |d|
    ensures Ranged(d, at, []) == d
  {
  }

  lemma RangedMore(d: seq<Byte>, at: nat, s: seq<Byte>, b: Byte)
    requires at + |s| < |d|
    ensures Ranged(d, at, s)[at + |s| := b] == Ranged(d, at, s + [b])
  {
  }

  lemma RangedTwice(d: seq<Byte>, s: seq<Byte>, t: seq<Byte>)
    requires |s| == 10 && |t| == 8 && |d| >= 20
    ensures Ranged(Ranged(d, 0, s), 12, t) == s + d[10..12] + t + d[20..]
  {
  }

  lemma FrontSlices(all: seq<Byte>, at: nat, h: nat, end: nat, p: seq<Byte>)
    requires 12 <= h && at + h <= end <= |all|
    ensures var d := all[..end][at..] + p;
      |d| == end - at + |p| && d[10..12] == all[at + 10..at + 12] && d[h..] == all[at + h..end] + p
  {
    var d := all[..end][at..] + p;
    assert d[10] == all[at + 10] && d[11] == all[at + 11];
    assert d[10..12] == [d[10], d[11]];
  }

  lemma TailSlices(all: seq<Byte>, off: nat, len: nat, n: nat, pad: nat)
    requires off + len <= |all| && n + pad <= len
    ensures all[off..off + len][n..][pad..] == all[off + n + pad..off + len]
  {
  }

  lemma AgedFront(p: seq<Byte>, tail: seq<Byte>)
    requires |p| >= 20
    ensures Aged(p + tail, 1) == Aged(p, 1) + tail && DsEcn(p + tail) == DsEcn(p)
  {
    assert (p + tail)[0] == p[0] && (p + tail)[1] == p[1];
  }

  lemma FrameSlices(h: seq<Byte>, gap: seq<Byte>, q: seq<Byte>, tail: seq<Byte>, e: seq<Byte>, iv: seq<Byte>,
      t: seq<Byte>)
    requires |gap| == |e| + |iv| && |t| <= |tail|
    ensures Ranged(Ranged(Ranged(h + (gap + (q + tail)), |h|, e), |h| + |e|, iv), |h| + |gap| + |q|, t)
            == h + e + iv + (q + t) + tail[|t|..]
  {
    var rest := q + tail;
    assert Ranged(h + (gap + rest), |h|, e) == h + e + (gap[|e|..] + rest);
    assert Ranged(h + e + (gap[|e|..] + rest), |h| + |e|, iv) == h + e + iv + rest;
    var f := h + e + iv;
    assert Ranged(f + rest, |f| + |q|, t) == f + (q + t) + tail[|t|..];
  }

  lemma AgedPrefix(r: seq<Byte>, n: nat, age: nat)
    requires 9 <= n <= |r|
    ensures Aged(r, age)[..n] == Aged(r[..n], age)
  {
  }

  lemma EcnPrefix(r: seq<Byte>, n: nat)
    requires 2 <= n <= |r|
    ensures EcnSet(r)[..n] == EcnSet(r[..n])
  {
  }

  lemma DetunneledIs(sa: Sa, t: seq<Byte>, mark: bool)
    requires |t| > 0 && |t| >= FrontLen(sa, t) + 9 && (mark <==> DsEcn(t) % 4 == 3)
    ensures var q := t[FrontLen(sa, t)..];
      Detunneled(sa, t) == Aged(if mark then EcnSet(q) else q, 1)
  {
  }

  /** Bytes behind a packet that is long enough do not matter to what is left of it. */
  lemma DetunneledPrefix(sa: Sa, r: seq<Byte>, n: nat)
    requires 0 < n <= |r| && n >= FrontLen(sa, r) + 9
    ensures Detunneled(sa, r)[..n - FrontLen(sa, r)] == Detunneled(sa, r[..n])
  {
    hide Aged, EcnSet;
    var f := FrontLen(sa, r);
    assert r[..n][f..] == r[f..][..n - f];
    assert DsEcn(r[..n]) == DsEcn(r);
    EcnPrefix(r[f..], n - f);
    AgedPrefix(if DsEcn(r) % 4 == 3 then EcnSet(r[f..]) else r[f..], n - f, 1);
  }

  /** The three writes into the encapsulated packet make it the one to be sealed. */
  lemma FrameIsClear(sa: Sa, seqno: nat, p: seq<Byte>, sum: seq<Byte>, gap: seq<Byte>, tail: seq<Byte>)
    requires SaOk(sa) && PacketOk(p) && |p| <= IP_MAXPACKET && |sum| == 2 && |gap| == ESP_HDR + sa.ivLen
    requires |tail| == PadLen(|p|, sa.blockSize) + sa.digestLen
    ensures var total := HdrLen(sa.mode) + |gap| + |p| + |tail|;
      var padLen := PadLen(|p|, sa.blockSize);
      var h := OuterHeader(sa, DsEcn(p + tail), total, sum);
      && 2 <= padLen < 258 && |Aged(p + tail, 1)| == |p| + |tail| && |h| == HdrLen(sa.mode)
      && Ranged(Ranged(Ranged(h + (gap + Aged(p + tail, 1)), |h|, EspHeader(sa, seqno)), |h| + ESP_HDR,
          IvField(sa, seqno)),
                |h| + |gap| + |p|, Trailer(padLen, if Version(p) == 4 then IPPROTO_IPIP else IPPROTO_IPV6))
         == Clear(sa, seqno, p, sum, tail[padLen..])
  {
    hide Ranged, Aged, OuterHeader, EspHeader, IvField, Trailer, DsEcn, AlignCeil, PadLen;
    PadLenRight(|p|, sa.blockSize);
    AgedFront(p, tail);
    var total := HdrLen(sa.mode) + |gap| + |p| + |tail|;
    var padLen := PadLen(|p|, sa.blockSize);
    FrameSlices(OuterHeader(sa, DsEcn(p), total, sum), gap, Aged(p, 1), tail, EspHeader(sa, seqno), IvField(sa, seqno),
                Trailer(padLen, if Version(p) == 4 then IPPROTO_IPIP else IPPROTO_IPV6));
  }

  lemma SameVersion(d: seq<Byte>, n: nat)
    requires 0 < n <= |d|
    ensures Version(d[..n]) == Version(d)
  {
  }

  lemma UntrailedAt(sa: Sa, d: seq<Byte>, end: nat)
    requires |d| == end + 2 + sa.digestLen
    ensures Untrailed(sa, d) ==
      if d[end] <= end && d[end - d[end]..end] == Padding(d[end]) then Some(d[..end - d[end]]) else None
  {
  }

  lemma ShapeIsOk(sa: Sa)
    requires SaShape(sa) && !sa.mode.BadFlags? && !sa.cipher.BadCipher? && !sa.auth.BadAuth?
    ensures SaOk(sa)
  {
  }

  lemma OutOpIs(sa: Sa, seqno: nat, padded: nat)
    requires SaOk(sa)
    ensures var h := HdrLen(sa.mode);
      var range := if sa.cipher.AesCtr? || sa.cipher.AesGcm? then (h + ESP_HDR + sa.ivLen, padded)
        else (h + ESP_HDR, padded + sa.ivLen);
      OutOp(sa, seqno, padded) ==
        CryptoOp(range.0, range.1, Icb(sa, Le64(seqno)), h, ESP_HDR + sa.ivLen + padded, EspHeader(sa, seqno))
  {
  }

  /** A packet that fits a buffer with its padding cannot make the 16-bit padded length wrap. */
  lemma NoWrap(sa: Sa, n: nat, length: nat)
    requires SaShape(sa) && n + PadLen(n, sa.blockSize) <= length < U16
    ensures PadPayloadLen(n, sa.blockSize) == AlignCeil(n + 2, sa.blockSize) == n + PadLen(n, sa.blockSize)
    ensures 2 <= PadLen(n, sa.blockSize) < 258
  {
    PadLenRight(n, sa.blockSize);
    PaddingMinimal(n, sa.blockSize);
  }

  /** A packet buffer of one segment: `len` bytes of data from `off` on; lengths are 16 bits wide. */
  class Mbuf {
    const buf: array<Byte>
    var off: nat
    var len: nat

    constructor (buf: array<Byte>, off: nat, len: nat)
      requires off + len <= buf.Length < U16
      ensures Valid() && this.buf == buf && this.off == off && this.len == len
    {
      this.buf, this.off, this.len := buf, off, len;
    }

    ghost predicate Valid()
      reads this
    {
      off + len <= buf.Length < U16
    }

    ghost function Data(): (d: seq<Byte>)
      requires Valid()
      reads this, buf
      ensures |d| == len
    {
      buf[off..off + len]
    }

    /** The data and whatever lies behind it in the buffer. */
    ghost function Rest(): (d: seq<Byte>)
      requires Valid()
      reads this, buf
      ensures |d| == buf.Length - off && d[..len] == Data()
    {
      buf[off..]
    }

    // rte_pktmbuf_append: fails without changing anything when the tail room is too small.
    method Append(n: nat) returns (ok: bool)
      requires Valid()
      modifies this`len
      ensures Valid()
      ensures ok <==> n <= buf.Length - old(off + len)
      ensures len == if ok then old(len) + n else old(len)
      ensures Data()[..old(len)] == old(Data())
    {
      ghost var d := Data();
      ok := n <= buf.Length - (off + len);
      if ok { len := len + n; }
      assert Data()[..|d|] == d;
    }

    // rte_pktmbuf_prepend: fails without changing anything when the head room is too small.
    method Prepend(n: nat) returns (ok: bool)
      requires Valid()
      modifies this
      ensures Valid() && (ok <==> n <= old(off))
      ensures ok ==> off == old(off) - n && len == old(len) + n
      ensures !ok ==> off == old(off) && len == old(len)
    {
      ok := n <= off;
      if ok { off, len := off - n, len + n; }
    }

    // The data after prepending: bytes that were in front, then the data before.
    method PrependData(n: nat) returns (ok: bool)
      requires Valid()
      modifies this
      ensures Valid() && (ok <==> n <= old(off))
      ensures ok ==> off == old(off) - n && len == old(len) + n && Data() == buf[..old(off)][off..] + old(Data())
      ensures !ok ==> off == old(off) && len == old(len)
    {
      ok := Prepend(n);
    }

    // rte_pktmbuf_adj: fails without changing anything when there are fewer than `n` bytes.
    method Adj(n: nat) returns (ok: bool)
      requires Valid()
      modifies this
      ensures Valid() && (ok <==> n <= old(len))
      ensures len == if ok then old(len) - n else old(len)
      ensures Rest() == if ok then old(Rest())[n..] else old(Rest())
    {
      ok := n <= len;
      if ok { off, len := off + n, len - n; }
    }

    // rte_pktmbuf_trim: fails without changing anything when there are fewer than `n` bytes.
    method Trim(n: nat) returns (ok: bool)
      requires Valid()
      modifies this`len
      ensures Valid() && (ok <==> n <= old(len))
      ensures Data() == if ok then old(Data())[..old(len) - n] else old(Data())
      ensures Rest() == old(Rest())
    {
      ok := n <= len;
      if ok { len := len - n; }
    }

    method Bytes(from: nat, to: nat) returns (s: seq<Byte>)
      requires Valid() && from <= to <= len
      ensures s == Data()[from..to]
    {
      s := buf[off + from..off + to];
      ghost var d := Data();
      assert forall i :: 0 <= i < |s| ==> s[i] == buf[off + from + i] == d[from + i];
    }

    method PutByte(at: nat, b: Byte)
      requires Valid() && at < len
      modifies buf
      ensures Data() == old(Data())[at := b] && buf[..off] == old(buf[..off])
    {
      buf[off + at] := b;
    }

    method PutBehind(at: nat, b: Byte)
      requires Valid() && off + at < buf.Length
      modifies buf
      ensures Rest() == old(Rest())[at := b] && buf[..off] == old(buf[..off])
    {
      buf[off + at] := b;
    }

    // memcpy into the packet.
    method Put(at: nat, s: seq<Byte>)
      requires Valid() && at + |s| <= len
      modifies buf
      ensures Data() == Ranged(old(Data()), at, s) && buf[..off] == old(buf[..off])
    {
      ghost var d := Data();
      forall i | 0 <= i < |s| { buf[off + at + i] := s[i]; }
      assert forall j :: 0 <= j < len ==> Data()[j] == Ranged(d, at, s)[j];
    }

    // The next header field of the trailer: None for another version.
    method NextHeader() returns (nlp: Option<Byte>)
      requires Valid() && len > 0
      ensures nlp == match Version(Data()) case 4 => Some(IPPROTO_IPIP) case 6 => Some(IPPROTO_IPV6) case _ => None
    {
      assert Data()[0] == buf[off];
      var version := buf[off] / 16;
      if version == 4 {
        nlp := Some(IPPROTO_IPIP);
      } else if version == 6 {
        nlp := Some(IPPROTO_IPV6);
      } else {
        nlp := None;
      }
    }

    // The padding loop and the two bytes after it.
    method PutTrailer(at: nat, padLen: nat, nlp: Byte)
      requires Valid() && 2 <= padLen < 258 && at + padLen <= len
      modifies buf
      ensures Data() == Ranged(old(Data()), at, Trailer(padLen, nlp))
    {
      hide Ranged;
      ghost var d := Data();
      RangedNothing(d, at);
      var i := 0;
      while i < padLen - 2
        invariant 0 <= i <= padLen - 2
        invariant Data() == Ranged(d, at, Padding(i))
      {
        PutByte(at + i, i + 1);
        RangedMore(d, at, Padding(i), i + 1);
        i := i + 1;
      }
      PutByte(at + padLen - 2, padLen - 2);
      RangedMore(d, at, Padding(i), padLen - 2);
      PutByte(at + padLen - 1, nlp);
      RangedMore(d, at, Padding(i) + [padLen - 2], nlp);
      assert Padding(i) + [padLen - 2] + [nlp] == Trailer(padLen, nlp);
    }

    // The outer header fields; the two IPv4 checksum bytes keep what was there.
    method PutOuter(sa: Sa, dsEcn: Byte)
      requires Valid() && |sa.src| == |sa.dst| == 16 && HdrLen(sa.mode) <= len
      modifies buf
      ensures Data() == OuterHeader(sa, dsEcn, len, old(Data())[10..12]) + old(Data())[HdrLen(sa.mode)..]
    {
      hide Be16;
      ghost var d := Data();
      if sa.mode.Ip6Tunnel? {
        Put(0, [0x60 + dsEcn / 16, dsEcn % 16 * 16, 0, 0] + Be16(len % U16)
               + [IPPROTO_ESP, IPDEFTTL] + sa.src + sa.dst);
      } else {
        var fixed := [0x45, dsEcn] + Be16(len % U16) + [0, 0, 0, 0, IPDEFTTL, IPPROTO_ESP];
        Put(0, fixed);
        Put(12, sa.src[..4] + sa.dst[..4]);
        RangedTwice(d, fixed, sa.src[..4] + sa.dst[..4]);
        assert fixed + d[10..12] + (sa.src[..4] + sa.dst[..4]) == OuterHeader(sa, dsEcn, len, d[10..12]);
      }
    }

    // ipip_outbound: ages the inner packet, then puts the outer header in front, leaving `gap`
    // bytes for the ESP header and the IV, if the head room suffices.
    method IpipOutbound(gap: nat, sa: Sa) returns (ok: bool)
      requires Valid() && |sa.src| == |sa.dst| == 16 && len >= 20
      modifies this, buf
      ensures Valid() && (ok <==> gap + HdrLen(sa.mode) <= old(off))
      ensures !ok ==> off == old(off) && Data() == Aged(old(Data()), 1)
      ensures ok ==> off == old(off) - gap - HdrLen(sa.mode) && len == old(len) + gap + HdrLen(sa.mode)
      ensures ok ==> Data() == OuterHeader(sa, DsEcn(old(Data())), len, old(buf[..])[off + 10..off + 12])
                               + (old(buf[..])[old(off) - gap..old(off)] + Aged(old(Data()), 1))
    {
      hide Aged, OuterHeader, DsEcn;
      var h := HdrLen(sa.mode);
      ghost var p, all, at := Data(), buf[..], off - gap - h;
      var dsEcn := AgeInner();
      ok := PrependData(gap + h);
      if !ok { return; }
      assert buf[..old(off)] == all[..old(off)];
      FrontSlices(all, at, h, old(off), Aged(p, 1));
      PutOuter(sa, dsEcn);
    }

    // The TTL or hop limit lowered by one, modulo 256, even where it lies behind the data.
    method Lower()
      requires Valid() && off + 9 <= buf.Length
      modifies buf
      ensures Rest() == Aged(old(Rest()), 1) && buf[..off] == old(buf[..off])
    {
      var at := if buf[off] / 16 == 4 then 8 else 7;
      var ttl: int := buf[off + at];
      PutBehind(at, (ttl - 1) % 256);
    }

    // The first half of ipip_outbound.
    method AgeInner() returns (dsEcn: Byte)
      requires Valid() && len >= 20
      modifies buf
      ensures dsEcn == DsEcn(old(Data())) && Data() == Aged(old(Data()), 1)
      ensures buf[..off] == old(buf[..off])
    {
      if buf[off] / 16 == 4 {
        dsEcn := buf[off + 1];
      } else {
        dsEcn := buf[off] % 16 * 16 + buf[off + 1] / 16;
      }
      AgedPrefix(Rest(), len, 1);
      Lower();
    }
  }

  /** The changing part of an SA: its 64-bit sequence counter. */
  class SecAssoc {
    const sa: Sa
    var seqno: nat

    constructor (sa: Sa)
      ensures this.sa == sa && seqno == 0
    {
      this.sa, seqno := sa, 0;
    }

    // The headers, IV and cipher range: None for an unknown cipher, with only the headers written.
    method PutEsp(m: Mbuf, h: nat, padPayloadLen: nat) returns (range: Option<(nat, nat)>)
      requires SaShape(sa) && m.Valid() && h + ESP_HDR + sa.ivLen <= m.len && seqno < U64
      modifies this`seqno, m.buf
      ensures m.Valid() && seqno == (old(seqno) + 1) % U64
      ensures range.None? <==> sa.cipher.BadCipher?
      ensures range.Some? ==>
        m.Data() == Ranged(Ranged(old(m.Data()), h, EspHeader(sa, seqno)), h + ESP_HDR, IvField(sa, seqno))
      ensures range.Some? ==> range.value == if sa.cipher.AesCtr? || sa.cipher.AesGcm?
        then (h + ESP_HDR + sa.ivLen, padPayloadLen) else (h + ESP_HDR, padPayloadLen + sa.ivLen)
    {
      seqno := (seqno + 1) % U64;
      m.Put(h, EspHeader(sa, seqno));
      match sa.cipher {
        case NullCipher | AesCbc =>
          m.Put(h + ESP_HDR, Zeros(sa.ivLen));
          range := Some((h + ESP_HDR, padPayloadLen + sa.ivLen));
        case AesCtr | AesGcm =>
          m.Put(h + ESP_HDR, Le64(seqno));
          range := Some((h + ESP_HDR + sa.ivLen, padPayloadLen));
        case BadCipher =>
          range := None;
      }
    }

    // esp_outbound once the tail room is there: `n` bytes of packet, then room for the trailer
    // and the digest.
    method Encapsulate(m: Mbuf, n: nat, padLen: nat, padPayloadLen: nat, nlp: Byte) returns (r: Outcome)
      requires SaShape(sa) && !sa.mode.BadFlags? && seqno < U64 && m.Valid() && n <= m.len
      requires PacketOk(m.Data()[..n]) && nlp == if Version(m.Data()) == 4 then IPPROTO_IPIP else IPPROTO_IPV6
      requires padLen == PadLen(n, sa.blockSize) && m.len == n + padLen + sa.digestLen
      requires 2 <= padLen < 258 && padPayloadLen == AlignCeil(n + 2, sa.blockSize)
      modifies this`seqno, m, m.buf
      ensures m.Valid()
      ensures var fits := FrontRoom(sa) <= old(m.off);
        && (!fits ==> r == Fault && seqno == old(seqno))
        && (fits ==> seqno == (old(seqno) + 1) % U64 && m.off == old(m.off) - FrontRoom(sa))
        && (fits && (sa.cipher.BadCipher? || sa.auth.BadAuth?) ==> r == Einval)
      ensures FrontRoom(sa) <= old(m.off) && !sa.cipher.BadCipher? && !sa.auth.BadAuth? ==>
        && SaOk(sa) && r == Ready(OutOp(sa, seqno, padPayloadLen))
        && m.Data() == Clear(sa, seqno, old(m.Data()[..n]), old(m.buf[..])[m.off + 10..m.off + 12],
                              old(m.buf[..])[old(m.off) + n + padLen..old(m.off) + n + padLen + sa.digestLen])
    {
      hide OuterHeader, Aged, DsEcn, AlignCeil, PadLen, Clear, OutOp, SaOk, Version, HdrLen;
      SameVersion(m.Data(), n);
      var h := HdrLen(sa.mode);
      var ok;
      ghost var sum, gap, p, tail;
      ok, sum, gap, p, tail := Wrap(m, n, padLen);
      if !ok { return Fault; }
      r := FillFrame(m, h, n, padLen, padPayloadLen, nlp, p, sum, gap, tail);
    }

    // ipip_outbound, with the parts of the packet as they were.
    method Wrap(m: Mbuf, n: nat, padLen: nat)
        returns (ok: bool, ghost sum: seq<Byte>, ghost gap: seq<Byte>, ghost p: seq<Byte>, ghost tail: seq<Byte>)
      requires SaShape(sa) && m.Valid() && 20 <= n && m.len == n + padLen + sa.digestLen
      modifies m, m.buf
      ensures m.Valid() && (ok <==> FrontRoom(sa) <= old(m.off))
      ensures p == old(m.Data()[..n]) && |tail| == padLen + sa.digestLen
      ensures tail[padLen..] == old(m.buf[..])[old(m.off) + n + padLen..old(m.off) + n + padLen + sa.digestLen]
      ensures ok ==>
        && m.off == old(m.off) - FrontRoom(sa) && m.len == old(m.len) + FrontRoom(sa)
        && |gap| == ESP_HDR + sa.ivLen && sum == old(m.buf[..])[m.off + 10..m.off + 12]
        && m.Data() == OuterHeader(sa, DsEcn(p + tail), m.len, sum) + (gap + Aged(p + tail, 1))
    {
      hide OuterHeader, Aged, DsEcn;
      ghost var at, all := m.off - ESP_HDR - sa.ivLen, m.buf[..];
      p, tail := m.Data()[..n], m.Data()[n..];
      TailSlices(all, m.off, m.len, n, padLen);
      assert m.Data() == p + tail;
      ok := m.IpipOutbound(ESP_HDR + sa.ivLen, sa);
      if ok {
        sum, gap := all[m.off + 10..m.off + 12], all[at..old(m.off)];
      } else {
        sum, gap := [], [];
      }
    }

    // ESP header, IV and trailer in the encapsulated packet, and the crypto operation.
    method FillFrame(m: Mbuf, h: nat, n: nat, padLen: nat, padPayloadLen: nat, nlp: Byte, ghost p: seq<Byte>,
        ghost sum: seq<Byte>, ghost gap: seq<Byte>, ghost tail: seq<Byte>) returns (r: Outcome)
      requires SaShape(sa) && !sa.mode.BadFlags? && seqno < U64 && m.Valid() && h == HdrLen(sa.mode)
      requires PacketOk(p) && |p| == n <= IP_MAXPACKET && nlp == if Version(p) == 4 then IPPROTO_IPIP else IPPROTO_IPV6
      requires padLen == PadLen(n, sa.blockSize) && 2 <= padLen < 258 && padPayloadLen == AlignCeil(n + 2, sa.blockSize)
      requires |sum| == 2 && |gap| == ESP_HDR + sa.ivLen && |tail| == padLen + sa.digestLen
      requires m.len == h + |gap| + n + |tail|
      requires m.Data() == OuterHeader(sa, DsEcn(p + tail), m.len, sum) + (gap + Aged(p + tail, 1))
      modifies this`seqno, m.buf
      ensures m.Valid() && seqno == (old(seqno) + 1) % U64
      ensures sa.cipher.BadCipher? || sa.auth.BadAuth? ==> r == Einval
      ensures !sa.cipher.BadCipher? && !sa.auth.BadAuth? ==>
        && SaOk(sa) && r == Ready(OutOp(sa, seqno, padPayloadLen))
        && m.Data() == Clear(sa, seqno, p, sum, tail[padLen..])
    {
      hide Ranged, OuterHeader, EspHeader, IvField, Icb, Trailer, Aged, DsEcn, AlignCeil, PadLen, Clear, OutOp, SaOk,
          Version, PacketOk;
      if !sa.cipher.BadCipher? && !sa.auth.BadAuth? { ShapeIsOk(sa); }
      var range := PutEsp(m, h, padPayloadLen);
      if range.None? { return Einval; }
      m.PutTrailer(h + ESP_HDR + sa.ivLen + n, padLen, nlp);
      if sa.auth.BadAuth? { return Einval; }
      FrameIsClear(sa, seqno, p, sum, gap, tail);
      OutOpIs(sa, seqno, padPayloadLen);
      r := Ready(CryptoOp(range.value.0, range.value.1, Icb(sa, Le64(seqno)), h, ESP_HDR + sa.ivLen + padPayloadLen,
          EspHeader(sa, seqno)));
    }

    // esp_outbound.
    method EspOutbound(m: Mbuf) returns (r: Outcome)
      requires SaShape(sa) && seqno < U64
      requires m.Valid() && m.len >= 20 && (Version(m.Data()) == 6 ==> m.len >= 40)
      modifies this`seqno, m, m.buf
      ensures m.Valid()
      ensures var refused := old(Declined(sa, m.Data(), m.buf.Length - m.off - m.len));
        match refused
        case Some(e) => r == e && seqno == old(seqno) && m.Data() == old(m.Data())
        case None =>
          if FrontRoom(sa) > old(m.off) then r == Fault && seqno == old(seqno) else
          && seqno == (old(seqno) + 1) % U64
          && (sa.cipher.BadCipher? || sa.auth.BadAuth? ==> r == Einval)
          && (!sa.cipher.BadCipher? && !sa.auth.BadAuth? ==>
                var p := old(m.Data());
                var end := old(m.off) + |p| + PadLen(|p|, sa.blockSize);
                && SaOk(sa) && m.off + HdrLen(sa.mode) <= old(m.off) && end + sa.digestLen <= m.buf.Length
                && r == Ready(OutOp(sa, seqno, AlignCeil(|p| + 2, sa.blockSize)))
                && m.Data() == Clear(sa, seqno, p, old(m.buf[..])[m.off + 10..m.off + 12],
                    old(m.buf[..])[end..end + sa.digestLen]))
    {
      hide AlignCeil, PadPayloadLen, PadLen, Clear, OutOp, SaOk, Version;
      ghost var p := m.Data();
      var next := m.NextHeader();
      if next.None? { return Einval; }
      var padPayloadLen := PadPayloadLen(m.len, sa.blockSize);
      var padLen := PadLen(m.len, sa.blockSize);
      if sa.mode.BadFlags? { return Einval; }
      if HdrLen(sa.mode) + ESP_HDR + sa.ivLen + padPayloadLen + sa.digestLen > IP_MAXPACKET { return Einval; }
      var ok := m.Append(padLen + sa.digestLen);
      if !ok { return Enospc; }
      NoWrap(sa, |p|, m.buf.Length);
      SameVersion(m.Data(), |p|);
      r := Encapsulate(m, m.len - padLen - sa.digestLen, padLen, padPayloadLen, next.value);
    }
  }

  // The header length by the outer header: None for another version.
  method OuterLength(m: Mbuf) returns (h: Option<nat>)
    requires m.Valid() && m.len > 0
    ensures h == OuterLen(m.Data())
  {
    var version := m.buf[m.off] / 16;
    if version == 4 {
      h := Some(m.buf[m.off] % 16 * 4);
    } else if version == 6 {
      h := Some(40);
    } else {
      h := None;
    }
  }

  // esp_inbound: reads the packet only.
  method EspInbound(m: Mbuf, sa: Sa) returns (op: Option<CryptoOp>)
    requires SaShape(sa) && m.Valid() && m.len > 0
    ensures op == InOp(sa, m.Data())
  {
    hide Icb, WholeBlocks, OuterLen;
    var outer := OuterLength(m);
    if outer.None? { return None; }
    var h := outer.value;
    var payload: int := m.len - h - ESP_HDR - sa.ivLen - sa.digestLen;
    if !WholeBlocks(payload, sa.blockSize) || payload <= 0 { return None; }
    var at := h + ESP_HDR;
    var iv := m.Bytes(at, at + sa.ivLen);
    var esp := m.Bytes(h, at);
    match sa.cipher {
      case NullCipher | AesCbc =>
      case AesCtr | AesGcm =>
        iv := Icb(sa, iv);
      case BadCipher => return None;
    }
    if sa.auth.BadAuth? { return None; }
    op := Some(CryptoOp(at + sa.ivLen, payload, iv, h, ESP_HDR + sa.ivLen + payload, esp));
  }

  // The padding check of esp_inbound_post: the bytes before the pad length must be 1, 2, 3, ...
  method PaddingRight(m: Mbuf, end: nat, padLen: nat) returns (ok: bool)
    requires m.Valid() && padLen <= end <= m.len && padLen < 256
    ensures ok <==> m.Data()[end - padLen..end] == Padding(padLen)
  {
    ghost var pad := m.Data()[end - padLen..end];
    var i := 0;
    while i < padLen
      invariant 0 <= i <= padLen
      invariant forall j :: 0 <= j < i ==> pad[j] == j + 1
    {
      assert pad[i] == m.buf[m.off + end - padLen + i];
      if m.buf[m.off + end - padLen + i] != i + 1 { return false; }
      i := i + 1;
    }
    ok := true;
  }

  // ipip_inbound.  The outer header length follows from the version alone, whatever an IPv4
  // header says of its own length.  Of a packet too short for an inner header, bytes behind it
  // are read and written.  False, with nothing changed, if the outer headers are not there; the
  // code then goes on with a null pointer.
  method IpipInbound(m: Mbuf, sa: Sa) returns (ok: bool)
    requires m.Valid() && m.off + 2 <= m.buf.Length
    requires FrontLen(sa, m.Rest()) <= m.len ==> m.off + FrontLen(sa, m.Rest()) + 9 <= m.buf.Length
    modifies m, m.buf
    ensures m.Valid() && (ok <==> old(FrontLen(sa, m.Rest()) <= m.len))
    ensures !ok ==> m.len == old(m.len) && m.Rest() == old(m.Rest())
    ensures ok ==> m.len == old(m.len - FrontLen(sa, m.Rest())) && m.Rest() == Detunneled(sa, old(m.Rest()))
    ensures ok && m.len >= 9 ==> m.Data() == Detunneled(sa, old(m.Data()))
  {
    hide Aged, EcnSet, FrontLen, DsEcn, Detunneled;
    ghost var t, n := m.Rest(), m.len;
    var front, mark := ReadOuter(m, sa);
    ok := m.Adj(front);
    if !ok { return; }
    DetunneledIs(sa, t, mark);
    if mark { EcnSetup(m); }
    m.Lower();
    if m.len >= 9 { DetunneledPrefix(sa, t, n); }
  }

  // The length to take off, and whether the outer header carries a congestion mark.
  method ReadOuter(m: Mbuf, sa: Sa) returns (front: nat, mark: bool)
    requires m.Valid() && m.off + 2 <= m.buf.Length
    ensures front == FrontLen(sa, m.Rest()) && (mark <==> DsEcn(m.Rest()) % 4 == 3)
  {
    ghost var t := m.Rest();
    assert t[0] == m.buf[m.off] && t[1] == m.buf[m.off + 1];
    if m.buf[m.off] / 16 == 4 {
      front := 20 + ESP_HDR + sa.ivLen;
      mark := m.buf[m.off + 1] % 4 == 3;
    } else {
      front := 40 + ESP_HDR + sa.ivLen;
      mark := m.buf[m.off + 1] / 16 % 4 == 3;
    }
  }

  // ip4_ecn_setup and ip6_ecn_setup.
  method EcnSetup(m: Mbuf)
    requires m.Valid() && m.off + 2 <= m.buf.Length
    modifies m.buf
    ensures m.Rest() == EcnSet(old(m.Rest()))
  {
    hide Marked4, Marked6;
    ghost var q := m.Rest();
    assert q[0] == m.buf[m.off] && q[1] == m.buf[m.off + 1];
    var b0: nat, b1: nat := m.buf[m.off], m.buf[m.off + 1];
    if b0 / 16 == 4 {
      if b1 % 4 != 0 { m.PutBehind(1, Marked4(b1)); }
    } else if b1 / 16 % 4 != 0 {
      m.PutBehind(1, Marked6(b1));
    }
  }

  // esp_inbound_post in tunnel mode; 0, -1 or -EINVAL, or None if the outer headers are missing.
  method EspInboundPost(m: Mbuf, sa: Sa, ok: bool) returns (r: Option<int>)
    requires m.Valid() && m.len >= sa.digestLen + 2
    requires var t := Untrailed(sa, m.Data());
      ok && t.Some? && FrontLen(sa, m.Rest()) <= |t.value| ==> m.off + FrontLen(sa, m.Rest()) + 9 <= m.buf.Length
    modifies m, m.buf
    ensures m.Valid()
    ensures !ok ==> r == Some(-1) && m.Data() == old(m.Data())
    ensures ok ==> match old(Untrailed(sa, m.Data()))
      case None => r == Some(-EINVAL) && m.Data() == old(m.Data())
      case Some(t) =>
        var front := old(FrontLen(sa, m.Rest()));
        if front > |t| then r == None && m.Data() == t
        else
          && r == Some(0) && m.len == |t| - front && m.Rest() == Detunneled(sa, old(m.Rest()))
          && (m.len >= 9 ==> m.Data() == Detunneled(sa, t))
  {
    hide Detunneled, Padding, FrontLen, Untrailed;
    if !ok { return Some(-1); }
    var end := m.len - sa.digestLen - 2;
    var padLen := m.buf[m.off + end];
    assert padLen == m.Data()[end];
    UntrailedAt(sa, m.Data(), end);
    // A pad length beyond the packet makes the check read bytes in front of it; whatever they
    // hold, the trim that follows refuses such a length with the same error.
    if padLen > end { return Some(-EINVAL); }
    var right := PaddingRight(m, end, padLen);
    if !right { return Some(-EINVAL); }
    var trimmed := m.Trim(padLen + 2 + sa.digestLen);
    var there := IpipInbound(m, sa);
    r := if there then Some(0) else None;
  }

  const EINVAL: int := 22
}
