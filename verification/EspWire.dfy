/** A sealed packet byte by byte, and what the other end makes of it (ipsec_eval/esp.c, ipsec_eval/ipip.h,
    ipsec_eval/sa.c:732-778): where every field is, and that the receiver's lookup finds the SA. */
module EspWire {
  import opened Basics
  import opened CryptoModes
  import opened EspSpec
  import opened EspRoundTrip
  import opened EspCode
  import T = SaTable

  // ---------------------------------------------------------------- fields

  /** Traffic class of a packet: its second byte, or the four bits on either side of the boundary of
      the first two. */
  function Class(p: seq<Byte>): nat
    requires |p| >= 2
  {
    var a: nat, b: nat := p[0], p[1];
    if a / 16 == 4 then b else a % 16 * 16 + b / 16
  }

  /** Two bytes in network order. */
  function Pair(a: nat, b: nat): nat { 256 * a + b }

  function FromLe(b: seq<Byte>): nat { if b == [] then 0 else b[0] + 256 * FromLe(b[1..]) }

  function Pow256(n: nat): (p: nat)
    ensures p > 0
  {
    if n == 0 then 1 else 256 * Pow256(n - 1)
  }

  lemma {:induction false} LeBack(x: nat, n: nat)
    requires x < Pow256(n)
    ensures FromLe(LeBytes(x, n)) == x
  {
    if n > 0 {
      LeBack(x / 256, n - 1);
      assert LeBytes(x, n)[1..] == LeBytes(x / 256, n - 1);
    }
  }

  lemma Le64Back(x: nat)
    requires x < U64
    ensures FromLe(Le64(x)) == x
  {
    assert Pow256(4) == 256 * Pow256(3) == 256 * (256 * Pow256(2)) == U32;
    assert Pow256(8) == 256 * Pow256(7) == 256 * (256 * Pow256(6));
    assert Pow256(6) == 256 * Pow256(5) == 256 * (256 * Pow256(4));
    LeBack(x, 8);
  }

  /** Two sequence numbers of one 64-bit round never give the same IV, so no counter block of an SA
      is used twice before the counter wraps. */
  lemma IvsDiffer(sa: Sa, m: nat, n: nat)
    requires SaOk(sa) && CounterMode(sa) && m < U64 && n < U64 && m != n
    ensures IvField(sa, m) != IvField(sa, n) && OutOp(sa, m, 0).iv != OutOp(sa, n, 0).iv
  {
    hide LeBytes;
    Le64Back(m);
    Le64Back(n);
    assert Icb(sa, Le64(m))[4..12] == Le64(m) && Icb(sa, Le64(n))[4..12] == Le64(n);
  }

  lemma Be32Value(x: nat)
    requires x < U32
    ensures T.Value(Be32(x)) == x
  {
    hide T.FromBytes;
    var h, l := x / 0x1_0000, x % 0x1_0000;
    Be16Is(h);
    Be16Is(l);
    FourDigits(h / 256, h % 256, l / 256, l % 256);
    TwoDigits(h);
    TwoDigits(l);
    assert Be32(x) == [h / 256, h % 256, l / 256, l % 256];
  }

  lemma Be16Is(n: nat)
    requires n < U16
    ensures Be16(n) == [n / 256, n % 256]
  {
  }

  lemma TwoDigits(n: nat)
    ensures n / 256 * 256 + n % 256 == n
  {
  }

  lemma FourDigits(a: nat, b: nat, c: nat, d: nat)
    ensures T.FromBytes(d, c, b, a) == (a * 256 + b) * 0x1_0000 + (c * 256 + d)
  {
  }

  // ---------------------------------------------------------------- the sealed packet

  /** Section 5.1.2.1 of RFC 4301 on bytes: version and header length, traffic class of the inner packet,
      length of the whole packet, TTL 64, protocol 50 and the addresses of the SA. */
  ghost predicate OuterLaidOut(sa: Sa, tc: nat, total: nat, w: seq<Byte>)
    requires |w| >= HdrLen(sa.mode) && |sa.src| == |sa.dst| == 16
  {
    if sa.mode.Ip6Tunnel? then
      && w[0] == 96 + tc / 16 && w[1] == tc % 16 * 16 && w[2] == w[3] == 0
      && Pair(w[4], w[5]) == total % 65536 && w[6] == 50 && w[7] == 64
      && w[8..24] == sa.src && w[24..40] == sa.dst
    else
      && w[0] == 0x45 && w[1] == tc && Pair(w[2], w[3]) == total % 65536 && w[4] == w[5] == w[6] == w[7] == 0
      && w[8] == 64 && w[9] == 50 && w[12..16] == sa.src[..4] && w[16..20] == sa.dst[..4]
  }

  lemma HeaderLaidOut(sa: Sa, tc: Byte, total: nat, sum: seq<Byte>)
    requires |sa.src| == |sa.dst| == 16 && |sum| == 2
    ensures OuterLaidOut(sa, tc, total, OuterHeader(sa, tc, total, sum))
  {
    var t := total % U16;
    assert Be16(t)[0] == t / 256 && Be16(t)[1] == t % 256;
    assert t == t / 256 * 256 + t % 256;
  }

  lemma LaidOutBehind(sa: Sa, tc: nat, total: nat, h: seq<Byte>, rest: seq<Byte>)
    requires |h| == HdrLen(sa.mode) && |sa.src| == |sa.dst| == 16 && OuterLaidOut(sa, tc, total, h)
    ensures OuterLaidOut(sa, tc, total, h + rest)
  {
    var w := h + rest;
    forall i, j | 0 <= i <= j <= |h| ensures w[i..j] == h[i..j] {}
  }

  /** Behind it, section 2 of RFC 4303: SPI, sequence number, and with a counter mode the IV. */
  ghost predicate LaidOut(sa: Sa, seqno: nat, p: seq<Byte>, w: seq<Byte>)
    requires |p| >= 2 && |sa.src| == |sa.dst| == 16
  {
    var h := HdrLen(sa.mode);
    && |w| >= h + 8 + sa.ivLen
    && OuterLaidOut(sa, Class(p), |w|, w)
    && T.Value(w[h..h + 4]) == sa.spi && T.Value(w[h + 4..h + 8]) == seqno % U32
    && (CounterMode(sa) && sa.ivLen == 8 && seqno < U64 ==> FromLe(w[h + 8..h + 16]) == seqno)
  }

  lemma SentLaidOut(k: Primitives, sa: Sa, seqno: nat, p: seq<Byte>, sum: seq<Byte>, room: seq<Byte>)
    requires SaOk(sa) && KeysOk(k, sa) && PacketOk(p) && |p| <= IP_MAXPACKET && |sum| == 2 && |room| == sa.digestLen
    ensures LaidOut(sa, seqno, p, Sent(k, sa, seqno, p, sum, room))
  {
    hide Sent, KeysOk, AlignCeil, OuterHeader, EspHeader, PacketOk, LaidOut, Arrived, IvField, Trimmed, SenderDigest,
        WireDigest, Offered, Accepted, Inner;
    PaddingMinimal(|p|, sa.blockSize);
    TwoBytes(p);
    var total := HdrLen(sa.mode) + ESP_HDR + sa.ivLen + |Inner(sa, p)| + sa.digestLen;
    var h := OuterHeader(sa, DsEcn(p), total, sum);
    OuterHeaderArrives(sa, DsEcn(p), total, sum);
    SentKeepsHeader(k, sa, seqno, p, sum, room);
    var w := Transit(k, sa, seqno, p, sum, room, h);
    Slices(w);
    PartsLaidOut(sa, seqno, p, sum, w);
  }

  lemma PartsLaidOut(sa: Sa, seqno: nat, p: seq<Byte>, sum: seq<Byte>, w: Parts)
    requires SaOk(sa) && w.Fits(sa) && PacketOk(p) && |sum| == 2 && w.e == EspHeader(sa, seqno)
    requires w.h == OuterHeader(sa, DsEcn(p), |w.Bytes()|, sum) && (CounterMode(sa) ==> w.iv == Le64(seqno))
    ensures LaidOut(sa, seqno, p, w.Bytes())
  {
    hide OuterHeader, EspHeader, OuterLaidOut, FromLe, DsEcn, Class, T.Value;
    TwoBytes(p);
    if CounterMode(sa) && seqno < U64 { Le64Back(seqno); }
    HeaderLaidOut(sa, DsEcn(p), |w.Bytes()|, sum);
    assert w.Bytes() == w.h + (w.e + w.iv + w.x + w.d);
    LaidOutBehind(sa, Class(p), |w.Bytes()|, w.h, w.e + w.iv + w.x + w.d);
    EspBytes(sa, seqno, w);
  }

  lemma TwoBytes(p: seq<Byte>)
    requires PacketOk(p)
    ensures |p| >= 2 && DsEcn(p) == Class(p)
  {
  }

  lemma EspBytes(sa: Sa, seqno: nat, w: Parts)
    requires SaOk(sa) && w.Fits(sa) && w.e == EspHeader(sa, seqno)
    ensures var b, h := w.Bytes(), HdrLen(sa.mode);
      && T.Value(b[h..h + 4]) == sa.spi && T.Value(b[h + 4..h + 8]) == seqno % U32
      && b[h + 8..h + 8 + sa.ivLen] == w.iv
  {
    hide Be32, T.Value;
    Slices(w);
    Be32Value(sa.spi);
    Be32Value(seqno % U32);
    var b, h := w.Bytes(), HdrLen(sa.mode);
    assert b[h..h + 4] == b[h..h + 8][..4] && b[h + 4..h + 8] == b[h..h + 8][4..];
  }

  // ---------------------------------------------------------------- the other end finds the SA

  /** The configured entry of the receiver is that of the sender's SA. */
  ghost predicate SameSa(x: T.Entry, sa: Sa)
    requires |sa.src| == |sa.dst| == 16
  {
    && x.spi == sa.spi
    && match sa.mode
       case Ip4Tunnel => x.flags.Ip4Tunnel? && T.Octets(x.src.ip4) == sa.src[..4] && T.Octets(x.dst.ip4) == sa.dst[..4]
       case Ip6Tunnel => x.flags.Ip6Tunnel? && x.src.ip6 == sa.src && x.dst.ip6 == sa.dst
       case BadFlags => false
  }

  /** Every packet an SA seals is found by the receiver's lookup to belong to the entry of that SA. */
  lemma SealedIsFound(k: Primitives, sa: Sa, seqno: nat, p: seq<Byte>, sum: seq<Byte>, room: seq<Byte>,
      entries: seq<T.Entry>, i: nat)
    requires SaOk(sa) && KeysOk(k, sa) && PacketOk(p) && |p| <= IP_MAXPACKET && |sum| == 2 && |room| == sa.digestLen
    requires forall j :: 0 <= j < |entries| ==> !T.Clashes(entries, j)
    requires i < |entries| && entries[i].spi != 0 && SameSa(entries[i], sa)
    ensures var w := Sent(k, sa, seqno, p, sum, room);
      T.HeaderOk(w) && T.Search(entries, w) == Some(entries[i])
  {
    hide Sent, KeysOk, T.Find, T.Octets, T.Value, T.Clashes, PacketOk;
    TwoBytes(p);
    SentLaidOut(k, sa, seqno, p, sum, room);
    var w := Sent(k, sa, seqno, p, sum, room);
    LongEnough(k, sa, seqno, p, sum, room);
    OnlyEntry(entries, i);
  }

  lemma LongEnough(k: Primitives, sa: Sa, seqno: nat, p: seq<Byte>, sum: seq<Byte>, room: seq<Byte>)
    requires SaOk(sa) && KeysOk(k, sa) && PacketOk(p) && |p| <= IP_MAXPACKET && |sum| == 2 && |room| == sa.digestLen
    ensures |Sent(k, sa, seqno, p, sum, room)| >= HdrLen(sa.mode) + 8
  {
    hide Sent, KeysOk, AlignCeil, PacketOk;
    SentLaidOut(k, sa, seqno, p, sum, room);
  }

  /** On a list without clashes a nonzero SPI belongs to one entry. */
  lemma OnlyEntry(entries: seq<T.Entry>, i: nat)
    requires i < |entries| && entries[i].spi != 0 && forall j :: 0 <= j < |entries| ==> !T.Clashes(entries, j)
    ensures T.Find(entries, entries[i].spi) == Some(entries[i])
  {
    hide T.Clashes, T.Find;
    T.Found(entries, i);
    var j := T.FindAt(entries, entries[i].spi);
    if i < j { T.NoClash(entries, i, j); }
    if j < i { T.NoClash(entries, j, i); }
  }

  // ---------------------------------------------------------------- the enciphered part

  /** Section 2.4 of RFC 4303 on the bytes the receiver deciphers: the packet with its TTL lowered,
      padding 1, 2, 3, ..., its length, and 4 or 41 for the version of the packet. */
  lemma InnerLaidOut(sa: Sa, p: seq<Byte>)
    requires SaOk(sa) && PacketOk(p) && |p| <= IP_MAXPACKET
    ensures var x := Inner(sa, p);
      var n := |x| - |p| - 2;
      && 0 <= n < sa.blockSize && |x| % sa.blockSize == 0
      && x[..|p|] == Aged(p, 1)
      && (forall i :: |p| <= i < |p| + n ==> x[i] == i - |p| + 1)
      && x[|x| - 2] == n && x[|x| - 1] == var first: nat := p[0]; if first / 16 == 4 then 4 else 41
  {
    hide Aged, AlignCeil, Padding;
    PadLenRight(|p|, sa.blockSize);
    PaddingMinimal(|p|, sa.blockSize);
    var x, n := Inner(sa, p), PadLen(|p|, sa.blockSize) - 2;
    var nlp: Byte := if Version(p) == 4 then IPPROTO_IPIP else IPPROTO_IPV6;
    assert x == Aged(p, 1) + (Padding(n) + [n, nlp]);
    forall i | |p| <= i < |p| + n ensures x[i] == i - |p| + 1 { assert x[i] == Padding(n)[i - |p|]; }
  }

  /** Only the TTL of an IPv4 packet, or the hop limit of an IPv6 one, is changed. */
  lemma AgedBytes(p: seq<Byte>, n: nat)
    requires |p| >= 9
    ensures var q := Aged(p, n);
      var first: nat := p[0];
      var at := if first / 16 == 4 then 8 else 7;
      var was: int := p[at];
      |q| == |p| && q[at] == (was - n) % 256 && forall i :: 0 <= i < |p| && i != at ==> q[i] == p[i]
  {
  }

  /** A mark sets the two low bits of the traffic class of an ECN-capable packet, and no other bit. */
  lemma MarkedBytes(p: seq<Byte>)
    requires |p| >= 2
    ensures var q := EcnSet(p);
      && |q| == |p| && (forall i :: 0 <= i < |p| && i != 1 ==> q[i] == p[i])
      && Class(q) == if Class(p) % 4 == 0 then Class(p) else Class(p) / 4 * 4 + 3
  {
    var q := EcnSet(p);
    var b: nat := p[1];
    assert q[0] == p[0];
    if Class(p) % 4 != 0 && Version(p) != 4 {
      var c: nat := q[1];
      assert c == b / 64 * 64 + 48 + b % 16;
      assert c / 16 == b / 64 * 4 + 3 && b / 16 / 4 == b / 64;
    }
  }

  /** Congestion experienced in transit is the two low bits of the traffic class. */
  lemma ClassIs(p: seq<Byte>)
    requires |p| >= 2
    ensures DsEcn(p) == Class(p)
  {
  }

  // ---------------------------------------------------------------- what is refused

  /** The trailer is taken off exactly if the deciphered packet ends in padding 1, 2, 3, ..., n, then n,
      some next header and the digest; what is left is what was in front. */
  lemma UntrailedIff(sa: Sa, d: seq<Byte>, t: seq<Byte>)
    requires |d| >= sa.digestLen + 2
    ensures Untrailed(sa, d) == Some(t) <==>
      exists n: Byte, next: Byte, digest: seq<Byte> :: |digest| == sa.digestLen && Ends(d, t, n, next, digest)
  {
    hide Padding;
    if Untrailed(sa, d) == Some(t) {
      var end := |d| - sa.digestLen - 2;
      assert d == t + Padding(d[end]) + [d[end], d[end + 1]] + d[end + 2..];
      PaddingIs(d[end]);
      assert Ends(d, t, d[end], d[end + 1], d[end + 2..]);
    }
    if n: Byte, next: Byte, digest: seq<Byte> :| |digest| == sa.digestLen && Ends(d, t, n, next, digest) {
      PaddingIs(n);
      TrailerSlices(t, Padding(n), n, next, digest);
    }
  }

  predicate Ends(d: seq<Byte>, t: seq<Byte>, n: Byte, next: Byte, digest: seq<Byte>) {
    d == t + Counted(n) + [n, next] + digest
  }

  function Counted(n: Byte): (b: seq<Byte>)
    ensures |b| == n && forall i :: 0 <= i < n ==> b[i] == i + 1
  {
    seq(n, i requires 0 <= i < n => i + 1)
  }

  lemma PaddingIs(n: Byte)
    ensures Padding(n) == Counted(n)
  {
  }

  /** The sender declines an IP packet exactly if the sealed one would exceed 65535 bytes or padding and
      digest do not fit behind it. */
  lemma DeclinedIff(sa: Sa, p: seq<Byte>, tailroom: nat)
    requires SaOk(sa) && PacketOk(p) && AlignCeil(|p| + 2, sa.blockSize) < U16
    ensures var sealed := HdrLen(sa.mode) + ESP_HDR + sa.ivLen + |Inner(sa, p)| + sa.digestLen;
      && (Declined(sa, p, tailroom) == Some(Einval) <==> sealed > 65535)
      && (Declined(sa, p, tailroom) == Some(Enospc) <==>
          sealed <= 65535 && |Inner(sa, p)| - |p| + sa.digestLen > tailroom)
  {
    hide AlignCeil, PadPayloadLen, PadLen;
    PaddingMinimal(|p|, sa.blockSize);
    PadLenRight(|p|, sa.blockSize);
  }

  /** The receiver takes a packet exactly if it is IP, its algorithms are known, and between the header
      its first byte tells, ESP header and IV, and the digest lies a positive number of blocks; these
      it deciphers, with the IV of the packet or, in counter modes, the block of salt, IV and 1. */
  lemma InOpIff(sa: Sa, w: seq<Byte>)
    requires SaShape(sa) && |w| > 0
    ensures var first: nat := w[0];
      var h := if first / 16 == 4 then first % 16 * 4 else 40;
      var off := h + 8 + sa.ivLen;
      && (InOp(sa, w).Some? <==>
          (first / 16 == 4 || first / 16 == 6) && !sa.cipher.BadCipher? && !sa.auth.BadAuth?
          && exists n: nat :: n > 0 && Blocks(n, sa.blockSize) && |w| == off + n + sa.digestLen)
      && (InOp(sa, w).Some? ==>
          && |w| >= off + sa.digestLen
          && InOp(sa, w).value == CryptoOp(off, |w| - off - sa.digestLen,
               if CounterMode(sa) then sa.salt + w[h + 8..off] + [0, 0, 0, 1] else w[h + 8..off],
               h, |w| - h - sa.digestLen, w[h..h + 8]))
  {
    var first: nat := w[0];
    var h := if first / 16 == 4 then first % 16 * 4 else 40;
    var n := |w| - h - 8 - sa.ivLen - sa.digestLen;
    if InOp(sa, w).Some? {
      assert Blocks(n, sa.blockSize);
    }
  }

  predicate Blocks(n: nat, b: nat)
    requires b > 0
  {
    n % b == 0
  }
}
