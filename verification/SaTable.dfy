/** The direct-mapped SA table: filled from the configured list, then looked up by the SPI and the
    outer header of a packet (ipsec_eval/sa.c:586-663, 722-778). */
module SaTable {
  import opened Basics

  const IPSEC_SA_MAX_ENTRIES: nat := 131072
  const INVALID_SPI: nat := 0
  const EINVAL: int := 22

  /** Any other flags value is Unset, as in a zeroed slot. */
  datatype Flags = Unset | Ip4Tunnel | Ip6Tunnel | Transport

  /** An IPv4 endpoint is a 32-bit word, an IPv6 one 16 bytes; the flags say which is meant. */
  datatype Addr = Addr(ip4: nat, ip6: seq<Byte>)

  datatype CipherSpec = CipherSpec(algo: nat, key: seq<Byte>)

  datatype AuthSpec = AuthSpec(algo: nat, key: seq<Byte>, aadLen: nat, digestLen: nat)

  /** One transform of the crypto library and whether it undoes what a sender did. */
  datatype Transform = Cipher(cipher: CipherSpec, decrypt: bool) | Auth(auth: AuthSpec, verify: bool)

  /** A configured entry, and what a slot holds: `xforms` is the chain of transforms, first to last. */
  datatype Entry = Entry(spi: nat, seqno: nat, flags: Flags, src: Addr, dst: Addr, cipher: CipherSpec, auth: AuthSpec,
                         xforms: seq<Transform>)

  /** SPI2IDX: the mask of the code, for a power of two. */
  function Idx(spi: nat): (i: nat)
    ensures i < IPSEC_SA_MAX_ENTRIES
  {
    spi % IPSEC_SA_MAX_ENTRIES
  }

  // ---------------------------------------------------------------- words in memory

  /** The word with these digits to the base 256, lowest first. */
  function FromBytes(a: nat, b: nat, c: nat, d: nat): nat { a + 256 * (b + 256 * (c + 256 * d)) }

  function Digit(x: nat, k: nat): (d: Byte) {
    if k == 0 then x % 256 else Digit(x / 256, k - 1)
  }

  lemma WordDigits(a: Byte, b: Byte, c: Byte, d: Byte)
    ensures var x := FromBytes(a, b, c, d);
      x < U32 && Digit(x, 0) == a && Digit(x, 1) == b && Digit(x, 2) == c && Digit(x, 3) == d
  {
    var x, y, z := FromBytes(a, b, c, d), b + 256 * (c + 256 * d), c + 256 * d;
    assert x == a + 256 * y && x / 256 == y && y == b + 256 * z && y / 256 == z && z / 256 == d;
    assert Digit(x, 1) == Digit(y, 0);
    assert Digit(x, 2) == Digit(y, 1) == Digit(z, 0);
    assert Digit(x, 3) == Digit(y, 2) == Digit(z, 1) == Digit(d, 0);
  }

  /** rte_cpu_to_be_32 on a little-endian host. */
  function Swap32(x: nat): nat { FromBytes(Digit(x, 3), Digit(x, 2), Digit(x, 1), Digit(x, 0)) }

  /** A 32-bit load on a little-endian host. */
  function Load32(b: seq<Byte>): nat
    requires |b| == 4
  {
    FromBytes(b[0], b[1], b[2], b[3])
  }

  /** The four octets of a word in network order. */
  function Octets(x: nat): (b: seq<Byte>)
    ensures |b| == 4
  {
    [Digit(x, 3), Digit(x, 2), Digit(x, 1), Digit(x, 0)]
  }

  /** The word four octets in network order stand for. */
  function Value(b: seq<Byte>): nat
    requires |b| == 4
  {
    FromBytes(b[3], b[2], b[1], b[0])
  }

  /** A stored word equals a word loaded from the packet exactly if the packet shows its octets. */
  lemma StoredMatchesOctets(x: nat, b: seq<Byte>)
    requires |b| == 4
    ensures Swap32(x) == Load32(b) <==> Octets(x) == b
  {
    hide Digit, FromBytes;
    var o := Octets(x);
    WordDigits(o[0], o[1], o[2], o[3]);
    WordDigits(b[0], b[1], b[2], b[3]);
  }

  lemma SpiSwap(b: seq<Byte>)
    requires |b| == 4
    ensures Swap32(Load32(b)) == Value(b) && (Load32(b) == 0 <==> Value(b) == 0)
  {
    WordDigits(b[0], b[1], b[2], b[3]);
  }

  // ---------------------------------------------------------------- the list

  /** Inbound verifies, then decrypts; outbound encrypts, then authenticates. */
  function Chain(e: Entry, inbound: bool): seq<Transform> {
    if inbound then [Auth(e.auth, true), Cipher(e.cipher, true)] else [Cipher(e.cipher, false), Auth(e.auth, false)]
  }

  /** What the slot of an entry holds: sequence number reset, IPv4 endpoints in network order. */
  function Stored(e: Entry, inbound: bool): Entry {
    var s := e.(seqno := 0, xforms := Chain(e, inbound));
    if e.flags.Ip4Tunnel? then s.(src := s.src.(ip4 := Swap32(s.src.ip4)), dst := s.dst.(ip4 := Swap32(s.dst.ip4)))
        else s
  }

  function Empty(): Entry {
    Entry(0, 0, Unset, Addr(0, []), Addr(0, []), CipherSpec(0, []), AuthSpec(0, [], 0, 0), [])
  }

  /** An entry with a nonzero SPI takes its slot from every later one with the same index. */
  ghost predicate Clashes(entries: seq<Entry>, j: nat)
    requires j < |entries|
  {
    exists i :: 0 <= i < j && entries[i].spi != 0 && Idx(entries[i].spi) == Idx(entries[j].spi)
  }

  /** The slot after the entries: the last one of its index. */
  function Slot(entries: seq<Entry>, inbound: bool, idx: nat): Entry {
    if entries == [] then Empty()
    else if Idx(entries[|entries| - 1].spi) == idx then Stored(entries[|entries| - 1], inbound)
    else Slot(entries[..|entries| - 1], inbound, idx)
  }

  /** Linear search, from the back, for an SPI. */
  function Find(entries: seq<Entry>, spi: nat): Option<Entry> {
    if entries == [] then None
    else if entries[|entries| - 1].spi == spi then Some(entries[|entries| - 1])
    else Find(entries[..|entries| - 1], spi)
  }

  lemma NoClash(entries: seq<Entry>, i: nat, j: nat)
    requires i < j < |entries| && !Clashes(entries, j)
    ensures entries[i].spi != 0 ==> Idx(entries[i].spi) != Idx(entries[j].spi)
  {
  }

  /** Without clashes, a slot with a nonzero SPI decides like the linear search. */
  lemma {:induction false} SlotFinds(entries: seq<Entry>, inbound: bool, spi: nat)
    requires spi != 0 && forall j :: 0 <= j < |entries| ==> !Clashes(entries, j)
    ensures Slot(entries, inbound, Idx(spi)).spi == spi <==> Find(entries, spi).Some?
    ensures Find(entries, spi).Some? ==> Slot(entries, inbound, Idx(spi)) == Stored(Find(entries, spi).value, inbound)
  {
    if entries != [] {
      var n := |entries| - 1;
      var u := entries[..n];
      forall j | 0 <= j < n ensures !Clashes(u, j) { assert !Clashes(entries, j); }
      SlotFinds(u, inbound, spi);
      if Find(u, spi).Some? {
        var i := FindAt(u, spi);
        NoClash(entries, i, n);
      }
    }
  }

  /** What a crypto device does to a message with a chain: each transform in turn, on the body and the
      digest behind it; None is a digest that does not verify. */
  function Applied(chain: seq<Transform>, enc: (CipherSpec, seq<Byte>) -> seq<Byte>,
      dec: (CipherSpec, seq<Byte>) -> seq<Byte>, mac: (AuthSpec, seq<Byte>) -> seq<Byte>,
      body: seq<Byte>, digest: seq<Byte>): Option<(seq<Byte>, seq<Byte>)>
  {
    if chain == [] then Some((body, digest))
    else
      match chain[0]
      case Cipher(c, decrypt) =>
        Applied(chain[1..], enc, dec, mac, if decrypt then dec(c, body) else enc(c, body), digest)
      case Auth(a, verify) =>
        if verify && mac(a, body) != digest then None
        else Applied(chain[1..], enc, dec, mac, body, if verify then digest else mac(a, body))
  }

  /** Outbound the body is enciphered and the digest is that of the ciphertext; inbound a digest that is
      not that of the body stops the message, and any other body is deciphered; with the algorithms and
      keys of the entry. */
  lemma ChainsDo(e: Entry, enc: (CipherSpec, seq<Byte>) -> seq<Byte>, dec: (CipherSpec, seq<Byte>) -> seq<Byte>,
      mac: (AuthSpec, seq<Byte>) -> seq<Byte>, body: seq<Byte>, digest: seq<Byte>)
    ensures Applied(Stored(e, false).xforms, enc, dec, mac, body, digest)
         == Some((enc(e.cipher, body), mac(e.auth, enc(e.cipher, body))))
    ensures Applied(Stored(e, true).xforms, enc, dec, mac, body, digest)
         == if mac(e.auth, body) == digest then Some((dec(e.cipher, body), digest)) else None
  {
    var out, back := Stored(e, false).xforms, Stored(e, true).xforms;
    assert out[1..] == [Auth(e.auth, false)] && back[1..] == [Cipher(e.cipher, true)];
    OneApplied(Auth(e.auth, false), enc, dec, mac, enc(e.cipher, body), digest);
    OneApplied(Cipher(e.cipher, true), enc, dec, mac, body, digest);
  }

  lemma OneApplied(t: Transform, enc: (CipherSpec, seq<Byte>) -> seq<Byte>, dec: (CipherSpec, seq<Byte>) -> seq<Byte>,
      mac: (AuthSpec, seq<Byte>) -> seq<Byte>, body: seq<Byte>, digest: seq<Byte>)
    ensures Applied([t], enc, dec, mac, body, digest) ==
      match t
      case Cipher(c, decrypt) => Some((if decrypt then dec(c, body) else enc(c, body), digest))
      case Auth(a, verify) =>
        if verify && mac(a, body) != digest then None else Some((body, if verify then digest else mac(a, body)))
  {
    assert [t][1..] == [];
  }

  /** A slot keeps what identifies the SA, and its sequence numbers start over. */
  lemma StoredKeeps(e: Entry, inbound: bool)
    ensures var s := Stored(e, inbound);
      && s.spi == e.spi && s.flags == e.flags && s.seqno == 0 && s.src.ip6 == e.src.ip6 && s.dst.ip6 == e.dst.ip6
      && (e.flags.Ip4Tunnel? && e.src.ip4 < U32 && e.dst.ip4 < U32 ==>
          Swap32(s.src.ip4) == e.src.ip4 && Swap32(s.dst.ip4) == e.dst.ip4)
  {
    hide Digit, FromBytes;
    if e.flags.Ip4Tunnel? && e.src.ip4 < U32 && e.dst.ip4 < U32 {
      SwapTwice(e.src.ip4);
      SwapTwice(e.dst.ip4);
    }
  }

  lemma SwapTwice(x: nat)
    requires x < U32
    ensures Swap32(Swap32(x)) == x
  {
    DigitsOf(x);
    WordDigits(Digit(x, 3), Digit(x, 2), Digit(x, 1), Digit(x, 0));
  }

  lemma DigitsOf(x: nat)
    requires x < U32
    ensures FromBytes(Digit(x, 0), Digit(x, 1), Digit(x, 2), Digit(x, 3)) == x
  {
    var y := x / 256;
    var z := y / 256;
    DigitStep(x);
    DigitStep(y);
    DigitStep(z);
    hide Digit;
    assert Digit(x, 1) == y % 256 && Digit(x, 2) == Digit(y, 1) == z % 256;
    assert Digit(x, 3) == Digit(y, 2) == Digit(z, 1) == z / 256 % 256 == z / 256;
  }

  lemma DigitStep(x: nat)
    ensures Digit(x, 0) == x % 256 && forall k: nat :: Digit(x, k + 1) == Digit(x / 256, k)
    ensures Digit(x / 256, 0) == x / 256 % 256
  {
  }

  /** What a slot holds belongs there. */
  lemma {:induction false} SlotIdx(entries: seq<Entry>, inbound: bool, idx: nat)
    ensures Slot(entries, inbound, idx).spi != 0 ==> Idx(Slot(entries, inbound, idx).spi) == idx
  {
    if entries != [] && Idx(entries[|entries| - 1].spi) != idx { SlotIdx(entries[..|entries| - 1], inbound, idx); }
  }

  lemma {:induction false} FindAt(entries: seq<Entry>, spi: nat) returns (i: nat)
    requires Find(entries, spi).Some?
    ensures i < |entries| && entries[i].spi == spi && entries[i] == Find(entries, spi).value
  {
    if entries[|entries| - 1].spi == spi { i := |entries| - 1; } else { i := FindAt(entries[..|entries| - 1], spi); }
  }

  lemma {:induction false} Found(entries: seq<Entry>, i: nat)
    requires i < |entries|
    ensures Find(entries, entries[i].spi).Some? && Find(entries, entries[i].spi).value.spi == entries[i].spi
  {
    if i < |entries| - 1 { Found(entries[..|entries| - 1], i); }
  }

  // ---------------------------------------------------------------- packets

  /** Enough of a packet to hold the fixed outer header and an SPI. */
  predicate HeaderOk(p: seq<Byte>) { |p| >= 24 && (p[0] / 16 != 4 ==> |p| >= 44) }

  function SpiBytes(p: seq<Byte>): (b: seq<Byte>)
    requires HeaderOk(p)
    ensures |b| == 4
  {
    if p[0] / 16 == 4 then p[20..24] else p[40..44]
  }

  /** The outer header is the one the entry was configured with. */
  ghost predicate EndpointsMatch(e: Entry, p: seq<Byte>)
    requires HeaderOk(p)
  {
    match e.flags
    case Ip4Tunnel => p[0] / 16 == 4 && p[12..16] == Octets(e.src.ip4) && p[16..20] == Octets(e.dst.ip4)
    case Ip6Tunnel => p[0] / 16 == 6 && p[8..24] == e.src.ip6 && p[24..40] == e.dst.ip6
    case Transport => true
    case Unset => false
  }

  /** The entry a packet belongs to, by the configured list alone. */
  ghost function Search(entries: seq<Entry>, p: seq<Byte>): Option<Entry>
    requires HeaderOk(p)
  {
    var spi := Value(SpiBytes(p));
    var e := Find(entries, spi);
    if spi != INVALID_SPI && e.Some? && EndpointsMatch(e.value, p) then e else None
  }

  // ---------------------------------------------------------------- the table

  class SaCtx {
    const sa: array<Entry>

    constructor ()
      ensures fresh(sa) && Holds([], true) && Holds([], false)
    {
      sa := new Entry[IPSEC_SA_MAX_ENTRIES](_ => Empty());
    }

    /** The table holds these entries and nothing else. */
    ghost predicate Holds(entries: seq<Entry>, inbound: bool)
      reads sa
    {
      sa.Length == IPSEC_SA_MAX_ENTRIES && forall i :: 0 <= i < sa.Length ==> sa[i] == Slot(entries, inbound, i)
    }

    // sa_add_rules on an empty table, for either direction.  On a clash the entries before it stay
    // in the table.
    method AddRules(entries: seq<Entry>, inbound: bool) returns (r: int)
      requires Holds([], inbound)
      modifies sa
      ensures r == 0 || r == -EINVAL
      ensures r == 0 <==> forall j :: 0 <= j < |entries| ==> !Clashes(entries, j)
      ensures r == 0 ==> Holds(entries, inbound)
      ensures r != 0 ==> exists k :: 0 <= k < |entries| && Clashes(entries, k) && Holds(entries[..k], inbound)
                                     && forall j :: 0 <= j < k ==> !Clashes(entries, j)
    {
      var i := 0;
      assert entries[..0] == [];
      while i < |entries|
        invariant i <= |entries| && Holds(entries[..i], inbound)
        invariant forall j :: 0 <= j < i ==> !Clashes(entries, j)
      {
        var idx := Idx(entries[i].spi);
        SlotTaken(entries, inbound, i);
        if sa[idx].spi != 0 {
          assert Clashes(entries, i);
          return -EINVAL;
        }
        var e := entries[i].(seqno := 0);
        if e.flags.Ip4Tunnel? {
          e := e.(src := e.src.(ip4 := Swap32(e.src.ip4)), dst := e.dst.(ip4 := Swap32(e.dst.ip4)));
        }
        if inbound {
          e := e.(xforms := [Auth(e.auth, true), Cipher(e.cipher, true)]);
        } else {
          e := e.(xforms := [Cipher(e.cipher, false), Auth(e.auth, false)]);
        }
        sa[idx] := e;
        assert entries[..i + 1][..i] == entries[..i];
        i := i + 1;
      }
      assert entries[..i] == entries;
      r := 0;
    }

    // single_inbound_lookup: the index of the entry, if any.
    method InboundLookup(p: seq<Byte>, ghost entries: seq<Entry>) returns (r: Option<nat>)
      requires HeaderOk(p) && Holds(entries, true)
      requires forall j :: 0 <= j < |entries| ==> !Clashes(entries, j)
      ensures match Search(entries, p)
        case None => r == None
        case Some(e) => r == Some(Idx(e.spi)) && sa[Idx(e.spi)] == Stored(e, true)
    {
      hide Swap32, Load32, Octets, Value, FromBytes, Digit, Slot, Find, Clashes, Idx;
      var spi := SpiBytes(p);
      SpiSwap(spi);
      if Load32(spi) == INVALID_SPI { return None; }
      var idx := Idx(Swap32(Load32(spi)));
      var s := sa[idx];
      SlotFinds(entries, true, Value(spi));
      if Swap32(Load32(spi)) != s.spi { return None; }
      ghost var e := Find(entries, Value(spi)).value;
      if Find(entries, Value(spi)).Some? { var i := FindAt(entries, Value(spi)); }
      StoredMatchesOctets(e.src.ip4, p[12..16]);
      StoredMatchesOctets(e.dst.ip4, p[16..20]);
      r := None;
      match s.flags {
        case Ip4Tunnel =>
          if p[0] / 16 == 4 && s.src.ip4 == Load32(p[12..16]) && s.dst.ip4 == Load32(p[16..20]) { r := Some(idx); }
        case Ip6Tunnel =>
          if p[0] / 16 == 6 && s.src.ip6 == p[8..24] && s.dst.ip6 == p[24..40] { r := Some(idx); }
        case Transport => r := Some(idx);
        case Unset =>
      }
    }

    // inbound_sa_check: `spi` is that of the SA the packet came through, `saIdx` the policy's.
    method InboundSaCheck(spi: nat, saIdx: nat, ghost entries: seq<Entry>) returns (ok: bool)
      requires Holds(entries, true) && saIdx < IPSEC_SA_MAX_ENTRIES
      requires forall j :: 0 <= j < |entries| ==> !Clashes(entries, j)
      ensures spi != 0 ==> (ok <==> saIdx == Idx(spi) && Find(entries, spi).Some?)
      ensures spi == 0 ==> (ok <==>
          forall i :: 0 <= i < |entries| && entries[i].spi != 0 ==> Idx(entries[i].spi) != saIdx)
    {
      ok := sa[saIdx].spi == spi;
      SlotIdx(entries, true, saIdx);
      SlotNonzero(entries, true, saIdx);
      if spi != 0 { SlotFinds(entries, true, spi); }
    }
  }

  /** A slot has a nonzero SPI exactly if an earlier entry clashes with the next one. */
  lemma SlotTaken(entries: seq<Entry>, inbound: bool, j: nat)
    requires j < |entries| && forall k :: 0 <= k < j ==> !Clashes(entries, k)
    ensures Slot(entries[..j], inbound, Idx(entries[j].spi)).spi != 0 <==> Clashes(entries, j)
  {
    var u, idx := entries[..j], Idx(entries[j].spi);
    forall k | 0 <= k < j ensures !Clashes(u, k) { assert !Clashes(entries, k); }
    SlotNonzero(u, inbound, idx);
    if i :| 0 <= i < j && u[i].spi != 0 && Idx(u[i].spi) == idx {
      assert entries[i] == u[i];
    }
  }

  lemma {:induction false} SlotNonzero(entries: seq<Entry>, inbound: bool, idx: nat)
    requires forall k :: 0 <= k < |entries| ==> !Clashes(entries, k)
    ensures Slot(entries, inbound, idx).spi != 0 <==>
        exists i :: 0 <= i < |entries| && entries[i].spi != 0 && Idx(entries[i].spi) == idx
  {
    if entries != [] {
      var n := |entries| - 1;
      var u := entries[..n];
      forall j | 0 <= j < n ensures !Clashes(u, j) { assert !Clashes(entries, j); }
      SlotNonzero(u, inbound, idx);
      if Idx(entries[n].spi) == idx {
        assert entries[n].spi == 0 ==> !Clashes(entries, n);
      } else if i :| 0 <= i < |u| && u[i].spi != 0 && Idx(u[i].spi) == idx {
        assert entries[i] == u[i];
      }
    }
  }

  /** A policy that protects with a configured SPI passes exactly the packets of that SA. */
  lemma PolicyNamesSa(entries: seq<Entry>, inbound: bool, i: nat, spi: nat)
    requires i < |entries| && entries[i].spi != 0 && forall j :: 0 <= j < |entries| ==> !Clashes(entries, j)
    ensures Slot(entries, inbound, Idx(entries[i].spi)).spi == spi <==> spi == entries[i].spi
  {
    Found(entries, i);
    SlotFinds(entries, inbound, entries[i].spi);
  }
}
