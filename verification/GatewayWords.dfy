/** What the words of the policy files do to packets (ipsec_eval/ipsec.h:61-67, ipsec_eval/sp4.c:195-250):
    0x80000000 is DISCARD, 0x40000000 BYPASS, a smaller word the slot of an SA, and 0 no rule. */
module GatewayWords {
  import opened Basics
  import opened Bits
  import opened CryptoQueue
  import opened CryptoRuns
  import opened Gateway

  /** The three parts of a word, bit by bit. */
  lemma WordBits(res: nat)
    ensures Discard(res) <==> Bit(res, 31) == 1
    ensures Bypass(res) <==> Bit(res, 30) == 1
    ensures SaIdx(res) == Low(res, 30)
  {
    hide Low, Shr, Pow2;
    Pow2Values();
    Pow2Add(24, 6);
    Pow2Next(30);
    LowIsMod(res, 30);
    LowIsMod(res, 31);
  }

  lemma Pow2Next(n: nat)
    ensures Pow2(n + 1) == 2 * Pow2(n)
  {
  }

  // ---------------------------------------------------------------- one list

  /** The list a packet of this version is in, and its policy table. */
  function ListOf(r: Placed, six: bool): seq<Packet> { if six then r.ip6 else r.ip4 }

  function TableOf(e: Env, six: bool): Option<Packet -> nat> { if six then e.acl6 else e.acl4 }

  /** A packet that is of one version after IPsec, and came in the clear with that version or as ESP. */
  predicate Belongs(e: Env, p: Packet, six: bool) {
    && e.version(p) == (if six then 6 else 4)
    && (e.kind(p) == Esp || e.kind(p) == if six then Ip6 else Ip4)
  }

  /** Inbound, by the word of the policy.  Of a packet `p`, `clear` came in the clear and `sealed` as
      ESP, and `back` came back from IPsec: the discarded ones are freed, the bypassing ones kept, and
      with the slot of an SA exactly those kept that came through the SA in it. */
  lemma InboundByWord(e: Env, burst: seq<Packet>, out: seq<Packet>, p: Packet, six: bool)
    requires Belongs(e, p, six) && TableOf(e, six).Some?
    ensures var r, word := Inbound(e, burst, out), TableOf(e, six).value(p);
      var clear, sealed := Share(e.kind(p) != Esp, Times(burst, p)), Share(e.kind(p) == Esp, Times(burst, p));
      var kept := Times(ListOf(r, six), p);
      && Times(ListOf(r, !six), p) == 0 && Times(r.ipsec, p) == sealed
      && kept + Times(r.freed, p) == clear + Times(out, p)
      && (word == 0x8000_0000 ==> kept == 0)
      && (word == 0x4000_0000 ==> kept == clear + Times(out, p))
      && (word < 0x4000_0000 ==>
          kept == Share(0 < word < |e.sadb| && e.sadb[word] == e.spi(p), Times(out, p)))
  {
    hide Times, Inbound;
    InboundKeeps(e, burst, out, p);
    InboundPlaces(e, burst, out, p);
    InboundHands(e, burst, out, p);
  }

  lemma InboundHands(e: Env, burst: seq<Packet>, out: seq<Packet>, p: Packet)
    ensures Times(Inbound(e, burst, out).ipsec, p) == Share(e.kind(p) == Esp, Times(burst, p))
  {
    hide Times, Pick;
    PickTimes(e, IsKind(Esp), burst, p);
  }

  /** Outbound, for a packet in the clear: the discarded ones, and those no rule names, are freed, the
      bypassing ones leave, and those with the slot of an SA are handed to IPsec; what comes back
      leaves. */
  lemma OutboundByWord(e: Env, burst: seq<Packet>, out: seq<Packet>, p: Packet, six: bool)
    requires Belongs(e, p, six) && e.kind(p) != Esp && TableOf(e, six).Some?
    ensures var r, word := Outbound(e, burst, out), TableOf(e, six).value(p);
      var came, left := Times(burst, p), Times(ListOf(r, six), p);
      && Times(ListOf(r, !six), p) == 0
      && (word == 0x8000_0000 || word == 0 ==>
          left == Times(out, p) && Times(r.ipsec, p) == 0 && Times(r.freed, p) == came)
      && (word == 0x4000_0000 ==>
          left == came + Times(out, p) && Times(r.ipsec, p) == 0 && Times(r.freed, p) == 0)
      && (0 < word < 0x4000_0000 ==>
          left == Times(out, p) && Times(r.ipsec, p) == came && Times(r.freed, p) == 0)
  {
    hide Times, Outbound;
    OutboundLeaves(e, burst, out, p);
    OutboundPlaces(e, burst, out, p);
  }

  /** A packet handed to IPsec goes with the slot its word names. */
  lemma ProtectedWithSlot(e: Env, burst: seq<Packet>, out: seq<Packet>, k: nat, six: bool)
    requires k < |Outbound(e, burst, out).ipsec| && Belongs(e, Outbound(e, burst, out).ipsec[k], six)
    requires e.kind(Outbound(e, burst, out).ipsec[k]) != Esp
    ensures var p := Outbound(e, burst, out).ipsec[k];
      && TableOf(e, six).Some? && k < |OutOwners(e, burst)|
      && (0 < TableOf(e, six).value(p) < 0x4000_0000 ==> OutOwners(e, burst)[k] == Some(TableOf(e, six).value(p)))
  {
    hide Pick, Holds;
    var b4, b6 := Pick(e, IsKind(Ip4), burst), Pick(e, IsKind(Ip6), burst);
    var s4, s6 := Protected(e, e.acl4, b4), Protected(e, e.acl6, b6);
    var p := (s4 + s6)[k];
    assert OutOwners(e, burst)[k] == Some((ProtectedIndexes(e, e.acl4, b4) + ProtectedIndexes(e, e.acl6, b6))[k]);
    if k < |s4| {
      ProtectedOfKind(e, e.acl4, burst, Ip4, k);
    } else {
      ProtectedOfKind(e, e.acl6, burst, Ip6, k - |s4|);
    }
  }

  lemma ProtectedOfKind(e: Env, acl: Option<Packet -> nat>, burst: seq<Packet>, kind: Kind, k: nat)
    requires k < |Protected(e, acl, Pick(e, IsKind(kind), burst))|
    ensures acl.Some? && e.kind(Protected(e, acl, Pick(e, IsKind(kind), burst))[k]) == kind
  {
    hide Pick;
    PickFrom(e, Protects(acl.value), Pick(e, IsKind(kind), burst), k);
    var p := Protected(e, acl, Pick(e, IsKind(kind), burst))[k];
    var i :| 0 <= i < |Pick(e, IsKind(kind), burst)| && Pick(e, IsKind(kind), burst)[i] == p;
    PickFrom(e, IsKind(kind), burst, i);
  }

  /** What is picked satisfies the rule and was in the list. */
  lemma {:induction false} PickFrom(e: Env, r: Rule, s: seq<Packet>, k: nat)
    requires k < |Pick(e, r, s)|
    ensures Holds(e, r, Pick(e, r, s)[k]) && Pick(e, r, s)[k] in s
  {
    hide Holds;
    var u := s[..|s| - 1];
    if k < |Pick(e, r, u)| {
      PickFrom(e, r, u, k);
      assert Pick(e, r, s)[k] == Pick(e, r, u)[k];
    }
  }
}
