/** Sorting a burst of packets by kind and policy around the crypto queues
    (ipsec_eval/ipsec-secgw.c:242-293, 388-527): which packet ends up where, and that each one ends
    up in exactly one place. */
module Gateway {
  import opened Basics
  import opened CryptoQueue
  import opened CryptoRuns

  datatype Kind = Esp | Ip4 | Ip6 | Unknown

  /** What the code reads from a packet, and its tables: Ethernet type and protocol, the version
      after IPsec processing, the SPI of the SA it came through, the SA found for it inbound, the
      policies' results and the SPIs in the inbound SA table. */
  datatype Env = Env(kind: Packet -> Kind, version: Packet -> nat, spi: Packet -> nat, owner: Packet -> Option<SaId>,
                     acl4: Option<Packet -> nat>, acl6: Option<Packet -> nat>, sadb: seq<nat>)

  // ---------------------------------------------------------------- policy results

  predicate Discard(res: nat) { res / 0x8000_0000 % 2 == 1 }

  predicate Bypass(res: nat) { res / 0x4000_0000 % 2 == 1 }

  /** res & PROTECT_MASK */
  function SaIdx(res: nat): nat { res % 0x4000_0000 }

  // ---------------------------------------------------------------- picking packets

  datatype Rule =
    | IsKind(k: Kind)
    | IsVersion(v: nat)
    | Passes(acl: Packet -> nat)     // inbound, not through IPsec
    | PassesSa(acl: Packet -> nat)   // inbound, through IPsec
    | Protects(acl: Packet -> nat)   // outbound, to be sealed
    | Stays(acl: Packet -> nat)      // outbound, bypassing IPsec
    | Not(r: Rule)
    | Both(r: Rule, s: Rule)

  predicate Holds(e: Env, r: Rule, p: Packet) {
    match r
    case IsKind(k) => e.kind(p) == k
    case IsVersion(v) => e.version(p) == v
    case Passes(acl) => Bypass(acl(p))
    case PassesSa(acl) =>
      Bypass(acl(p)) || (!Discard(acl(p)) && SaIdx(acl(p)) != 0 && SaIdx(acl(p)) < |e.sadb| &&
          e.sadb[SaIdx(acl(p))] == e.spi(p))
    case Protects(acl) => acl(p) != 0 && !Discard(acl(p)) && SaIdx(acl(p)) != 0
    case Stays(acl) => acl(p) != 0 && !Discard(acl(p)) && SaIdx(acl(p)) == 0
    case Not(r) => !Holds(e, r, p)
    case Both(r, s) => Holds(e, r, p) && Holds(e, s, p)
  }

  /** The packets for which a rule holds, in their order. */
  function Pick(e: Env, r: Rule, s: seq<Packet>): (t: seq<Packet>)
    ensures |t| <= |s|
  {
    if s == [] then []
    else Pick(e, r, s[..|s| - 1]) + if Holds(e, r, s[|s| - 1]) then [s[|s| - 1]] else []
  }

  lemma PickOne(e: Env, r: Rule, s: seq<Packet>, n: nat)
    requires n < |s|
    ensures Pick(e, r, s[..n + 1]) == Pick(e, r, s[..n]) + if Holds(e, r, s[n]) then [s[n]] else []
  {
    assert s[..n + 1][..n] == s[..n];
  }

  lemma {:induction false} PickConcat(e: Env, r: Rule, s: seq<Packet>, t: seq<Packet>)
    ensures Pick(e, r, s + t) == Pick(e, r, s) + Pick(e, r, t)
  {
    if t == [] {
      assert s + t == s;
    } else {
      var u := t[..|t| - 1];
      assert (s + t)[..|s + t| - 1] == s + u;
      PickConcat(e, r, s, u);
    }
  }

  /** A packet is picked as often as it occurs, if the rule holds for it, and else not at all. */
  lemma {:induction false} PickTimes(e: Env, r: Rule, s: seq<Packet>, p: Packet)
    ensures Times(Pick(e, r, s), p) == if Holds(e, r, p) then Times(s, p) else 0
  {
    hide Holds;
    if s != [] {
      var u, last := s[..|s| - 1], [s[|s| - 1]];
      PickTimes(e, r, u, p);
      assert s == u + last;
      TimesPlus(u, last, p);
      TimesPlus(Pick(e, r, u), last, p);
      assert Pick(e, r, s) == Pick(e, r, u) + if Holds(e, r, last[0]) then last else [];
      if last[0] != p { TimesOther(last[0], p); }
    } else {
      NoTimes(p);
    }
  }

  lemma TimesOther(x: Packet, p: Packet)
    requires x != p
    ensures Times([x], p) == 0
  {
  }

  // ---------------------------------------------------------------- through the crypto queues

  ghost predicate OwnersKnown(c: Core, owners: seq<Option<SaId>>) {
    forall i :: 0 <= i < |owners| ==> owners[i].Some? ==> owners[i].value in c.sas
  }

  /** `ipsec_inbound` and `ipsec_outbound`: all packets are enqueued, then a burst is collected. */
  function Handed(c: Core, pkts: seq<Packet>, owners: seq<Option<SaId>>, choices: nat -> Choice,
      answers: nat -> Answer): (r: (Core, seq<Packet>))
    requires Safe(c) && |pkts| == |owners| && OwnersKnown(c, owners)
    ensures Safe(r.0) && |r.1| <= MAX_PKT_BURST
  {
    var d := EnqueueAll(c, pkts, owners, choices, |pkts|);
    Dequeue(d, answers, MAX_PKT_BURST, |d.qps|)
  }

  /** What goes in was held already or comes out, is held or freed. */
  lemma HandedConserves(c: Core, pkts: seq<Packet>, owners: seq<Option<SaId>>, choices: nat -> Choice,
      answers: nat -> Answer, p: Packet)
    requires Safe(c) && |pkts| == |owners| && OwnersKnown(c, owners) && Conserved(c)
    ensures var (d, out) := Handed(c, pkts, owners, choices, answers);
      && Conserved(d)
      && Held(c.qps, p) + Times(c.freed, p) + Times(pkts, p) == Held(d.qps, p) + Times(d.freed, p) + Times(out, p)
  {
    hide Safe, EnqueueAll, Dequeue, Held, Times;
    EnqueueAllConserves(c, pkts, owners, choices, |pkts|);
    assert pkts[..|pkts|] == pkts;
    var m := EnqueueAll(c, pkts, owners, choices, |pkts|);
    EnqueueAllReturns(c, pkts, owners, choices, |pkts|);
    DequeueConserves(m, answers, MAX_PKT_BURST, |m.qps|);
    DequeueOffers(m, answers, MAX_PKT_BURST, |m.qps|);
    var (d, out) := Dequeue(m, answers, MAX_PKT_BURST, |m.qps|);
    TimesPlus(c.offered, pkts, p);
    TimesPlus(c.returned, out, p);
    assert Times(c.offered, p) == Held(c.qps, p) + Times(c.freed, p) + Times(c.returned, p);
    assert Times(d.offered, p) == Held(d.qps, p) + Times(d.freed, p) + Times(d.returned, p);
  }

  lemma {:induction false} EnqueueAllReturns(c: Core, pkts: seq<Packet>, owners: seq<Option<SaId>>,
      choices: nat -> Choice, n: nat)
    requires Safe(c) && n <= |pkts| == |owners| && OwnersKnown(c, owners)
    ensures EnqueueAll(c, pkts, owners, choices, n).returned == c.returned
  {
    hide Safe;
    if n > 0 { EnqueueAllReturns(c, pkts, owners, choices, n - 1); }
  }

  lemma {:induction false} DequeueOffers(c: Core, answers: nat -> Answer, max: nat, n: nat)
    requires Safe(c) && n <= |c.qps|
    ensures Dequeue(c, answers, max, n).0.offered == c.offered
  {
    hide Safe, Dequeue;
    if n > 0 {
      DequeueOffers(c, answers, max, n - 1);
      DequeueStep(c, answers, max, n);
    } else {
      DequeueNone(c, answers, max);
    }
  }

  // ---------------------------------------------------------------- inbound

  /** `inbound_sp_sa` on `plain` packets followed by ones that came `via` IPsec. */
  function Admitted(e: Env, acl: Option<Packet -> nat>, plain: seq<Packet>, via: seq<Packet>): (t: seq<Packet>)
    ensures |t| <= |plain| + |via|
  {
    if acl.None? then plain + via else Pick(e, Passes(acl.value), plain) + Pick(e, PassesSa(acl.value), via)
  }

  function Rejected(e: Env, acl: Option<Packet -> nat>, plain: seq<Packet>, via: seq<Packet>): seq<Packet> {
    if acl.None? then [] else Pick(e, Not(Passes(acl.value)), plain) + Pick(e, Not(PassesSa(acl.value)), via)
  }

  /** Where the packets of an inbound burst go, when IPsec processing brings `out` back. */
  datatype Placed = Placed(ip4: seq<Packet>, ip6: seq<Packet>, ipsec: seq<Packet>, freed: seq<Packet>)

  function Inbound(e: Env, burst: seq<Packet>, out: seq<Packet>): (r: Placed)
    ensures |r.ip4| <= |burst| + |out| && |r.ip6| <= |burst| + |out| && |r.ipsec| <= |burst|
  {
    var b4, b6 := Pick(e, IsKind(Ip4), burst), Pick(e, IsKind(Ip6), burst);
    var v4, v6 := Pick(e, IsVersion(4), out), Pick(e, IsVersion(6), out);
    Placed(Admitted(e, e.acl4, b4, v4), Admitted(e, e.acl6, b6, v6), Pick(e, IsKind(Esp), burst),
           Pick(e, IsKind(Unknown), burst) + Pick(e, Both(Not(IsVersion(4)), Not(IsVersion(6))), out)
           + Rejected(e, e.acl4, b4, v4) + Rejected(e, e.acl6, b6, v6))
  }

  lemma AdmittedTimes(e: Env, acl: Option<Packet -> nat>, plain: seq<Packet>, via: seq<Packet>, p: Packet)
    ensures Times(Admitted(e, acl, plain, via), p) + Times(Rejected(e, acl, plain, via), p) ==
        Times(plain, p) + Times(via, p)
    ensures acl.Some? ==>
      var n := (if Holds(e, Passes(acl.value), p) then Times(plain, p) else 0) +
          (if Holds(e, PassesSa(acl.value), p) then Times(via, p) else 0);
      Times(Admitted(e, acl, plain, via), p) == n
  {
    hide Pick, Times;
    TimesPlus(plain, via, p);
    NoTimes(p);
    if acl.Some? {
      var r, s := Passes(acl.value), PassesSa(acl.value);
      PickTimes(e, r, plain, p);
      PickTimes(e, s, via, p);
      PickTimes(e, Not(r), plain, p);
      PickTimes(e, Not(s), via, p);
      TimesPlus(Pick(e, r, plain), Pick(e, s, via), p);
      TimesPlus(Pick(e, Not(r), plain), Pick(e, Not(s), via), p);
    }
  }

  /** Each packet of the burst, and each one brought back, is in exactly one place. */
  lemma InboundPlaces(e: Env, burst: seq<Packet>, out: seq<Packet>, p: Packet)
    ensures var r := Inbound(e, burst, out);
      Times(r.ip4, p) + Times(r.ip6, p) + Times(r.ipsec, p) + Times(r.freed, p) == Times(burst, p) + Times(out, p)
  {
    hide Pick, Times, Admitted, Rejected;
    var b4, b6 := Pick(e, IsKind(Ip4), burst), Pick(e, IsKind(Ip6), burst);
    var v4, v6 := Pick(e, IsVersion(4), out), Pick(e, IsVersion(6), out);
    var unknown, other := Pick(e, IsKind(Unknown), burst), Pick(e, Both(Not(IsVersion(4)), Not(IsVersion(6))), out);
    PickTimes(e, IsKind(Ip4), burst, p);
    PickTimes(e, IsKind(Ip6), burst, p);
    PickTimes(e, IsKind(Esp), burst, p);
    PickTimes(e, IsKind(Unknown), burst, p);
    PickTimes(e, IsVersion(4), out, p);
    PickTimes(e, IsVersion(6), out, p);
    PickTimes(e, Both(Not(IsVersion(4)), Not(IsVersion(6))), out, p);
    AdmittedTimes(e, e.acl4, b4, v4, p);
    AdmittedTimes(e, e.acl6, b6, v6, p);
    FourTimes(unknown, other, Rejected(e, e.acl4, b4, v4), Rejected(e, e.acl6, b6, v6), p);
  }

  lemma FourTimes(a: seq<Packet>, b: seq<Packet>, c: seq<Packet>, d: seq<Packet>, p: Packet)
    ensures Times(a + b + c + d, p) == Times(a, p) + Times(b, p) + Times(c, p) + Times(d, p)
  {
    hide Times;
    TimesPlus(a, b, p);
    TimesPlus(a + b, c, p);
    TimesPlus(a + b + c, d, p);
  }

  function Share(b: bool, n: nat): nat { if b then n else 0 }

  /** Under a policy table, a list keeps of the packets in the clear exactly those that bypass, and
      of those that came through IPsec exactly those that bypass or, not to be discarded, are
      protected by the SPI of their SA; without a table it keeps all.  Each list has its own. */
  lemma InboundKeeps(e: Env, burst: seq<Packet>, out: seq<Packet>, p: Packet)
    ensures var r := Inbound(e, burst, out);
      && Times(r.ip4, p) == Share(e.kind(p) == Ip4 && (e.acl4.Some? ==> Bypass(e.acl4.value(p))), Times(burst, p))
           + Share(e.version(p) == 4 && (e.acl4.Some? ==> Holds(e, PassesSa(e.acl4.value), p)), Times(out, p))
      && Times(r.ip6, p) == Share(e.kind(p) == Ip6 && (e.acl6.Some? ==> Bypass(e.acl6.value(p))), Times(burst, p))
           + Share(e.version(p) == 6 && (e.acl6.Some? ==> Holds(e, PassesSa(e.acl6.value), p)), Times(out, p))
  {
    hide Pick, Times, Rejected;
    var b4, b6 := Pick(e, IsKind(Ip4), burst), Pick(e, IsKind(Ip6), burst);
    var v4, v6 := Pick(e, IsVersion(4), out), Pick(e, IsVersion(6), out);
    PickTimes(e, IsKind(Ip4), burst, p);
    PickTimes(e, IsKind(Ip6), burst, p);
    PickTimes(e, IsVersion(4), out, p);
    PickTimes(e, IsVersion(6), out, p);
    AdmittedTimes(e, e.acl4, b4, v4, p);
    AdmittedTimes(e, e.acl6, b6, v6, p);
    TimesPlus(b4, v4, p);
    TimesPlus(b6, v6, p);
  }

  // ---------------------------------------------------------------- outbound

  /** `outbound_sp`: what stays in the list, what is handed to IPsec, what is freed. */
  function Staying(e: Env, acl: Option<Packet -> nat>, list: seq<Packet>): (t: seq<Packet>)
    ensures |t| <= |list|
  {
    if acl.None? then list else Pick(e, Stays(acl.value), list)
  }

  function Protected(e: Env, acl: Option<Packet -> nat>, list: seq<Packet>): (t: seq<Packet>)
    ensures |t| <= |list|
  {
    if acl.None? then [] else Pick(e, Protects(acl.value), list)
  }

  function Refused(e: Env, acl: Option<Packet -> nat>, list: seq<Packet>): seq<Packet> {
    if acl.None? then [] else Pick(e, Both(Not(Stays(acl.value)), Not(Protects(acl.value))), list)
  }

  function Outbound(e: Env, burst: seq<Packet>, out: seq<Packet>): (r: Placed)
    ensures |r.ip4| <= |burst| + |out| && |r.ip6| <= |burst| + |out|
  {
    var b4, b6 := Pick(e, IsKind(Ip4), burst), Pick(e, IsKind(Ip6), burst);
    Placed(Staying(e, e.acl4, b4) + Pick(e, IsVersion(4), out),
        Staying(e, e.acl6, b6) + Pick(e, Not(IsVersion(4)), out),
           Protected(e, e.acl4, b4) + Protected(e, e.acl6, b6),
           Pick(e, IsKind(Unknown), burst) + Pick(e, IsKind(Esp), burst) + Refused(e, e.acl4, b4) +
               Refused(e, e.acl6, b6))
  }

  lemma SpTimes(e: Env, acl: Option<Packet -> nat>, list: seq<Packet>, p: Packet)
    ensures Times(Staying(e, acl, list), p) + Times(Protected(e, acl, list), p) + Times(Refused(e, acl, list), p) ==
        Times(list, p)
  {
    hide Pick, Times;
    NoTimes(p);
    if acl.Some? {
      var r, s := Stays(acl.value), Protects(acl.value);
      PickTimes(e, r, list, p);
      PickTimes(e, s, list, p);
      PickTimes(e, Both(Not(r), Not(s)), list, p);
    }
  }

  /** Each packet of the burst, and each one brought back, is in exactly one place. */
  lemma OutboundPlaces(e: Env, burst: seq<Packet>, out: seq<Packet>, p: Packet)
    ensures var r := Outbound(e, burst, out);
      Times(r.ip4, p) + Times(r.ip6, p) + Times(r.ipsec, p) + Times(r.freed, p) == Times(burst, p) + Times(out, p)
  {
    hide Pick, Times, Staying, Protected, Refused;
    var b4, b6 := Pick(e, IsKind(Ip4), burst), Pick(e, IsKind(Ip6), burst);
    var v4, v6 := Pick(e, IsVersion(4), out), Pick(e, Not(IsVersion(4)), out);
    PickTimes(e, IsKind(Ip4), burst, p);
    PickTimes(e, IsKind(Ip6), burst, p);
    PickTimes(e, IsKind(Esp), burst, p);
    PickTimes(e, IsKind(Unknown), burst, p);
    PickTimes(e, IsVersion(4), out, p);
    PickTimes(e, Not(IsVersion(4)), out, p);
    SpTimes(e, e.acl4, b4, p);
    SpTimes(e, e.acl6, b6, p);
    TimesPlus(Staying(e, e.acl4, b4), v4, p);
    TimesPlus(Staying(e, e.acl6, b6), v6, p);
    TimesPlus(Protected(e, e.acl4, b4), Protected(e, e.acl6, b6), p);
    FourTimes(Pick(e, IsKind(Unknown), burst), Pick(e, IsKind(Esp), burst),
              Refused(e, e.acl4, b4), Refused(e, e.acl6, b6), p);
  }

  /** Under a policy table, a list keeps exactly the packets that bypass, and gets those that came
      back from IPsec; exactly the packets to be protected are handed to IPsec.  Without a table it
      keeps all and protects none.  Each list has its own. */
  lemma OutboundLeaves(e: Env, burst: seq<Packet>, out: seq<Packet>, p: Packet)
    ensures var r := Outbound(e, burst, out);
      && Times(r.ip4, p) == Share(e.kind(p) == Ip4 && (e.acl4.Some? ==> Holds(e, Stays(e.acl4.value), p)),
          Times(burst, p))
           + Share(e.version(p) == 4, Times(out, p))
      && Times(r.ip6, p) == Share(e.kind(p) == Ip6 && (e.acl6.Some? ==> Holds(e, Stays(e.acl6.value), p)),
          Times(burst, p))
           + Share(e.version(p) != 4, Times(out, p))
      && Times(r.ipsec, p) == Share(e.kind(p) == Ip4 && e.acl4.Some? && Holds(e, Protects(e.acl4.value), p),
          Times(burst, p))
           + Share(e.kind(p) == Ip6 && e.acl6.Some? && Holds(e, Protects(e.acl6.value), p), Times(burst, p))
  {
    hide Pick, Times;
    var b4, b6 := Pick(e, IsKind(Ip4), burst), Pick(e, IsKind(Ip6), burst);
    var v4, v6 := Pick(e, IsVersion(4), out), Pick(e, Not(IsVersion(4)), out);
    PickTimes(e, IsKind(Ip4), burst, p);
    PickTimes(e, IsKind(Ip6), burst, p);
    PickTimes(e, IsVersion(4), out, p);
    PickTimes(e, Not(IsVersion(4)), out, p);
    NoTimes(p);
    if e.acl4.Some? {
      PickTimes(e, Stays(e.acl4.value), b4, p);
      PickTimes(e, Protects(e.acl4.value), b4, p);
    }
    if e.acl6.Some? {
      PickTimes(e, Stays(e.acl6.value), b6, p);
      PickTimes(e, Protects(e.acl6.value), b6, p);
    }
    TimesPlus(Staying(e, e.acl4, b4), v4, p);
    TimesPlus(Staying(e, e.acl6, b6), v6, p);
    TimesPlus(Protected(e, e.acl4, b4), Protected(e, e.acl6, b6), p);
  }

  // ---------------------------------------------------------------- whole bursts

  /** Every SA a packet or a policy may name is one there is. */
  ghost predicate EnvOk(e: Env, sas: set<SaId>) {
    && (forall p :: e.owner(p).Some? ==> e.owner(p).value in sas)
    && PolicyOk(e, e.acl4) && PolicyOk(e, e.acl6) && forall i :: 0 <= i < |e.sadb| ==> i in sas
  }

  ghost predicate PolicyOk(e: Env, acl: Option<Packet -> nat>) {
    acl.Some? ==> forall p :: SaIdx(acl.value(p)) < |e.sadb|
  }

  lemma PoliciesOk(e: Env, sas: set<SaId>)
    requires EnvOk(e, sas)
    ensures PolicyOk(e, e.acl4) && PolicyOk(e, e.acl6)
  {
  }

  /** What `inbound_sa_lookup` finds for each packet. */
  function Owners(e: Env, s: seq<Packet>): (r: seq<Option<SaId>>)
    ensures |r| == |s|
  {
    seq(|s|, k requires 0 <= k < |s| => e.owner(s[k]))
  }

  /** The SA indices a policy gives to packets. */
  function Indexes(acl: Packet -> nat, s: seq<Packet>): (r: seq<nat>)
    ensures |r| == |s|
  {
    seq(|s|, k requires 0 <= k < |s| => SaIdx(acl(s[k])))
  }

  function ProtectedIndexes(e: Env, acl: Option<Packet -> nat>, list: seq<Packet>): (r: seq<nat>)
    ensures |r| == |Protected(e, acl, list)|
  {
    if acl.None? then [] else Indexes(acl.value, Protected(e, acl, list))
  }

  /** `outbound_sa_lookup`: the slot of each index. */
  function Slots(idx: seq<nat>): (r: seq<Option<SaId>>)
    ensures |r| == |idx|
  {
    seq(|idx|, k requires 0 <= k < |idx| => Some(idx[k]))
  }

  function OutOwners(e: Env, burst: seq<Packet>): (r: seq<Option<SaId>>)
    ensures |r| == |Outbound(e, burst, []).ipsec|
  {
    Slots(ProtectedIndexes(e, e.acl4, Pick(e, IsKind(Ip4), burst)) +
        ProtectedIndexes(e, e.acl6, Pick(e, IsKind(Ip6), burst)))
  }

  lemma OwnersOk(e: Env, c: Core, s: seq<Packet>)
    requires EnvOk(e, c.sas.Keys)
    ensures OwnersKnown(c, Owners(e, s))
  {
  }

  lemma OutOwnersOk(e: Env, c: Core, burst: seq<Packet>)
    requires EnvOk(e, c.sas.Keys)
    ensures OwnersKnown(c, OutOwners(e, burst))
  {
  }

  /** An inbound burst: the crypto queues and the lists afterwards. */
  function WholeInbound(e: Env, c: Core, burst: seq<Packet>, choices: nat -> Choice,
      answers: nat -> Answer): (r: (Core, Placed))
    requires Safe(c) && EnvOk(e, c.sas.Keys)
  {
    var esp := Pick(e, IsKind(Esp), burst);
    OwnersOk(e, c, esp);
    var (d, out) := Handed(c, esp, Owners(e, esp), choices, answers);
    (d, Inbound(e, burst, out))
  }

  /** An outbound burst. */
  function WholeOutbound(e: Env, c: Core, burst: seq<Packet>, choices: nat -> Choice,
      answers: nat -> Answer): (r: (Core, Placed))
    requires Safe(c) && EnvOk(e, c.sas.Keys)
  {
    OutOwnersOk(e, c, burst);
    var (d, out) := Handed(c, Outbound(e, burst, []).ipsec, OutOwners(e, burst), choices, answers);
    (d, Outbound(e, burst, out))
  }

  /** Every packet of an inbound burst, and every one in the crypto queues before, is afterwards in
      one list, in a queue, or freed, as often as before; no list exceeds its 64 slots. */
  lemma InboundConserves(e: Env, c: Core, burst: seq<Packet>, choices: nat -> Choice, answers: nat -> Answer, p: Packet)
    requires Safe(c) && Conserved(c) && EnvOk(e, c.sas.Keys) && |burst| <= MAX_PKT_BURST
    ensures var (d, r) := WholeInbound(e, c, burst, choices, answers);
      && Times(burst, p) + Held(c.qps, p) + Times(c.freed, p)
         == Times(r.ip4, p) + Times(r.ip6, p) + Times(r.freed, p) + Held(d.qps, p) + Times(d.freed, p)
      && |r.ip4| <= 64 && |r.ip6| <= 64 && |r.ipsec| <= 64
  {
    hide Handed, Pick, Times, Held, Safe, Conserved, EnvOk;
    var esp := Pick(e, IsKind(Esp), burst);
    OwnersOk(e, c, esp);
    HandedConserves(c, esp, Owners(e, esp), choices, answers, p);
    InboundPlaces(e, burst, Handed(c, esp, Owners(e, esp), choices, answers).1, p);
  }

  /** The same for an outbound burst. */
  lemma OutboundConserves(e: Env, c: Core, burst: seq<Packet>, choices: nat -> Choice, answers: nat -> Answer,
      p: Packet)
    requires Safe(c) && Conserved(c) && EnvOk(e, c.sas.Keys) && |burst| <= MAX_PKT_BURST
    ensures var (d, r) := WholeOutbound(e, c, burst, choices, answers);
      && Times(burst, p) + Held(c.qps, p) + Times(c.freed, p)
         == Times(r.ip4, p) + Times(r.ip6, p) + Times(r.freed, p) + Held(d.qps, p) + Times(d.freed, p)
      && |r.ip4| <= 64 && |r.ip6| <= 64 && |r.ipsec| <= 64
  {
    hide Handed, Pick, Times, Held, Safe, Conserved, EnvOk, OutOwners, Staying, Protected, Refused;
    var ipsec := Outbound(e, burst, []).ipsec;
    OutOwnersOk(e, c, burst);
    HandedConserves(c, ipsec, OutOwners(e, burst), choices, answers, p);
    OutboundPlaces(e, burst, Handed(c, ipsec, OutOwners(e, burst), choices, answers).1, p);
    ProtectedFits(e, burst);
  }

  lemma ProtectedFits(e: Env, burst: seq<Packet>)
    ensures |Outbound(e, burst, []).ipsec| <= |burst|
  {
    hide Pick;
    KindsFit(e, burst);
  }

  lemma {:induction false} KindsFit(e: Env, s: seq<Packet>)
    ensures |Pick(e, IsKind(Ip4), s)| + |Pick(e, IsKind(Ip6), s)| + |Pick(e, IsKind(Esp), s)| <= |s|
  {
    if s != [] { KindsFit(e, s[..|s| - 1]); }
  }
}
