/** Which packets of a burst reach which crypto device (ipsec_eval/ipsec-secgw.c:424-527,
    ipsec_eval/ipsec.c:202-226). */
module GatewayQueues {
  import opened Basics
  import opened CryptoQueue
  import opened CryptoRuns
  import opened CryptoMapping
  import opened Gateway
  import opened GatewayWords

  /** The ESP packets of a burst, in order. */
  function EspOf(e: Env, burst: seq<Packet>): seq<Packet> {
    if burst == [] then []
    else EspOf(e, burst[..|burst| - 1]) + if e.kind(burst[|burst| - 1]) == Esp then [burst[|burst| - 1]] else []
  }

  lemma {:induction false} EspOfIs(e: Env, burst: seq<Packet>)
    ensures EspOf(e, burst) == Pick(e, IsKind(Esp), burst)
  {
    if burst != [] { EspOfIs(e, burst[..|burst| - 1]); }
  }

  /** The SA found for each packet as it arrived. */
  function Finders(e: Env, s: seq<Packet>): (r: seq<Option<SaId>>)
    ensures |r| == |s|
  {
    if s == [] then [] else Finders(e, s[..|s| - 1]) + [e.owner(s[|s| - 1])]
  }

  /** The slot of the policy word of each packet, from the table of its kind. */
  function Slotted(e: Env, s: seq<Packet>): (r: seq<Option<SaId>>)
    ensures |r| == |s|
  {
    if s == [] then [] else Slotted(e, s[..|s| - 1]) + [Some(WordOf(e, s[|s| - 1]) % 0x4000_0000)]
  }

  function WordOf(e: Env, p: Packet): nat {
    var acl := if e.kind(p) == Ip6 then e.acl6 else e.acl4;
    if acl.None? then 0 else acl.value(p)
  }

  /** Handing packets over, each queue gets those that go to its device, in order. */
  lemma HandedJoins(c: Core, keys: map<SaId, Key>, h: History, pkts: seq<Packet>, owners: seq<Option<SaId>>,
      choices: nat -> Choice, answers: nat -> Answer)
    requires Safe(c) && Follows(c, keys, h) && |pkts| == |owners| && OwnersKnown(c, owners)
    ensures var d := Handed(c, pkts, owners, choices, answers).0;
      && Follows(d, keys, h) && d.cdevs == c.cdevs && |c.cdevs| == |c.qps| == |d.qps|
      && forall q :: 0 <= q < |c.qps| ==>
          d.qps[q].arrived == c.qps[q].arrived + OfferedTo(keys, h, pkts, owners, choices, |pkts|, c.cdevs[q])
  {
    hide Safe, Follows, EnqueueAll, Dequeue, OfferedTo;
    OfferJoins(c, keys, h, pkts, owners, choices, |pkts|);
    var m := EnqueueAll(c, pkts, owners, choices, |pkts|);
    CollectArrives(m, answers, MAX_PKT_BURST, |m.qps|);
    FollowsOn(m, Dequeue(m, answers, MAX_PKT_BURST, |m.qps|).0, keys, h);
  }

  lemma {:induction false} FindersAre(e: Env, s: seq<Packet>)
    ensures Owners(e, s) == Finders(e, s)
  {
    if s != [] {
      FindersAre(e, s[..|s| - 1]);
      assert Owners(e, s) == Owners(e, s[..|s| - 1]) + [e.owner(s[|s| - 1])];
    }
  }

  /** Inbound, the ESP packets are handed over with the SAs found for them. */
  lemma InboundJoins(e: Env, c: Core, burst: seq<Packet>, choices: nat -> Choice, answers: nat -> Answer,
      keys: map<SaId, Key>, h: History)
    requires Safe(c) && EnvOk(e, c.sas.Keys) && Follows(c, keys, h)
    ensures var d := WholeInbound(e, c, burst, choices, answers).0;
      var esp := EspOf(e, burst);
      && Follows(d, keys, h) && d.cdevs == c.cdevs && |c.cdevs| == |c.qps| == |d.qps|
      && forall q :: 0 <= q < |c.qps| ==>
          d.qps[q].arrived ==
          c.qps[q].arrived + OfferedTo(keys, h, esp, Finders(e, esp), choices, |esp|, c.cdevs[q])
  {
    hide Safe, Follows, Handed, Pick, EnvOk, OfferedTo;
    EspOfIs(e, burst);
    var esp := EspOf(e, burst);
    FindersAre(e, esp);
    OwnersOk(e, c, esp);
    HandedJoins(c, keys, h, esp, Owners(e, esp), choices, answers);
  }

  /** Outbound, the packets to be protected are handed over with the slots of their policy words. */
  lemma OutboundJoins(e: Env, c: Core, burst: seq<Packet>, choices: nat -> Choice, answers: nat -> Answer,
      keys: map<SaId, Key>, h: History)
    requires Safe(c) && EnvOk(e, c.sas.Keys) && Follows(c, keys, h)
    ensures var (d, r) := WholeOutbound(e, c, burst, choices, answers);
      && Follows(d, keys, h) && d.cdevs == c.cdevs && |c.cdevs| == |c.qps| == |d.qps|
      && forall q :: 0 <= q < |c.qps| ==>
          d.qps[q].arrived ==
          c.qps[q].arrived + OfferedTo(keys, h, r.ipsec, Slotted(e, r.ipsec), choices, |r.ipsec|, c.cdevs[q])
  {
    hide Safe, Follows, Handed, Pick, EnvOk, OfferedTo, OutOwners, Protected, Staying, Refused;
    var ipsec := Outbound(e, burst, []).ipsec;
    OutOwnersOk(e, c, burst);
    SlottedAre(e, burst);
    HandedJoins(c, keys, h, ipsec, OutOwners(e, burst), choices, answers);
  }

  lemma SlottedAre(e: Env, burst: seq<Packet>)
    ensures OutOwners(e, burst) == Slotted(e, Outbound(e, burst, []).ipsec)
  {
    hide Pick, Holds;
    var b4, b6 := Pick(e, IsKind(Ip4), burst), Pick(e, IsKind(Ip6), burst);
    var s4, s6 := Protected(e, e.acl4, b4), Protected(e, e.acl6, b6);
    var ipsec := s4 + s6;
    forall k | 0 <= k < |ipsec|
      ensures OutOwners(e, burst)[k] == Slotted(e, ipsec)[k]
    {
      SlottedAt(e, ipsec, k);
      if k < |s4| {
        ProtectedOfKind(e, e.acl4, burst, Ip4, k);
      } else {
        ProtectedOfKind(e, e.acl6, burst, Ip6, k - |s4|);
      }
    }
  }

  lemma {:induction false} SlottedAt(e: Env, s: seq<Packet>, k: nat)
    requires k < |s|
    ensures Slotted(e, s)[k] == Some(WordOf(e, s[k]) % 0x4000_0000)
  {
    if k < |s| - 1 { SlottedAt(e, s[..|s| - 1], k); }
  }
}
