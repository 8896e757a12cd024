/** The send half of `send_packets_multi` over all ports of an lcore, and the packet-by-packet
    path it is an optimisation of (nat_eval/l3fwd_sse.h, nat_eval/l3fwd.h). */
module SendPath {
  import opened Basics
  import opened PortGrouping
  import opened TxBuffer

  const MAX_PORTS: nat := 256  // a port number is passed on as one byte

  // ---------------------------------------------------------------- specification

  /** An lcore as its user sees it: the stream of every port (offered, then buffered), and the
      packets freed for their bad port. */
  datatype Lcore = Lcore(streams: seq<seq<Mbuf>>, freed: seq<Mbuf>)

  function Deliver(s: Lcore, pn: nat, run: seq<Mbuf>): Lcore {
    if pn < |s.streams| then s.(streams := s.streams[pn := s.streams[pn] + run])
    else s.(freed := s.freed + run)
  }

  /** The per-packet loop: append each packet to its port's stream, or free it. */
  function DeliverEach(s: Lcore, pkts: seq<Mbuf>, d: seq<nat>): (r: Lcore)
    requires |pkts| == |d|
    ensures |r.streams| == |s.streams|
  {
    if pkts == [] then s
    else
      var k := |pkts| - 1;
      Deliver(DeliverEach(s, pkts[..k], d[..k]), d[k], [pkts[k]])
  }

  /** A run can be delivered as a block. */
  lemma {:induction false} DeliverRun(s: Lcore, pkts: seq<Mbuf>, d: seq<nat>, j: nat, e: nat)
    requires |pkts| == |d| && j < e <= |d|
    requires forall i :: j <= i < e ==> d[i] == d[j]
    ensures DeliverEach(s, pkts[..e], d[..e]) == Deliver(DeliverEach(s, pkts[..j], d[..j]), d[j], pkts[j..e])
  {
    var t := DeliverEach(s, pkts[..j], d[..j]);
    assert pkts[..e][..e - 1] == pkts[..e - 1] && d[..e][..e - 1] == d[..e - 1];
    if j < e - 1 {
      DeliverRun(s, pkts, d, j, e - 1);
      assert pkts[j..e] == pkts[j..e - 1] + [pkts[e - 1]];
      if d[j] < |s.streams| {
        assert t.streams[d[j]] + pkts[j..e - 1] + [pkts[e - 1]] == t.streams[d[j]] + pkts[j..e];
      } else {
        assert t.freed + pkts[j..e - 1] + [pkts[e - 1]] == t.freed + pkts[j..e];
      }
    } else {
      assert pkts[j..e] == [pkts[j]];
    }
  }

  /** The packets of the burst bound for port `p`, in arrival order. */
  function To(pkts: seq<Mbuf>, d: seq<nat>, p: nat): seq<Mbuf>
    requires |pkts| == |d|
  {
    if pkts == [] then []
    else
      var k := |pkts| - 1;
      To(pkts[..k], d[..k], p) + if d[k] == p then [pkts[k]] else []
  }

  /** What the per-packet loop does to each port: its stream grows by exactly that port's
      packets, in arrival order; packets for BAD_PORT are freed. */
  lemma {:induction false} DeliverEachIsTo(s: Lcore, pkts: seq<Mbuf>, d: seq<nat>)
    requires |pkts| == |d| && |s.streams| <= MAX_PORTS
    requires forall i :: 0 <= i < |d| ==> d[i] < |s.streams| || d[i] == BAD_PORT
    ensures forall p :: 0 <= p < |s.streams| ==> DeliverEach(s, pkts, d).streams[p] == s.streams[p] + To(pkts, d, p)
    ensures DeliverEach(s, pkts, d).freed == s.freed + To(pkts, d, BAD_PORT)
  {
    if pkts == [] {
    } else {
      DeliverEachIsTo(s, pkts[..|pkts| - 1], d[..|d| - 1]);
    }
  }

  function ToPorts(pkts: seq<Mbuf>, d: seq<nat>, n: nat): multiset<Mbuf>
    requires |pkts| == |d|
  {
    if n == 0 then multiset{} else ToPorts(pkts, d, n - 1) + multiset(To(pkts, d, n - 1))
  }

  lemma ToStep(pkts: seq<Mbuf>, d: seq<nat>, p: nat)
    requires |pkts| == |d| > 0
    ensures
      var k := |d| - 1;
      multiset(To(pkts, d, p)) == multiset(To(pkts[..k], d[..k], p)) + if d[k] == p then multiset{pkts[k]}
          else multiset{}
  {
  }

  lemma {:induction false} ToPortsStep(pkts: seq<Mbuf>, d: seq<nat>, n: nat)
    requires |pkts| == |d| > 0
    ensures
      var k := |d| - 1;
      ToPorts(pkts, d, n) == ToPorts(pkts[..k], d[..k], n) + if d[k] < n then multiset{pkts[k]} else multiset{}
  {
    hide To;
    if n > 0 {
      ToPortsStep(pkts, d, n - 1);
      ToStep(pkts, d, n - 1);
    }
  }

  /** Conservation: every packet of the burst is either freed for its bad port or in exactly
      one port's share. */
  lemma {:induction false} BurstIsPartitioned(pkts: seq<Mbuf>, d: seq<nat>, ports: nat)
    requires |pkts| == |d| && ports <= MAX_PORTS
    requires forall i :: 0 <= i < |d| ==> d[i] < ports || d[i] == BAD_PORT
    ensures multiset(pkts) == multiset(To(pkts, d, BAD_PORT)) + ToPorts(pkts, d, ports)
  {
    if pkts == [] {
      NoPackets(ports);
    } else {
      var k := |pkts| - 1;
      assert pkts == pkts[..k] + [pkts[k]];
      BurstIsPartitioned(pkts[..k], d[..k], ports);
      ToPortsStep(pkts, d, ports);
    }
  }

  lemma {:induction false} NoPackets(n: nat)
    ensures ToPorts([], [], n) == multiset{}
  {
    if n > 0 {
      NoPackets(n - 1);
    }
  }

  /** One step of the send loop, on the specification. */
  lemma RunDelivered(s: Lcore, pkts: seq<Mbuf>, d: seq<nat>, pnum: seq<nat>, j: nat)
    requires |pkts| == |d| && Grouped(d, pnum, |d|) && RunHead(d, j)
    ensures var e := j + pnum[j];
      && j < e <= |d|
      && (e == |d| || RunHead(d, e))
      && DeliverEach(s, pkts[..e], d[..e]) == Deliver(DeliverEach(s, pkts[..j], d[..j]), d[j], pkts[j..e])
  {
    var e := j + pnum[j];
    assert MaximalRun(d, j, e);
    RunsTile(d, j, e);
    DeliverRun(s, pkts, d, j, e);
  }

  lemma SameSlice<T>(a: array<T>, s: seq<T>, j: nat, e: nat)
    requires j <= e <= |s| <= a.Length && a[..|s|] == s
    ensures a[j..e] == s[j..e]
  {
    forall i | j <= i < e
      ensures a[i] == s[i]
    {
      assert a[i] == a[..|s|][i];
    }
  }

  lemma SendStarts(s: Lcore, d: seq<nat>)
    ensures DeliverEach(s, [], []) == s
    ensures |d| > 0 ==> RunHead(d, 0)
  {
  }

  // ---------------------------------------------------------------- end to end

  /** The packets given to port `p` that pass the checks on their headers, in arrival order. */
  function PassingTo(pkts: seq<Mbuf>, given: seq<nat>, p: nat): seq<Mbuf>
    requires |pkts| == |given|
  {
    if pkts == [] then []
    else
      var k := |pkts| - 1;
      PassingTo(pkts[..k], given[..k], p) + if given[k] == p && !Fails(pkts[k]) then [pkts[k]] else []
  }

  /** The packets that fail a check. */
  function Failing(pkts: seq<Mbuf>): seq<Mbuf> {
    if pkts == [] then []
    else
      var k := |pkts| - 1;
      Failing(pkts[..k]) + if Fails(pkts[k]) then [pkts[k]] else []
  }

  /** By their final ports, exactly the packets that fail are for the bad port, and the others for
      the port they were given. */
  lemma {:induction false} ToIsPassing(pkts: seq<Mbuf>, given: seq<nat>, p: nat)
    requires |pkts| == |given| && p != BAD_PORT
    requires forall i :: 0 <= i < |given| ==> given[i] != BAD_PORT
    ensures var d := FinalPorts(pkts, given);
        To(pkts, d, p) == PassingTo(pkts, given, p) && To(pkts, d, BAD_PORT) == Failing(pkts)
  {
    hide Fails;
    if pkts != [] {
      var k := |pkts| - 1;
      ToIsPassing(pkts[..k], given[..k], p);
      assert FinalPorts(pkts, given)[..k] == FinalPorts(pkts[..k], given[..k]);
    }
  }

  /** What a burst does to the ports, from the ports given and the headers alone: each stream grows
      by exactly the packets given to it that pass the checks, in arrival order, and exactly those
      that fail one are freed. */
  ghost predicate SentOut(s: Lcore, t: Lcore, pkts: seq<Mbuf>, given: seq<nat>)
    requires |pkts| == |given|
  {
    && |t.streams| == |s.streams|
    && (forall p :: 0 <= p < |s.streams| ==> t.streams[p] == s.streams[p] + PassingTo(pkts, given, p))
    && t.freed == s.freed + Failing(pkts)
  }

  lemma DeliveredIsSentOut(s: Lcore, pkts: seq<Mbuf>, given: seq<nat>)
    requires |pkts| == |given| && |s.streams| <= MAX_PORTS
    requires forall i :: 0 <= i < |given| ==> given[i] < |s.streams|
    ensures SentOut(s, DeliverEach(s, pkts, FinalPorts(pkts, given)), pkts, given)
  {
    hide Fails, DeliverEach, To, PassingTo, Failing;
    DeliverEachIsTo(s, pkts, FinalPorts(pkts, given));
    forall p | 0 <= p < |s.streams|
      ensures To(pkts, FinalPorts(pkts, given), p) == PassingTo(pkts, given, p)
    {
      ToIsPassing(pkts, given, p);
    }
    ToIsPassing(pkts, given, 0);
  }

  // ---------------------------------------------------------------- the lcore

  class LcoreConf {
    const tx: seq<TxPort>
    ghost var freed: seq<Mbuf>

    ghost function Repr(): set<object>
      reads this
    {
      (set p | 0 <= p < |tx| :: tx[p] as object) + (set p | 0 <= p < |tx| :: tx[p].mTable as object)
    }

    ghost predicate Valid()
      reads this, Repr()
    {
      && |tx| <= MAX_PORTS
      && (forall p, q :: 0 <= p < q < |tx| ==> tx[p] != tx[q] && tx[p].mTable != tx[q].mTable)
      && forall p :: 0 <= p < |tx| ==> tx[p].Valid()
    }

    ghost function Abs(): (s: Lcore)
      reads this, Repr()
      requires Valid()
      ensures |s.streams| == |tx|
      ensures forall p :: 0 <= p < |tx| ==> s.streams[p] == tx[p].Abs().Stream()
    {
      Lcore(seq(|tx|, p requires Valid() && 0 <= p < |tx| reads this, Repr() => tx[p].Abs().Stream()), freed)
    }

    lemma FewPorts()
      requires Valid()
      ensures |tx| <= MAX_PORTS
    {
    }

    /** One run to one port: no other port is touched. */
    method SendTo(p: nat, m: array<Mbuf>, from: nat, num: nat)
      requires Valid() && p < |tx| && m !in Repr()
      requires 0 < num <= MAX_PKT_BURST && from + num <= m.Length
      modifies tx[p], tx[p].mTable
      ensures Valid()
      ensures Abs() == Deliver(old(Abs()), p, m[from..from + num])
    {
      SendX4Appends(tx[p].Abs(), m[from..from + num]);
      tx[p].SendPacketsX4(m, from, num);
    }

    /** The same for a single packet of the simple path. */
    method SendOneTo(p: nat, m: Mbuf)
      requires Valid() && p < |tx|
      modifies tx[p], tx[p].mTable
      ensures Valid()
      ensures Abs() == Deliver(old(Abs()), p, [m])
    {
      SendOneAppends(tx[p].Abs(), m);
      tx[p].SendSinglePacket(m);
    }

    method FreeRun(pkts: array<Mbuf>, j: nat, k: nat)
      requires j + k <= pkts.Length
      modifies this`freed
      ensures freed == old(freed) + pkts[j..j + k]
    {
      var m := j;
      while m != j + k
        invariant j <= m <= j + k
        invariant freed == old(freed) + pkts[j..m]
      {
        freed := freed + [pkts[m]];
        m := m + 1;
      }
    }

    /** Body of the send loop: a run goes to its port, or is freed. */
    method Dispatch(pn: nat, pkts: array<Mbuf>, j: nat, k: nat)
      requires Valid() && pkts !in Repr() && (pn < |tx| || pn == BAD_PORT)
      requires 0 < k <= MAX_PKT_BURST && j + k <= pkts.Length
      modifies this`freed, Repr()
      ensures Valid()
      ensures Abs() == Deliver(old(Abs()), pn, pkts[j..j + k])
    {
      if pn != BAD_PORT {
        SendTo(pn, pkts, j, k);
      } else {
        FreeRun(pkts, j, k);
      }
    }

    method DispatchOne(pn: nat, m: Mbuf)
      requires Valid() && (pn < |tx| || pn == BAD_PORT)
      modifies this`freed, Repr()
      ensures Valid()
      ensures Abs() == Deliver(old(Abs()), pn, [m])
    {
      if pn != BAD_PORT {
        SendOneTo(pn, m);
      } else {
        freed := freed + [m];
      }
    }

    /** The loop over the runs. */
    method SendRuns(pkts: array<Mbuf>, dst: array<nat>, pnum: array<nat>, n: nat)
      requires Valid() && pkts !in Repr() && dst !in Repr() && pnum !in Repr()
      requires n <= MAX_PKT_BURST && n <= pkts.Length && n <= dst.Length && n < pnum.Length
      requires forall i :: 0 <= i < n ==> dst[i] < |tx| || dst[i] == BAD_PORT
      requires Grouped(dst[..n], pnum[..], n)
      modifies this`freed, Repr()
      ensures Valid()
      ensures Abs() == DeliverEach(old(Abs()), pkts[..n], dst[..n])
    {
      hide DeliverEach, Deliver, MaximalRun, RunHead, Grouped, Abs, Valid;
      ghost var s, ps, d, q := Abs(), pkts[..n], dst[..n], pnum[..];
      var j := 0;
      SendStarts(s, d);
      while j < n
        invariant j <= n && (j == n || RunHead(d, j))
        invariant Valid()
        invariant pkts[..n] == ps && dst[..n] == d && pnum[..] == q
        invariant Abs() == DeliverEach(s, ps[..j], d[..j])
      {
        var pn, k := dst[j], pnum[j];
        RunDelivered(s, ps, d, q, j);
        SameSlice(pkts, ps, j, j + k);
        Dispatch(pn, pkts, j, k);
        j := j + k;
      }
      assert ps[..n] == ps && d[..n] == d;
    }

    /** `send_packets_multi`.  Ports are indices of configured ports on entry; the RFC 1812
        check may turn some into BAD_PORT.  `pnum` starts with arbitrary contents. */
    method SendPacketsMulti(pkts: array<Mbuf>, dst: array<nat>, n: nat)
      requires Valid() && pkts !in Repr() && dst !in Repr()
      requires n <= MAX_PKT_BURST && n <= pkts.Length && n <= dst.Length
      requires forall i :: 0 <= i < n ==> dst[i] < |tx|
      modifies this`freed, Repr(), dst
      ensures Valid()
      ensures dst[..n] == FinalPorts(pkts[..n], old(dst[..n]))
      ensures Abs() == DeliverEach(old(Abs()), pkts[..n], dst[..n])
      ensures SentOut(old(Abs()), Abs(), pkts[..n], old(dst[..n]))
    {
      hide DeliverEach, Deliver, Abs, Grouped, SentOut, Fails, Rfc1812;
      DeliveredIsSentOut(Abs(), pkts[..n], dst[..n]);
      var pnum := new nat[MAX_PKT_BURST + 1];
      FinishAndGroup(pkts, dst, pnum, n);
      SendRuns(pkts, dst, pnum, n);
    }

    /** Body of the simple path: final port decision, then one packet to its port. */
    method SendNext(pkts: array<Mbuf>, dst: array<nat>, j: nat)
      requires Valid() && pkts !in Repr() && dst !in Repr()
      requires j < pkts.Length && j < dst.Length && dst[j] < |tx|
      modifies this`freed, Repr(), dst
      ensures Valid()
      ensures dst[..] == old(dst[..])[j := Rfc1812(pkts[j], old(dst[j]))]
      ensures dst[j] == if Fails(pkts[j]) then BAD_PORT else old(dst[j])
      ensures Abs() == Deliver(old(Abs()), dst[j], [pkts[j]])
    {
      Rfc1812Checks(pkts[j], dst[j]);
      dst[j] := Rfc1812(pkts[j], dst[j]);
      DispatchOne(dst[j], pkts[j]);
    }

    /** The packet-by-packet loop with `send_single_packet`: same contract. */
    method SendOneByOne(pkts: array<Mbuf>, dst: array<nat>, n: nat)
      requires Valid() && pkts !in Repr() && dst !in Repr()
      requires n <= pkts.Length && n <= dst.Length
      requires forall i :: 0 <= i < n ==> dst[i] < |tx|
      modifies this`freed, Repr(), dst
      ensures Valid()
      ensures dst[..n] == FinalPorts(pkts[..n], old(dst[..n]))
      ensures Abs() == DeliverEach(old(Abs()), pkts[..n], dst[..n])
      ensures SentOut(old(Abs()), Abs(), pkts[..n], old(dst[..n]))
    {
      hide DeliverEach, Deliver, RunHead, Abs, Valid, SentOut, Fails, Rfc1812;
      FewPorts();
      DeliveredIsSentOut(Abs(), pkts[..n], dst[..n]);
      ghost var s, ps, d := Abs(), pkts[..n], FinalPorts(pkts[..n], dst[..n]);
      SendStarts(s, d);
      for j := 0 to n
        invariant Valid()
        invariant forall i :: 0 <= i < j ==> dst[i] == d[i]
        invariant forall i :: j <= i < n ==> dst[i] == old(dst[i])
        invariant Abs() == DeliverEach(s, ps[..j], d[..j])
      {
        DeliverRun(s, ps, d, j, j + 1);
        assert ps[j..j + 1] == [pkts[j]];
        SendNext(pkts, dst, j);
      }
      assert ps[..n] == ps && d[..n] == d && dst[..n] == d;
    }
  }
}
