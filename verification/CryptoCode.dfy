/** The crypto queues of one lcore as the code keeps them: a table of queue pairs, updated in
    place (ipsec_eval/ipsec.c:47-200, ipsec_eval/ipsec-secgw.c:1122-1171). */
module CryptoCode {
  import opened Basics
  import opened CryptoQueue

  /** `struct cdev_qp`: the first `len` entries of `buf` are waiting. */
  datatype CdevQp = CdevQp(id: nat, inFlight: nat, len: nat, buf: seq<Packet>)

  /** One entry of the table and its device show the queue of the model. */
  ghost predicate Shows(e: CdevQp, dev: seq<Packet>, qp: Qp, id: nat) {
    && |e.buf| == MAX_PKT_BURST && e.len == |qp.waiting| < MAX_PKT_BURST && e.buf[..e.len] == qp.waiting
    && e.inFlight == qp.inFlight && dev == qp.device && e.id == id
  }

  /** An entry not in use yet. */
  ghost predicate Idle(e: CdevQp, dev: seq<Packet>) {
    |e.buf| == MAX_PKT_BURST && e.len == e.inFlight == 0 && dev == []
  }

  ghost predicate Mirrors(t: seq<CdevQp>, d: seq<seq<Packet>>, qps: seq<Qp>, cdevs: seq<nat>) {
    && |t| == |d| == MAX_QP_PER_LCORE && |qps| == |cdevs| <= |t|
    && (forall q :: 0 <= q < |qps| ==> Shows(t[q], d[q], qps[q], cdevs[q]))
    && (forall q :: |qps| <= q < |t| ==> Idle(t[q], d[q]))
  }

  lemma MirrorsUpdate(t: seq<CdevQp>, d: seq<seq<Packet>>, qps: seq<Qp>, cdevs: seq<nat>, q: nat, e: CdevQp,
      dev: seq<Packet>, qp: Qp)
    requires Mirrors(t, d, qps, cdevs) && q < |qps| && Shows(e, dev, qp, cdevs[q])
    ensures Mirrors(t[q := e], d[q := dev], qps[q := qp], cdevs)
  {
    hide Shows, Idle;
  }

  lemma MirrorsAdd(t: seq<CdevQp>, d: seq<seq<Packet>>, qps: seq<Qp>, cdevs: seq<nat>, id: nat)
    requires Mirrors(t, d, qps, cdevs) && |qps| < MAX_QP_PER_LCORE
    ensures Mirrors(t[|qps| := t[|qps|].(id := id)], d, qps + [Qp([], 0, [], [], [], [])], cdevs + [id])
  {
    assert Idle(t[|qps|], d[|qps|]);
  }

  lemma InRange(c: Core, t: seq<CdevQp>, d: seq<seq<Packet>>)
    requires Mirrors(t, d, c.qps, c.cdevs)
    ensures |t| == |d| == MAX_QP_PER_LCORE && |c.qps| == |c.cdevs| <= MAX_QP_PER_LCORE
    ensures forall q :: 0 <= q < |c.qps| ==> Shows(t[q], d[q], c.qps[q], c.cdevs[q])
  {
  }

  lemma AppendShows(e: CdevQp, dev: seq<Packet>, qp: Qp, id: nat, cop: Packet)
    requires Shows(e, dev, qp, id)
    ensures e.len < |e.buf| == MAX_PKT_BURST
    ensures var f, w := e.(buf := e.buf[e.len := cop], len := e.len + 1), Waiting(qp, cop);
      && |w.waiting| == f.len && f.buf[..f.len] == w.waiting && f.inFlight == w.inFlight && dev == w.device
          && f.id == id
      && (f.len < MAX_PKT_BURST ==> Shows(f, dev, w, id)) && (f.len == MAX_PKT_BURST ==> f.buf == w.waiting)
  {
  }

  lemma FlushShows(f: CdevQp, dev: seq<Packet>, w: Qp, id: nat, accept: nat)
    requires |f.buf| == MAX_PKT_BURST && f.buf == w.waiting && f.inFlight == w.inFlight && dev == w.device && f.id == id
    ensures var ret := Count(w, accept);
      Shows(f.(inFlight := (f.inFlight + ret) % U16, len := 0), dev + f.buf[..ret], Flushed(w, accept), id)
      && ret == if |dev| > CDEV_QUEUE_DESC then 0 else Min(accept, Min(|f.buf|, CDEV_QUEUE_DESC - |dev|))
  {
  }

  lemma PushKeepsSafe(c: Core, q: nat, cop: Packet, accept: nat)
    requires Safe(c) && q < |c.qps|
    ensures Safe(Push(c, q, cop, accept))
  {
    hide QpSafe, Waiting, Flushed, Count;
    PushSafe(c.qps[q], cop, accept);
  }

  /** Taking packets back shows in one entry and one device. */
  lemma TakeShows(e: CdevQp, dev: seq<Packet>, qp: Qp, id: nat, take: nat, room: nat)
    requires Shows(e, dev, qp, id) && QpSafe(qp)
    ensures var n := Taken(qp, take, room);
      && n == (if e.inFlight == 0 then 0 else Min(take, Min(|dev|, room))) && n <= |dev| && n <= e.inFlight &&
          n <= room && dev == qp.device
      && Shows(e.(inFlight := e.inFlight - n), dev[n..], TakeBack(qp, n), id)
  {
  }

  class IpsecCtx {
    const tbl: array<CdevQp>
    const device: array<seq<Packet>>  // what each queue's device holds, oldest first
    var nbQps: nat
    var lastQp: nat
    var cdevMap: map<Key, nat>
    var sas: map<SaId, SaState>
    var freed: seq<Packet>            // every packet given back to the pool
    ghost var core: Core

    constructor (sas: map<SaId, SaState>)
      requires forall s :: s in sas ==> !sas[s].session
      ensures Valid() && fresh(tbl) && fresh(device)
      ensures core == Core([], 0, [], map[], sas, [], [], [])
    {
      tbl := new CdevQp[MAX_QP_PER_LCORE](_ => CdevQp(0, 0, 0, seq(MAX_PKT_BURST, _ => 0)));
      device := new seq<Packet>[MAX_QP_PER_LCORE](_ => []);
      nbQps, lastQp, cdevMap, this.sas, freed := 0, 0, map[], sas, [];
      core := Core([], 0, [], map[], sas, [], [], []);
    }

    ghost predicate Valid()
      reads this, tbl, device
    {
      && Safe(core)
      && nbQps == |core.qps| && lastQp == core.last && cdevMap == core.cdevMap && sas == core.sas && freed == core.freed
      && Mirrors(tbl[..], device[..], core.qps, core.cdevs)
    }

    // enqueue_cop.
    method EnqueueCop(q: nat, cop: Packet, accept: nat)
      requires Valid() && q < nbQps
      modifies this`freed, this`core, tbl, device
      ensures Valid() && core == Push(old(core), q, cop, accept)
    {
      hide QpSafe, Marked, Flushed, Waiting, Idle, Shows, Mirrors, Count, Safe;
      ghost var c, t, d := core, tbl[..], device[..];
      InRange(core, t, d);
      ghost var w, id := Waiting(c.qps[q], cop), c.cdevs[q];
      var e := tbl[q];
      AppendShows(e, device[q], c.qps[q], id, cop);
      PushKeepsSafe(c, q, cop, accept);
      e := e.(buf := e.buf[e.len := cop], len := e.len + 1);
      if e.len == MAX_PKT_BURST {
        var ret := if |device[q]| > CDEV_QUEUE_DESC then 0 else Min(accept, Min(e.len, CDEV_QUEUE_DESC - |device[q]|));
        FlushShows(e, device[q], w, id, accept);
        device[q] := device[q] + e.buf[..ret];
        FreeFrom(e.buf, ret);
        e := e.(inFlight := (e.inFlight + ret) % U16, len := 0);
      }
      tbl[q] := e;
      core := Push(c, q, cop, accept);
      MirrorsUpdate(t, d, c.qps, c.cdevs, q, e, device[q], core.qps[q]);
      assert tbl[..] == t[q := e] && device[..] == d[q := device[q]];
    }

    // The loop over the packets the device did not take.
    method FreeFrom(buf: seq<Packet>, from: nat)
      requires from <= |buf|
      modifies this`freed
      ensures freed == old(freed) + buf[from..]
    {
      var i := from;
      while i < |buf|
        invariant from <= i <= |buf|
        invariant freed == old(freed) + buf[from..i]
      {
        freed := freed + [buf[i]];
        i := i + 1;
      }
    }

    // create_session for an SA without one; `created` says whether the library gave a session.
    method CreateSession(sa: SaId, created: bool) returns (ok: bool)
      requires Valid() && sa in sas && !sas[sa].session
      modifies this`sas, this`core
      ensures Valid() && sas.Keys == old(sas.Keys)
      ensures match WithSession(old(core), sa, created)
        case None => !ok && core == old(core)
        case Some(d) => ok && core == d && sas[sa].cdevIdQp < nbQps
    {
      hide QpSafe, Mirrors;
      var s := sas[sa];
      if s.key !in cdevMap { return false; }
      sas := sas[sa := s.(session := created, cdevIdQp := cdevMap[s.key])];
      core := core.(sas := sas);
      ok := true;
    }

    method Free(pkt: Packet)
      requires Valid()
      modifies this`freed, this`core
      ensures Valid() && core == Drop(old(core), pkt)
    {
      hide QpSafe, Mirrors;
      freed := freed + [pkt];
      core := Drop(core, pkt);
    }

    // ipsec_enqueue.
    method IpsecEnqueue(pkts: array<Packet>, owners: seq<Option<SaId>>, choices: nat -> Choice)
      requires Valid() && |owners| <= pkts.Length
      requires forall i :: 0 <= i < |owners| ==> owners[i].Some? ==> owners[i].value in sas
      modifies this`freed, this`core, this`sas, tbl, device
      ensures Valid() && core == EnqueueAll(old(core), pkts[..|owners|], owners, choices, |owners|)
    {
      hide QpSafe, Mirrors, Push, Drop, Safe, WithSession;
      var i := 0;
      while i < |owners|
        invariant 0 <= i <= |owners| && Valid() && sas.Keys == old(sas.Keys)
        invariant core == EnqueueAll(old(core), pkts[..|owners|], owners, choices, i)
      {
        EnqueueOne(pkts[i], owners[i], choices(i));
        i := i + 1;
      }
    }

    // The body of the loop of ipsec_enqueue.
    method EnqueueOne(pkt: Packet, owner: Option<SaId>, choice: Choice)
      requires Valid() && (owner.Some? ==> owner.value in sas)
      modifies this`freed, this`core, this`sas, tbl, device
      ensures Valid() && sas.Keys == old(sas.Keys) && core == Enqueue(old(core), pkt, owner, choice)
    {
      hide QpSafe, Mirrors, Push;
      core := core.(offered := core.offered + [pkt]);
      if owner.None? { Free(pkt); return; }
      var sa := owner.value;
      if !sas[sa].session {
        var created := CreateSession(sa, choice.session);
        if !created { Free(pkt); return; }
      }
      if !choice.xform { Free(pkt); return; }
      assert sas[sa].cdevIdQp < nbQps;
      EnqueueCop(sas[sa].cdevIdQp, pkt, choice.accept);
    }

    // ipsec_dequeue: the packets brought back are the first entries of `pkts`.
    method IpsecDequeue(pkts: array<Packet>, max: nat, answers: nat -> Answer) returns (nbPkts: nat)
      requires Valid() && max <= pkts.Length
      modifies this`freed, this`core, this`lastQp, tbl, device, pkts
      ensures Valid() && nbPkts <= max
      ensures (core, pkts[..nbPkts]) == Dequeue(old(core), answers, max, old(nbQps))
      ensures pkts[nbPkts..] == old(pkts[nbPkts..])
    {
      hide QpSafe, Mirrors, Visit, Safe;
      nbPkts := 0;
      NumberOfQueues(core);
      var i := 0;
      while i < nbQps && nbPkts < max
        invariant i <= nbQps && nbPkts <= max && Valid()
        invariant (core, pkts[..nbPkts]) == Dequeue(old(core), answers, max, i)
        invariant pkts[nbPkts..] == old(pkts[nbPkts..])
      {
        nbPkts := VisitNext(pkts, nbPkts, max, answers(i));
        i := i + 1;
      }
      Filled(old(core), answers, max, i, nbQps);
    }

    // The body of the loop of ipsec_dequeue: one queue.
    method VisitNext(pkts: array<Packet>, from: nat, max: nat, a: Answer) returns (nbPkts: nat)
      requires Valid() && nbQps > 0 && from < max <= pkts.Length
      modifies this`freed, this`core, this`lastQp, tbl, device, pkts
      ensures Valid() && from <= nbPkts <= max
      ensures var (d, out) := Visit(old(core), a, max - from); core == d && pkts[..nbPkts] == old(pkts[..from]) + out
      ensures pkts[nbPkts..] == old(pkts[nbPkts..])
    {
      hide QpSafe, Accepted, Packets, Shows, Mirrors, Safe, Good, Bad, Taken;
      ghost var c, t, d := core, tbl[..], device[..];
      InRange(core, t, d);
      LastInRange(c);
      var q := lastQp;
      lastQp := lastQp + 1;
      if lastQp == nbQps { lastQp := 0; }
      VisitSafe(c, a, max - from);
      TakeShows(tbl[q], device[q], c.qps[q], c.cdevs[q], a.take, max - from);
      var n := 0;
      nbPkts := from;
      if tbl[q].inFlight != 0 {
        n := Min(a.take, Min(|device[q]|, max - from));
        var cops := device[q][..n];
        device[q] := device[q][n..];
        tbl[q] := tbl[q].(inFlight := tbl[q].inFlight - n);
        nbPkts := Finish(pkts, from, cops, a.ok);
      } else {
        NoneTaken(a.ok);
        assert c.qps[q].device[..0] == [] && device[q][0..] == device[q];
      }
      core := Visit(c, a, max - from).0;
      MirrorsUpdate(t, d, c.qps, c.cdevs, q, tbl[q], device[q], core.qps[q]);
      assert tbl[..] == t[q := tbl[q]] && device[..] == d[q := device[q]];
    }

    // The inner loop of ipsec_dequeue.
    method Finish(pkts: array<Packet>, from: nat, cops: seq<Packet>, ok: nat -> bool) returns (nbPkts: nat)
      requires from + |cops| <= pkts.Length
      modifies this`freed, pkts
      ensures from <= nbPkts <= from + |cops| && freed == old(freed) + Bad(cops, ok)
      ensures pkts[..nbPkts] == old(pkts[..from]) + Good(cops, ok) && pkts[nbPkts..] == old(pkts[nbPkts..])
    {
      nbPkts := from;
      var j := 0;
      assert cops[..0] == [];
      while j < |cops|
        invariant j <= |cops| && from <= nbPkts <= from + j
        invariant freed == old(freed) + Bad(cops[..j], ok)
        invariant pkts[..nbPkts] == old(pkts[..from]) + Good(cops[..j], ok)
        invariant pkts[nbPkts..] == old(pkts[nbPkts..])
      {
        assert cops[..j + 1][..j] == cops[..j];
        if ok(j) {
          pkts[nbPkts] := cops[j];
          nbPkts := nbPkts + 1;
        } else {
          freed := freed + [cops[j]];
        }
        j := j + 1;
      }
      assert cops[..j] == cops;
    }

    // add_mapping: 1 if the key was mapped.
    method AddMapping(key: Key, cdevId: nat, inserted: bool) returns (r: nat)
      requires Valid()
      modifies this`nbQps, this`cdevMap, this`core, tbl
      ensures Valid() && core == CryptoQueue.AddMapping(old(core), key, cdevId, inserted)
      ensures r == 1 <==> key !in old(cdevMap) && key in cdevMap
    {
      hide QpSafe, Mirrors;
      r := 0;
      if key in cdevMap { return; }
      AddMappingSafe(core, key, cdevId, inserted);
      var i := FindCdev(cdevId);
      FirstIndexIs(core.cdevs, cdevId, i);
      ghost var c, t := core, tbl[..];
      InRange(core, t, device[..]);
      if i == nbQps {
        if nbQps == MAX_QP_PER_LCORE { return; }
        tbl[i] := tbl[i].(id := cdevId);
        nbQps := nbQps + 1;
        MirrorsAdd(t, device[..], c.qps, c.cdevs, cdevId);
        assert tbl[..] == t[i := t[i].(id := cdevId)];
        core := core.(qps := c.qps + [Qp([], 0, [], [], [], [])], cdevs := c.cdevs + [cdevId]);
      }
      if inserted {
        cdevMap := cdevMap[key := i];
        core := core.(cdevMap := cdevMap);
        r := 1;
      }
    }

    // The search loop of add_mapping.
    method FindCdev(cdevId: nat) returns (i: nat)
      requires Valid()
      ensures i <= nbQps && (i < nbQps ==> core.cdevs[i] == cdevId)
      ensures forall j :: 0 <= j < i ==> core.cdevs[j] != cdevId
    {
      InRange(core, tbl[..], device[..]);
      i := 0;
      while i < nbQps
        invariant i <= nbQps && forall j :: 0 <= j < i ==> core.cdevs[j] != cdevId
      {
        assert Shows(tbl[..][i], device[..][i], core.qps[i], core.cdevs[i]);
        if tbl[i].id == cdevId { return; }
        i := i + 1;
      }
    }
  }

  lemma FirstIndexIs(s: seq<nat>, x: nat, i: nat)
    requires i <= |s| && (i < |s| ==> s[i] == x) && forall j :: 0 <= j < i ==> s[j] != x
    ensures FirstIndex(s, x) == i
  {
    hide FirstIndex;
    var k := FirstIndex(s, x);
  }

  lemma LastInRange(c: Core)
    requires Safe(c) && |c.qps| > 0
    ensures c.last < |c.qps| && forall q :: 0 <= q < |c.qps| ==> QpSafe(c.qps[q])
  {
  }

  lemma NumberOfQueues(c: Core)
    requires Safe(c)
    ensures |c.qps| <= MAX_QP_PER_LCORE && (|c.qps| > 0 ==> c.last < |c.qps|)
  {
  }

  lemma NoneTaken(ok: nat -> bool)
    ensures Good([], ok) == [] && Bad([], ok) == []
  {
  }

  /** Once the call has returned all it may, or all queues are done, nothing more happens. */
  lemma {:induction false} Filled(c: Core, answers: nat -> Answer, max: nat, i: nat, n: nat)
    requires Safe(c) && i <= n <= |c.qps| && (i < n ==> |Dequeue(c, answers, max, i).1| >= max)
    ensures Dequeue(c, answers, max, n) == Dequeue(c, answers, max, i)
  {
    hide Safe, Visit;
    if i < n { Filled(c, answers, max, i, n - 1); }
  }
}
