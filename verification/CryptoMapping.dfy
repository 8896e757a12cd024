/** Which packets reach which crypto device, over every run, told from the events alone
    (ipsec_eval/ipsec.c:47-151, ipsec_eval/ipsec-secgw.c:1122-1171). */
module CryptoMapping {
  import opened Basics
  import opened CryptoQueue
  import opened CryptoRuns

  // ---------------------------------------------------------------- history

  /** The devices that got a queue, in order, and the device each key was mapped for. */
  datatype History = History(devices: seq<nat>, device: map<Key, nat>)

  /** A key is mapped once, for the device of the first call that finds room and is taken. */
  function Mapped(h: History, e: Event): History {
    match e
    case Map(key, cdev, inserted) =>
      if key in h.device || (cdev !in h.devices && |h.devices| >= 256) then h
      else History(if cdev in h.devices then h.devices else h.devices + [cdev],
          if inserted then h.device[key := cdev] else h.device)
    case _ => h
  }

  function Told(es: seq<Event>): History {
    if es == [] then History([], map[]) else Mapped(Told(es[..|es| - 1]), es[|es| - 1])
  }

  /** A packet goes to this device: its SA is known, the key of the SA is mapped for it, and the
      transformation succeeds. */
  predicate Joins(keys: map<SaId, Key>, h: History, sa: Option<SaId>, choice: Choice, cdev: nat) {
    sa.Some? && sa.value in keys && keys[sa.value] in h.device && h.device[keys[sa.value]] == cdev && choice.xform
  }

  /** Of the first `n` packets of an offer, those that go to this device. */
  function OfferedTo(keys: map<SaId, Key>, h: History, pkts: seq<Packet>, sas: seq<Option<SaId>>,
      choices: nat -> Choice, n: nat, cdev: nat): seq<Packet>
    requires n <= |pkts| == |sas|
  {
    if n == 0 then []
    else
      OfferedTo(keys, h, pkts, sas, choices, n - 1, cdev)
      + if Joins(keys, h, sas[n - 1], choices(n - 1), cdev) then [pkts[n - 1]] else []
  }

  /** All packets that went to this device, in order. */
  function Arrivals(keys: map<SaId, Key>, es: seq<Event>, cdev: nat): seq<Packet>
    requires forall i :: 0 <= i < |es| ==> EventOk(keys.Keys, es[i])
  {
    if es == [] then []
    else
      var front, e := es[..|es| - 1], es[|es| - 1];
      assert EventOk(keys.Keys, e);
      Arrivals(keys, front, cdev)
      + if e.Offer? then OfferedTo(keys, Told(front), e.pkts, e.sas, e.choices, |e.pkts|, cdev) else []
  }

  // ---------------------------------------------------------------- the queues follow it

  /** No device has two queues, every key is mapped to the queue of its device, and every session is
      with the queue its key is mapped to. */
  ghost predicate Follows(c: Core, keys: map<SaId, Key>, h: History) {
    && |c.cdevs| == |c.qps| && c.cdevs == h.devices
    && (forall i, j :: 0 <= i < j < |c.cdevs| ==> c.cdevs[i] != c.cdevs[j])
    && c.cdevMap.Keys == h.device.Keys
    && (forall k :: k in c.cdevMap ==> c.cdevMap[k] < |c.cdevs| && c.cdevs[c.cdevMap[k]] == h.device[k])
    && c.sas.Keys == keys.Keys
    && (forall s :: s in c.sas ==> c.sas[s].key == keys[s])
    && forall s :: s in c.sas && c.sas[s].session ==> keys[s] in c.cdevMap && c.sas[s].cdevIdQp == c.cdevMap[keys[s]]
  }

  lemma PushArrives(c: Core, q: nat, pkt: Packet, accept: nat)
    requires q < |c.qps|
    ensures var d := Push(c, q, pkt, accept);
      && d == c.(qps := d.qps, freed := d.freed) && |d.qps| == |c.qps|
      && forall i :: 0 <= i < |c.qps| ==> d.qps[i].arrived == c.qps[i].arrived + if i == q then [pkt] else []
  {
    hide Count, Marked;
  }

  /** One packet: it joins the queue of the device its key is mapped for and no other, or, if there is
      no such device, no SA or no transformation, it is freed.  The SA gets a session where one can be
      created. */
  lemma EnqueueJoins(c: Core, keys: map<SaId, Key>, h: History, pkt: Packet, sa: Option<SaId>, choice: Choice)
    requires Safe(c) && Follows(c, keys, h) && (sa.Some? ==> sa.value in c.sas)
    ensures var d := Enqueue(c, pkt, sa, choice);
      && Follows(d, keys, h) && d.cdevs == c.cdevs
      && |c.cdevs| == |c.qps| == |d.qps|
      && (forall q :: 0 <= q < |c.qps| ==>
          d.qps[q].arrived == c.qps[q].arrived + if Joins(keys, h, sa, choice, c.cdevs[q]) then [pkt] else [])
      && (!(sa.Some? && keys[sa.value] in h.device && choice.xform) ==>
          d.qps == c.qps && d.freed == c.freed + [pkt])
      && forall s :: s in keys ==>
          (d.sas[s].session <==> c.sas[s].session || (sa == Some(s) && keys[s] in h.device && choice.session))
  {
    hide Safe, Push, WithSession, Follows;
    SameKeys(c, keys, h);
    var o := c.(offered := c.offered + [pkt]);
    OfferedFollows(c, keys, h, o);
    if sa.Some? {
      SessionFollows(o, keys, h, sa.value, choice.session);
      if keys[sa.value] in h.device {
        var d := WithSession(o, sa.value, choice.session).value;
        var q := d.sas[sa.value].cdevIdQp;
        DeviceOf(d, keys, h, sa.value);
        if choice.xform {
          PushArrives(d, q, pkt, choice.accept);
          PushFollows(d, keys, h, q, pkt, choice.accept);
        } else {
          OfferedFollows(d, keys, h, Drop(d, pkt));
        }
      }
    }
    if !(sa.Some? && keys[sa.value] in h.device) { OfferedFollows(o, keys, h, Drop(o, pkt)); }
  }

  lemma OfferedFollows(c: Core, keys: map<SaId, Key>, h: History, d: Core)
    requires Follows(c, keys, h) && d == c.(offered := d.offered, freed := d.freed)
    ensures Follows(d, keys, h)
  {
  }

  lemma PushFollows(c: Core, keys: map<SaId, Key>, h: History, q: nat, pkt: Packet, accept: nat)
    requires Follows(c, keys, h) && q < |c.qps|
    ensures Follows(Push(c, q, pkt, accept), keys, h)
  {
    hide Count, Marked;
  }

  /** The session of an SA is with the queue its key is mapped to, if there is one. */
  lemma SessionFollows(c: Core, keys: map<SaId, Key>, h: History, sa: SaId, created: bool)
    requires Follows(c, keys, h) && sa in c.sas
    ensures var d := WithSession(c, sa, created);
      && (d.Some? <==> keys[sa] in h.device)
      && (d.Some? ==>
          && d.value == c.(sas := d.value.sas) && Follows(d.value, keys, h)
          && d.value.sas[sa].cdevIdQp == c.cdevMap[keys[sa]]
          && forall s :: s in keys ==>
              (d.value.sas[s].session <==> c.sas[s].session || (s == sa && created)))
  {
  }

  lemma DeviceOf(c: Core, keys: map<SaId, Key>, h: History, sa: SaId)
    requires Follows(c, keys, h) && sa in keys && keys[sa] in h.device
    ensures keys[sa] in c.cdevMap
    ensures var q := c.cdevMap[keys[sa]];
      q < |c.qps| && forall i :: 0 <= i < |c.qps| ==> (c.cdevs[i] == h.device[keys[sa]] <==> i == q)
  {
  }

  lemma {:induction false} OfferJoins(c: Core, keys: map<SaId, Key>, h: History, pkts: seq<Packet>,
      sas: seq<Option<SaId>>, choices: nat -> Choice, n: nat)
    requires Safe(c) && Follows(c, keys, h) && n <= |pkts| == |sas|
    requires forall i :: 0 <= i < |sas| ==> sas[i].Some? ==> sas[i].value in c.sas
    ensures var d := EnqueueAll(c, pkts, sas, choices, n);
      && Follows(d, keys, h) && d.cdevs == c.cdevs
      && |c.cdevs| == |c.qps| == |d.qps|
      && forall q :: 0 <= q < |c.qps| ==>
          d.qps[q].arrived == c.qps[q].arrived + OfferedTo(keys, h, pkts, sas, choices, n, c.cdevs[q])
  {
    hide Safe, Follows, Enqueue, Joins;
    SameKeys(c, keys, h);
    if n > 0 {
      OfferJoins(c, keys, h, pkts, sas, choices, n - 1);
      var d := EnqueueAll(c, pkts, sas, choices, n - 1);
      SameKeys(d, keys, h);
      EnqueueJoins(d, keys, h, pkts[n - 1], sas[n - 1], choices(n - 1));
    }
  }

  lemma SameKeys(c: Core, keys: map<SaId, Key>, h: History)
    requires Follows(c, keys, h)
    ensures c.sas.Keys == keys.Keys && |c.cdevs| == |c.qps|
  {
  }

  /** Collecting packets changes no mapping, no session and nothing that arrived. */
  ghost predicate SameArrivals(c: Core, d: Core) {
    && d.cdevs == c.cdevs && d.cdevMap == c.cdevMap && d.sas == c.sas && |d.qps| == |c.qps|
    && forall q :: 0 <= q < |c.qps| ==> d.qps[q].arrived == c.qps[q].arrived
  }

  lemma {:induction false} CollectArrives(c: Core, answers: nat -> Answer, max: nat, n: nat)
    requires Safe(c) && n <= |c.qps|
    ensures SameArrivals(c, Dequeue(c, answers, max, n).0)
  {
    hide Safe, Dequeue, Visit;
    if n > 0 {
      CollectArrives(c, answers, max, n - 1);
      DequeueStep(c, answers, max, n);
      var (d, out) := Dequeue(c, answers, max, n - 1);
      if |out| < max { VisitArrives(d, answers(n - 1), max - |out|); }
    } else {
      DequeueNone(c, answers, max);
    }
  }

  lemma VisitArrives(c: Core, a: Answer, room: nat)
    requires c.last < |c.qps|
    ensures SameArrivals(c, Visit(c, a, room).0)
  {
  }

  lemma MapFollows(c: Core, keys: map<SaId, Key>, h: History, key: Key, cdev: nat, inserted: bool)
    requires Safe(c) && Follows(c, keys, h)
    ensures var d := AddMapping(c, key, cdev, inserted);
      && Follows(d, keys, Mapped(h, Map(key, cdev, inserted)))
      && c.cdevs <= d.cdevs && c.qps <= d.qps && |d.cdevs| == |d.qps|
      && forall q :: |c.qps| <= q < |d.qps| ==> d.qps[q].arrived == [] && d.cdevs[q] !in c.cdevs
  {
    hide Safe, AddMapping;
    AddMappingIs(c, key, cdev, inserted);
  }

  lemma AddMappingIs(c: Core, key: Key, cdev: nat, inserted: bool)
    requires Safe(c)
    ensures var d := AddMapping(c, key, cdev, inserted);
      if key in c.cdevMap || (cdev !in c.cdevs && |c.cdevs| >= 256) then d == c
      else
        && d.sas == c.sas && d.cdevs == (if cdev in c.cdevs then c.cdevs else c.cdevs + [cdev])
        && d.qps == (if cdev in c.cdevs then c.qps else c.qps + [Qp([], 0, [], [], [], [])])
        && if !inserted then d.cdevMap == c.cdevMap
           else exists i :: 0 <= i < |d.cdevs| && d.cdevs[i] == cdev && d.cdevMap == c.cdevMap[key := i]
  {
    hide QpSafe, FirstIndex;
    var i := FirstIndex(c.cdevs, cdev);
    assert i < |c.cdevs| <==> cdev in c.cdevs;
    var d := AddMapping(c, key, cdev, inserted);
    if key !in c.cdevMap && i < 256 { assert d.cdevs[i] == cdev; }
  }

  // ---------------------------------------------------------------- all runs

  /** Queue by queue, what arrived is what the events sent to its device. */
  ghost predicate Arrived(c: Core, keys: map<SaId, Key>, es: seq<Event>)
    requires forall i :: 0 <= i < |es| ==> EventOk(keys.Keys, es[i])
  {
    && |c.cdevs| == |c.qps|
    && forall q :: 0 <= q < |c.qps| ==> c.qps[q].arrived == Arrivals(keys, es, c.cdevs[q])
  }

  /** A device without a queue has had no packets. */
  lemma {:induction false} NoQueueNoArrivals(keys: map<SaId, Key>, es: seq<Event>, cdev: nat)
    requires (forall i :: 0 <= i < |es| ==> EventOk(keys.Keys, es[i])) && cdev !in Told(es).devices
    ensures Arrivals(keys, es, cdev) == [] && forall k :: k in Told(es).device ==> Told(es).device[k] != cdev
  {
    if es != [] {
      var front, e := es[..|es| - 1], es[|es| - 1];
      NoQueueNoArrivals(keys, front, cdev);
      if e.Offer? { NoneOffered(keys, Told(front), e.pkts, e.sas, e.choices, |e.pkts|, cdev); }
    }
  }

  lemma {:induction false} NoneOffered(keys: map<SaId, Key>, h: History, pkts: seq<Packet>, sas: seq<Option<SaId>>,
      choices: nat -> Choice, n: nat, cdev: nat)
    requires n <= |pkts| == |sas| && forall k :: k in h.device ==> h.device[k] != cdev
    ensures OfferedTo(keys, h, pkts, sas, choices, n, cdev) == []
  {
    if n > 0 { NoneOffered(keys, h, pkts, sas, choices, n - 1, cdev); }
  }

  /** On every run: no two queues have the same device, every key stays with the device it was first
      mapped for, every session is with the queue of that device, and the packets that arrived at a
      queue are exactly those the events sent to its device, in order. */
  lemma {:induction false} RunFollows(keys: map<SaId, Key>, es: seq<Event>)
    requires forall i :: 0 <= i < |es| ==> EventOk(keys.Keys, es[i])
    ensures Follows(Run(keys, es), keys, Told(es)) && Arrived(Run(keys, es), keys, es)
  {
    hide Safe, Follows, EnqueueAll, Dequeue, AddMapping, OfferedTo, Mapped;
    if es == [] {
      StartFollows(keys);
    } else {
      var front, e := es[..|es| - 1], es[|es| - 1];
      RunFollows(keys, front);
      var c := Run(keys, front);
      SameKeys(c, keys, Told(front));
      match e
      case Offer(pkts, sas, choices) =>
        OfferJoins(c, keys, Told(front), pkts, sas, choices, |pkts|);
        Untold(Told(front), e);
      case Collect(answers, max) =>
        CollectArrives(c, answers, max, |c.qps|);
        Untold(Told(front), e);
        FollowsOn(c, After(c, e), keys, Told(front));
      case Map(key, cdev, inserted) =>
        MapFollows(c, keys, Told(front), key, cdev, inserted);
        NewQueues(c, keys, front, After(c, e));
    }
  }

  lemma StartFollows(keys: map<SaId, Key>)
    ensures Follows(Start(keys), keys, Told([]))
  {
    assert Start(keys).sas.Keys == keys.Keys;
  }

  lemma Untold(h: History, e: Event)
    requires !e.Map?
    ensures Mapped(h, e) == h
  {
  }

  lemma FollowsOn(c: Core, d: Core, keys: map<SaId, Key>, h: History)
    requires Follows(c, keys, h) && SameArrivals(c, d)
    ensures Follows(d, keys, h)
  {
  }

  lemma NewQueues(c: Core, keys: map<SaId, Key>, es: seq<Event>, d: Core)
    requires forall i :: 0 <= i < |es| ==> EventOk(keys.Keys, es[i])
    requires Follows(c, keys, Told(es)) && Arrived(c, keys, es)
    requires c.cdevs <= d.cdevs && c.qps <= d.qps && |d.cdevs| == |d.qps|
    requires forall q :: |c.qps| <= q < |d.qps| ==> d.qps[q].arrived == [] && d.cdevs[q] !in c.cdevs
    ensures Arrived(d, keys, es)
  {
    forall q | 0 <= q < |d.qps|
      ensures d.qps[q].arrived == Arrivals(keys, es, d.cdevs[q])
    {
      if q >= |c.qps| { NoQueueNoArrivals(keys, es, d.cdevs[q]); }
    }
  }

  /** Once a call is the first to map a key, the key names the queue of that device ever after. */
  lemma {:induction false} MappingStays(keys: map<SaId, Key>, es: seq<Event>, key: Key, cdev: nat, more: seq<Event>)
    requires var all := es + [Map(key, cdev, true)] + more; forall i :: 0 <= i < |all| ==> EventOk(keys.Keys, all[i])
    requires forall i :: 0 <= i < |es| ==> EventOk(keys.Keys, es[i])
    requires key !in Run(keys, es).cdevMap && (cdev in Run(keys, es).cdevs || |Run(keys, es).cdevs| < 256)
    ensures var c := Run(keys, es + [Map(key, cdev, true)] + more);
      key in c.cdevMap && c.cdevMap[key] < |c.cdevs| && c.cdevs[c.cdevMap[key]] == cdev
  {
    RunFollows(keys, es);
    RunFollows(keys, es + [Map(key, cdev, true)] + more);
    assert (es + [Map(key, cdev, true)])[..|es|] == es;
    ToldStays(es + [Map(key, cdev, true)], key, cdev, more);
  }

  lemma {:induction false} ToldStays(es: seq<Event>, key: Key, cdev: nat, more: seq<Event>)
    requires key in Told(es).device && Told(es).device[key] == cdev
    ensures var h := Told(es + more); key in h.device && h.device[key] == cdev
  {
    if more == [] {
      assert es + more == es;
    } else {
      ToldStays(es, key, cdev, more[..|more| - 1]);
      assert (es + more)[..|es + more| - 1] == es + more[..|more| - 1];
    }
  }

  // ---------------------------------------------------------------- bursts

  /** Packets are handed to a device 32 at a time, and of each burst it takes the first ones. */
  ghost predicate LogOk(log: seq<(Packet, bool)>) {
    && |log| % 32 == 0
    && forall i, j :: 0 <= i < j < |log| && i / 32 == j / 32 && log[j].1 ==> log[i].1
  }

  ghost predicate InBursts(c: Core) { forall q :: 0 <= q < |c.qps| ==> LogOk(c.qps[q].log) }

  lemma BurstLogged(log: seq<(Packet, bool)>, w: seq<Packet>, n: nat)
    requires LogOk(log) && |w| == 32
    ensures LogOk(log + Marked(w, n))
  {
    var more := log + Marked(w, n);
    forall i, j | 0 <= i < j < |more| && i / 32 == j / 32 && more[j].1
      ensures more[i].1
    {
      if j >= |log| {
        assert i / 32 == j / 32 >= |log| / 32;
        assert i >= |log|;
      } else {
        assert more[i] == log[i] && more[j] == log[j];
      }
    }
  }

  lemma PushInBursts(c: Core, q: nat, pkt: Packet, accept: nat)
    requires q < |c.qps| && InBursts(c)
    ensures InBursts(Push(c, q, pkt, accept))
  {
    hide Count, Marked, LogOk;
    var w := Waiting(c.qps[q], pkt);
    if |w.waiting| == 32 { BurstLogged(w.log, w.waiting, Count(w, accept)); }
  }

  lemma {:induction false} OfferInBursts(c: Core, pkts: seq<Packet>, sas: seq<Option<SaId>>, choices: nat -> Choice,
      n: nat)
    requires Safe(c) && InBursts(c) && n <= |pkts| == |sas|
    requires forall i :: 0 <= i < |sas| ==> sas[i].Some? ==> sas[i].value in c.sas
    ensures InBursts(EnqueueAll(c, pkts, sas, choices, n))
  {
    hide QpSafe, Push, LogOk;
    if n > 0 {
      OfferInBursts(c, pkts, sas, choices, n - 1);
      var d := EnqueueAll(c, pkts, sas, choices, n - 1);
      var o := d.(offered := d.offered + [pkts[n - 1]]);
      if sas[n - 1].Some? && WithSession(o, sas[n - 1].value, choices(n - 1).session).Some? && choices(n - 1).xform {
        var e := WithSession(o, sas[n - 1].value, choices(n - 1).session).value;
        PushInBursts(e, e.sas[sas[n - 1].value].cdevIdQp, pkts[n - 1], choices(n - 1).accept);
      }
    }
  }

  lemma {:induction false} CollectInBursts(c: Core, answers: nat -> Answer, max: nat, n: nat)
    requires Safe(c) && InBursts(c) && n <= |c.qps|
    ensures InBursts(Dequeue(c, answers, max, n).0)
  {
    hide Safe, Dequeue, Visit;
    if n > 0 {
      CollectInBursts(c, answers, max, n - 1);
      DequeueStep(c, answers, max, n);
      var (d, out) := Dequeue(c, answers, max, n - 1);
      if |out| < max { VisitInBursts(d, answers(n - 1), max - |out|); }
    } else {
      DequeueNone(c, answers, max);
    }
  }

  lemma VisitInBursts(c: Core, a: Answer, room: nat)
    requires c.last < |c.qps| && InBursts(c)
    ensures InBursts(Visit(c, a, room).0)
  {
    hide LogOk;
  }

  lemma NothingLogged()
    ensures LogOk([])
  {
  }

  /** On every run a device has been offered a whole number of bursts, so packets wait until there are
      32 of them, and of each burst it took the first packets. */
  lemma {:induction false} RunInBursts(keys: map<SaId, Key>, es: seq<Event>)
    requires forall i :: 0 <= i < |es| ==> EventOk(keys.Keys, es[i])
    ensures InBursts(Run(keys, es))
  {
    hide Safe, EnqueueAll, Dequeue, LogOk;
    NothingLogged();
    if es != [] {
      var c, e := Run(keys, es[..|es| - 1]), es[|es| - 1];
      RunInBursts(keys, es[..|es| - 1]);
      match e
      case Offer(pkts, sas, choices) => OfferInBursts(c, pkts, sas, choices, |pkts|);
      case Collect(answers, max) => CollectInBursts(c, answers, max, |c.qps|);
      case Map(key, cdev, inserted) =>
    }
  }
}
