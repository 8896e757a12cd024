/** Every run of one lcore's crypto queues: no packet is lost or duplicated, each queue is first
    in, first out, and the polling is fair (ipsec_eval/ipsec.c:82-200). */
module CryptoRuns {
  import opened Basics
  import opened CryptoQueue

  // ---------------------------------------------------------------- conservation

  function Times(s: seq<Packet>, p: Packet): nat { multiset(s)[p] }

  lemma TimesPlus(a: seq<Packet>, b: seq<Packet>, p: Packet)
    ensures Times(a + b, p) == Times(a, p) + Times(b, p)
  {
  }

  lemma TimesPlusAll(a: seq<Packet>, b: seq<Packet>)
    ensures forall p :: Times(a + b, p) == Times(a, p) + Times(b, p)
  {
  }

  lemma TimesSplit(s: seq<Packet>, n: nat, p: Packet)
    requires n <= |s|
    ensures Times(s, p) == Times(s[..n], p) + Times(s[n..], p)
  {
    assert s == s[..n] + s[n..];
  }

  /** How often a packet waits in a buffer or is with a device. */
  function Held(qps: seq<Qp>, p: Packet): nat {
    if qps == [] then 0 else Held(qps[..|qps| - 1], p) + HeldBy(qps[|qps| - 1], p)
  }

  function HeldBy(qp: Qp, p: Packet): nat { Times(qp.waiting, p) + Times(qp.device, p) }

  /** Every packet is waiting, in flight, freed or returned, as often as it was ever offered. */
  ghost predicate Conserved(c: Core) {
    forall p :: Times(c.offered, p) == Held(c.qps, p) + Times(c.freed, p) + Times(c.returned, p)
  }

  lemma {:induction false} HeldUpdate(qps: seq<Qp>, q: nat, qp: Qp, p: Packet)
    requires q < |qps|
    ensures Held(qps[q := qp], p) + HeldBy(qps[q], p) == Held(qps, p) + HeldBy(qp, p)
  {
    hide HeldBy;
    var u, v := qps[..|qps| - 1], qps[q := qp];
    if q == |qps| - 1 {
      assert v[..|qps| - 1] == u;
    } else {
      assert v[..|qps| - 1] == u[q := qp];
      HeldUpdate(u, q, qp, p);
    }
  }

  lemma {:induction false} GoodAndBad(ops: seq<Packet>, ok: nat -> bool, p: Packet)
    ensures Times(Good(ops, ok), p) + Times(Bad(ops, ok), p) == Times(ops, p)
  {
    if ops != [] {
      var u, last := ops[..|ops| - 1], [ops[|ops| - 1]];
      GoodAndBad(u, ok, p);
      assert ops == u + last;
      TimesPlus(u, last, p);
      TimesPlus(Good(u, ok), last, p);
      TimesPlus(Bad(u, ok), last, p);
    }
  }

  lemma PushConserves(c: Core, q: nat, pkt: Packet, accept: nat)
    requires q < |c.qps|
    requires forall p ::
        Times(c.offered, p) ==
        Held(c.qps, p) + Times(c.freed, p) + Times(c.returned, p) + Times([pkt], p)
    ensures var d := Push(c, q, pkt, accept); Conserved(d) && d.offered == c.offered
  {
    var d := Push(c, q, pkt, accept);
    forall p ensures Times(d.offered, p) == Held(d.qps, p) + Times(d.freed, p) + Times(d.returned, p) {
      hide Held, Count, Times, Marked;
      var qp := c.qps[q];
      var w := Waiting(qp, pkt);
      TimesPlus(qp.waiting, [pkt], p);
      if |w.waiting| != MAX_PKT_BURST {
        HeldUpdate(c.qps, q, w, p);
      } else {
        var n := Count(w, accept);
        HeldUpdate(c.qps, q, Flushed(w, accept), p);
        TimesSplit(w.waiting, n, p);
        TimesPlus(w.device, w.waiting[..n], p);
        TimesPlus(c.freed, w.waiting[n..], p);
        NoTimes(p);
      }
    }
  }

  lemma NoTimes(p: Packet)
    ensures Times([], p) == 0
  {
  }

  lemma EnqueueConserves(c: Core, pkt: Packet, sa: Option<SaId>, choice: Choice)
    requires Safe(c) && (sa.Some? ==> sa.value in c.sas) && Conserved(c)
    ensures var d := Enqueue(c, pkt, sa, choice); Conserved(d) && d.offered == c.offered + [pkt]
  {
    hide Held, QpSafe, Push, Times;
    TimesPlusAll(c.offered, [pkt]);
    TimesPlusAll(c.freed, [pkt]);
    var o := c.(offered := c.offered + [pkt]);
    if sa.Some? && WithSession(o, sa.value, choice.session).Some? && choice.xform {
      var d := WithSession(o, sa.value, choice.session).value;
      PushConserves(d, d.sas[sa.value].cdevIdQp, pkt, choice.accept);
    }
  }

  lemma VisitConserves(c: Core, a: Answer, room: nat)
    requires Safe(c) && |c.qps| > 0 && Conserved(c)
    ensures Conserved(Visit(c, a, room).0)
  {
    var d := Visit(c, a, room).0;
    forall p ensures Times(d.offered, p) == Held(d.qps, p) + Times(d.freed, p) + Times(d.returned, p) {
      hide Held, QpSafe, Taken, Good, Bad, Times;
      var qp := c.qps[c.last];
      var n := TakenFits(qp, a.take, room);
      HeldUpdate(c.qps, c.last, TakeBack(qp, n), p);
      GoodAndBad(qp.device[..n], a.ok, p);
      TimesSplit(qp.device, n, p);
      TimesPlus(c.freed, Bad(qp.device[..n], a.ok), p);
      TimesPlus(c.returned, Good(qp.device[..n], a.ok), p);
    }
  }

  lemma TakenFits(qp: Qp, take: nat, room: nat) returns (n: nat)
    ensures n == Taken(qp, take, room) && n <= |qp.device| && n <= room
  {
    n := Taken(qp, take, room);
  }

  lemma {:induction false} EnqueueAllConserves(c: Core, pkts: seq<Packet>, sas: seq<Option<SaId>>,
      choices: nat -> Choice, n: nat)
    requires Safe(c) && Conserved(c) && n <= |pkts| == |sas|
    requires forall i :: 0 <= i < |sas| ==> sas[i].Some? ==> sas[i].value in c.sas
    ensures var d := EnqueueAll(c, pkts, sas, choices, n); Conserved(d) && d.offered == c.offered + pkts[..n]
  {
    hide Safe, Conserved, Enqueue;
    if n > 0 {
      EnqueueAllConserves(c, pkts, sas, choices, n - 1);
      var d := EnqueueAll(c, pkts, sas, choices, n - 1);
      EnqueueConserves(d, pkts[n - 1], sas[n - 1], choices(n - 1));
      assert pkts[..n] == pkts[..n - 1] + [pkts[n - 1]];
    } else {
      assert pkts[..0] == [];
    }
  }

  lemma DequeueStep(c: Core, answers: nat -> Answer, max: nat, n: nat)
    requires Safe(c) && 0 < n <= |c.qps|
    ensures var (d, out) := Dequeue(c, answers, max, n - 1);
      && d.qps != [] && d.last < |d.qps|
      && var (e, more) := Visit(d, answers(n - 1), if |out| < max then max - |out| else 0);
      Dequeue(c, answers, max, n) == if |out| < max then (e, out + more) else (d, out)
  {
    hide Visit, QpSafe;
  }

  lemma {:induction false} DequeueConserves(c: Core, answers: nat -> Answer, max: nat, n: nat)
    requires Safe(c) && Conserved(c) && n <= |c.qps|
    ensures var (d, out) := Dequeue(c, answers, max, n);
        Conserved(d) && d.returned == c.returned + out && d.sas == c.sas
  {
    hide Conserved, Safe, Dequeue, Visit;
    if n > 0 {
      DequeueConserves(c, answers, max, n - 1);
      DequeueStep(c, answers, max, n);
      var (d, out) := Dequeue(c, answers, max, n - 1);
      if |out| < max {
        VisitConserves(d, answers(n - 1), max - |out|);
        VisitReturns(d, answers(n - 1), max - |out|);
      }
    } else {
      DequeueNone(c, answers, max);
    }
  }

  lemma DequeueNone(c: Core, answers: nat -> Answer, max: nat)
    requires Safe(c)
    ensures Dequeue(c, answers, max, 0) == (c, [])
  {
  }

  lemma VisitReturns(c: Core, a: Answer, room: nat)
    requires Safe(c) && |c.qps| > 0
    ensures var (d, out) := Visit(c, a, room); d.returned == c.returned + out && d.sas == c.sas
  {
  }

  lemma HeldFresh(qps: seq<Qp>, qp: Qp)
    requires qp.waiting == [] && qp.device == []
    ensures forall p :: Held(qps + [qp], p) == Held(qps, p)
  {
    assert (qps + [qp])[..|qps|] == qps;
  }

  lemma AddMappingConserves(c: Core, key: Key, cdev: nat, inserted: bool)
    requires Safe(c) && Conserved(c)
    ensures Conserved(AddMapping(c, key, cdev, inserted))
  {
    hide QpSafe, Held, Times;
    var d := AddMapping(c, key, cdev, inserted);
    var empty := Qp([], 0, [], [], [], []);
    assert d.qps == c.qps || d.qps == c.qps + [empty];
    HeldFresh(c.qps, empty);
  }

  // ---------------------------------------------------------------- runs

  /** What can happen to the queues of one lcore, in any order. */
  datatype Event =
    | Offer(pkts: seq<Packet>, sas: seq<Option<SaId>>, choices: nat -> Choice)
    | Collect(answers: nat -> Answer, max: nat)
    | Map(key: Key, cdev: nat, inserted: bool)

  ghost predicate EventOk(keys: set<SaId>, e: Event) {
    e.Offer? ==> |e.pkts| == |e.sas| && forall i :: 0 <= i < |e.sas| ==> e.sas[i].Some? ==> e.sas[i].value in keys
  }

  function After(c: Core, e: Event): (d: Core)
    requires Safe(c) && EventOk(c.sas.Keys, e)
    ensures Safe(d)
  {
    match e
    case Offer(pkts, sas, choices) => EnqueueAll(c, pkts, sas, choices, |pkts|)
    case Collect(answers, max) => Dequeue(c, answers, max, |c.qps|).0
    case Map(key, cdev, inserted) =>
      AddMappingSafe(c, key, cdev, inserted);
      AddMapping(c, key, cdev, inserted)
  }

  /** No queues, no sessions. */
  function Start(sas: map<SaId, Key>): Core {
    Core([], 0, [], map[], map s | s in sas :: SaState(sas[s], false, 0), [], [], [])
  }

  lemma AfterConserves(c: Core, e: Event)
    requires Safe(c) && EventOk(c.sas.Keys, e) && Conserved(c)
    ensures Conserved(After(c, e))
  {
    hide Conserved, QpSafe, EnqueueAll, Dequeue;
    match e
    case Offer(pkts, sas, choices) => EnqueueAllConserves(c, pkts, sas, choices, |pkts|);
    case Collect(answers, max) => DequeueConserves(c, answers, max, |c.qps|);
    case Map(key, cdev, inserted) => AddMappingConserves(c, key, cdev, inserted);
  }

  lemma {:induction false} DequeueKeepsSas(c: Core, answers: nat -> Answer, max: nat, n: nat)
    requires Safe(c) && n <= |c.qps|
    ensures Dequeue(c, answers, max, n).0.sas == c.sas
  {
    hide Safe, Dequeue, Visit;
    if n > 0 {
      DequeueKeepsSas(c, answers, max, n - 1);
      DequeueStep(c, answers, max, n);
      var (d, out) := Dequeue(c, answers, max, n - 1);
      if |out| < max { VisitReturns(d, answers(n - 1), max - |out|); }
    } else {
      DequeueNone(c, answers, max);
    }
  }

  lemma AfterKeepsSas(c: Core, e: Event)
    requires Safe(c) && EventOk(c.sas.Keys, e)
    ensures After(c, e).sas.Keys == c.sas.Keys
  {
    hide QpSafe, EnqueueAll, Dequeue;
    if e.Collect? { DequeueKeepsSas(c, e.answers, e.max, |c.qps|); }
  }

  function Run(sas: map<SaId, Key>, es: seq<Event>): (c: Core)
    requires forall i :: 0 <= i < |es| ==> EventOk(sas.Keys, es[i])
    ensures Safe(c) && c.sas.Keys == sas.Keys
  {
    if es == [] then
      StartSafe(sas);
      Start(sas)
    else
      var c := Run(sas, es[..|es| - 1]);
      AfterKeepsSas(c, es[|es| - 1]);
      After(c, es[|es| - 1])
  }

  lemma StartSafe(sas: map<SaId, Key>)
    ensures Safe(Start(sas)) && Start(sas).sas.Keys == sas.Keys && Conserved(Start(sas))
  {
    assert Start(sas).sas.Keys == sas.Keys;
  }

  /** On every run: buffers hold less than a burst, the in-flight counts are the lengths of the
      device queues, polling starts at a queue there is, every queue index an SA or a mapping
      holds is one there is, each queue is first in first out, and every packet offered is waiting,
      in flight, freed or returned, exactly as often as it was offered. */
  lemma {:induction false} RunIsSafe(sas: map<SaId, Key>, es: seq<Event>)
    requires forall i :: 0 <= i < |es| ==> EventOk(sas.Keys, es[i])
    ensures var c := Run(sas, es);
      && (c.qps != [] ==> c.last < |c.qps|)
      && (forall q :: 0 <= q < |c.qps| ==> var qp := c.qps[q];
            && |qp.waiting| < MAX_PKT_BURST && qp.inFlight == |qp.device|
            && qp.arrived == Packets(qp.log) + qp.waiting && Accepted(qp.log) == qp.taken + qp.device)
      && (forall s :: s in c.sas && c.sas[s].session ==> c.sas[s].cdevIdQp < |c.qps|)
      && (forall k :: k in c.cdevMap ==> c.cdevMap[k] < |c.qps|)
      && forall p :: Times(c.offered, p) == Held(c.qps, p) + Times(c.freed, p) + Times(c.returned, p)
  {
    hide Times, Held, After, Accepted, Packets;
    if es == [] {
      StartSafe(sas);
    } else {
      var front := es[..|es| - 1];
      RunIsSafe(sas, front);
      AfterConserves(Run(sas, front), es[|es| - 1]);
    }
  }

  // ---------------------------------------------------------------- fairness

  /** The queue visited `k` steps after `last`, round robin. */
  function Turn(last: nat, k: nat, n: nat): nat { if last + k < n then last + k else last + k - n }

  /** A device that gives back all it has, and packets that all transform. */
  ghost predicate Generous(answers: nat -> Answer) {
    forall i :: answers(i).take >= CDEV_QUEUE_DESC && forall j :: answers(i).ok(j)
  }

  lemma {:induction false} AllGood(ops: seq<Packet>, ok: nat -> bool)
    requires forall j :: ok(j)
    ensures Good(ops, ok) == ops
  {
    if ops != [] { AllGood(ops[..|ops| - 1], ok); }
  }

  /** After `n` visits from `last` on: the queues visited are empty, and it is the next one's turn. */
  ghost predicate Emptied(d: Core, last: nat, n: nat) {
    && last <= |d.qps| && n <= |d.qps|
    && (n < |d.qps| ==> d.last == Turn(last, n, |d.qps|))
    && forall k :: 0 <= k < n ==> 0 <= Turn(last, k, |d.qps|) < |d.qps| && d.qps[Turn(last, k, |d.qps|)].device == []
  }

  /** A call that is not stopped by `max` polls every queue once. */
  lemma {:induction false} DequeueEmpties(c: Core, answers: nat -> Answer, max: nat, n: nat)
    requires Safe(c) && n <= |c.qps| && Generous(answers)
    ensures var (d, out) := Dequeue(c, answers, max, n); |out| < max ==> Emptied(d, c.last, n)
  {
    hide Safe, Visit, Turn, Dequeue;
    FirstTurn(c);
    DequeueNone(c, answers, max);
    if n > 0 {
      DequeueEmpties(c, answers, max, n - 1);
      DequeueStep(c, answers, max, n);
      var (d, out) := Dequeue(c, answers, max, n - 1);
      if |out| < max {
        VisitEmpties(d, answers(n - 1), max - |out|, c.last, n - 1);
      }
    }
  }

  lemma FirstTurn(c: Core)
    requires Safe(c)
    ensures c.last <= |c.qps| && (0 < |c.qps| ==> c.last < |c.qps| && c.last == Turn(c.last, 0, |c.qps|))
  {
  }

  lemma VisitEmpties(c: Core, a: Answer, room: nat, last: nat, n: nat)
    requires Safe(c) && n < |c.qps| && Emptied(c, last, n) && last < |c.qps|
    requires a.take >= CDEV_QUEUE_DESC && forall j :: a.ok(j)
    ensures var (d, out) := Visit(c, a, room); |out| <= room && (|out| < room ==> Emptied(d, last, n + 1))
  {
    hide Accepted, Packets;
    var qp := c.qps[c.last];
    assert QpSafe(qp);
    AllGood(qp.device[..Taken(qp, a.take, room)], a.ok);
    var (d, out) := Visit(c, a, room);
    if |out| < room {
      assert d.qps[c.last].device == [];
      assert forall q :: 0 <= q < |c.qps| && q != c.last ==> d.qps[q] == c.qps[q];
    }
  }

  lemma CollectsEverything(c: Core, answers: nat -> Answer, max: nat)
    requires Safe(c) && Generous(answers)
    ensures var (d, out) := Dequeue(c, answers, max, |c.qps|);
      |out| < max ==> forall q :: 0 <= q < |d.qps| ==> d.qps[q].device == []
  {
    hide Dequeue, Safe;
    DequeueEmpties(c, answers, max, |c.qps|);
    var (d, out) := Dequeue(c, answers, max, |c.qps|);
    if |out| < max {
      forall q | 0 <= q < |d.qps|
        ensures d.qps[q].device == []
      {
        var k := if q >= c.last then q - c.last else q + |c.qps| - c.last;
        assert Turn(c.last, k, |c.qps|) == q;
      }
    }
  }
}
