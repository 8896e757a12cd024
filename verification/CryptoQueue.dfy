/** The crypto queues of one lcore as a state machine (ipsec_eval/ipsec.c, `add_mapping` of
    ipsec_eval/ipsec-secgw.c).  Packets wait in a queue's buffer, are handed to the device 32 at a
    time, come back in order, and are returned or freed.  What the device, the session creation and
    the packet transformation decide is an argument of every step. */
module CryptoQueue {
  import opened Basics

  type Packet = nat
  type SaId = nat
  type Key = nat // cipher and authentication algorithm; the lcore is fixed

  const MAX_QP_PER_LCORE: nat := 256
  const CDEV_QUEUE_DESC: nat := 2048

  /** A queue pair: buffer, count of packets in flight, and the device's own queue; then the
      history: all that arrived, what became of it when it was handed over (true: accepted), and
      all that was taken back. */
  datatype Qp = Qp(waiting: seq<Packet>, inFlight: nat, device: seq<Packet>,
                   arrived: seq<Packet>, log: seq<(Packet, bool)>, taken: seq<Packet>)

  datatype SaState = SaState(key: Key, session: bool, cdevIdQp: nat)

  datatype Core = Core(qps: seq<Qp>, last: nat, cdevs: seq<nat>, cdevMap: map<Key, nat>, sas: map<SaId, SaState>,
                       offered: seq<Packet>, freed: seq<Packet>, returned: seq<Packet>)

  // ---------------------------------------------------------------- history

  function Packets(log: seq<(Packet, bool)>): (p: seq<Packet>)
    ensures |p| == |log|
  {
    seq(|log|, i requires 0 <= i < |log| => log[i].0)
  }

  function Accepted(log: seq<(Packet, bool)>): seq<Packet> {
    if log == [] then []
    else Accepted(log[..|log| - 1]) + if log[|log| - 1].1 then [log[|log| - 1].0] else []
  }

  /** The first `n` packets accepted, the others not. */
  function Marked(w: seq<Packet>, n: nat): (log: seq<(Packet, bool)>)
    ensures |log| == |w|
  {
    seq(|w|, i requires 0 <= i < |w| => (w[i], i < n))
  }

  lemma {:induction false} AcceptedMore(log: seq<(Packet, bool)>, w: seq<Packet>, n: nat)
    requires n <= |w|
    ensures Accepted(log + Marked(w, n)) == Accepted(log) + w[..n]
  {
    if w == [] {
      assert log + Marked(w, n) == log;
    } else {
      var u, k := w[..|w| - 1], Min(n, |w| - 1);
      var m := log + Marked(w, n);
      assert m[..|m| - 1] == log + Marked(u, k);
      AcceptedMore(log, u, k);
      assert w[..n] == u[..k] + if |w| - 1 < n then [w[|w| - 1]] else [];
    }
  }

  // ---------------------------------------------------------------- steps

  /** How many packets the device accepts: as many as it likes, if it has room for them. */
  function Count(qp: Qp, accept: nat): (n: nat)
    ensures n <= |qp.waiting| && (|qp.device| <= CDEV_QUEUE_DESC ==> |qp.device| + n <= CDEV_QUEUE_DESC)
  {
    if |qp.device| > CDEV_QUEUE_DESC then 0
    else Min(accept, Min(|qp.waiting|, CDEV_QUEUE_DESC - |qp.device|))
  }

  function Flushed(qp: Qp, accept: nat): Qp {
    var n := Count(qp, accept);
    qp.(waiting := [], inFlight := (qp.inFlight + n) % U16, device := qp.device + qp.waiting[..n],
        log := qp.log + Marked(qp.waiting, n))
  }

  function Waiting(qp: Qp, pkt: Packet): Qp {
    qp.(waiting := qp.waiting + [pkt], arrived := qp.arrived + [pkt])
  }

  /** `enqueue_cop`. */
  function Push(c: Core, q: nat, pkt: Packet, accept: nat): Core
    requires q < |c.qps|
  {
    var qp := Waiting(c.qps[q], pkt);
    if |qp.waiting| != MAX_PKT_BURST then c.(qps := c.qps[q := qp])
    else c.(qps := c.qps[q := Flushed(qp, accept)], freed := c.freed + qp.waiting[Count(qp, accept)..])
  }

  function Drop(c: Core, pkt: Packet): Core { c.(freed := c.freed + [pkt]) }

  /** Decisions taken outside: does the session creation give a session, does the transformation
      succeed, how many packets does the device accept. */
  datatype Choice = Choice(session: bool, xform: bool, accept: nat)

  /** `create_session`, where the SA has none yet; None where no device fits. */
  function WithSession(c: Core, sa: SaId, created: bool): Option<Core>
    requires sa in c.sas
  {
    var s := c.sas[sa];
    if s.session then Some(c)
    else if s.key !in c.cdevMap then None
    else Some(c.(sas := c.sas[sa := s.(session := created, cdevIdQp := c.cdevMap[s.key])]))
  }

  /** One packet of `ipsec_enqueue`. */
  function Enqueue(c: Core, pkt: Packet, sa: Option<SaId>, choice: Choice): Core
    requires Safe(c) && (sa.Some? ==> sa.value in c.sas)
  {
    var o := c.(offered := c.offered + [pkt]);
    if sa.None? then Drop(o, pkt)
    else
      match WithSession(o, sa.value, choice.session)
      case None => Drop(o, pkt)
      case Some(d) =>
        if !choice.xform then Drop(d, pkt)
        else Push(d, d.sas[sa.value].cdevIdQp, pkt, choice.accept)
  }

  function EnqueueAll(c: Core, pkts: seq<Packet>, sas: seq<Option<SaId>>, choices: nat -> Choice, n: nat): (d: Core)
    requires Safe(c) && n <= |pkts| == |sas|
    requires forall i :: 0 <= i < |sas| ==> sas[i].Some? ==> sas[i].value in c.sas
    ensures Safe(d) && d.sas.Keys == c.sas.Keys
  {
    if n == 0 then c
    else
      var d := EnqueueAll(c, pkts, sas, choices, n - 1);
      EnqueueSafe(d, pkts[n - 1], sas[n - 1], choices(n - 1));
      Enqueue(d, pkts[n - 1], sas[n - 1], choices(n - 1))
  }

  /** The packets of `ops` whose transformation succeeds, and the others. */
  function Good(ops: seq<Packet>, ok: nat -> bool): seq<Packet> {
    if ops == [] then []
    else Good(ops[..|ops| - 1], ok) + if ok(|ops| - 1) then [ops[|ops| - 1]] else []
  }

  function Bad(ops: seq<Packet>, ok: nat -> bool): seq<Packet> {
    if ops == [] then []
    else Bad(ops[..|ops| - 1], ok) + if ok(|ops| - 1) then [] else [ops[|ops| - 1]]
  }

  /** What `ipsec_dequeue` is told by the outside at each queue it visits. */
  datatype Answer = Answer(take: nat, ok: nat -> bool)

  function Taken(qp: Qp, take: nat, room: nat): nat {
    if qp.inFlight == 0 then 0 else Min(take, Min(|qp.device|, room))
  }

  function TakeBack(qp: Qp, n: nat): Qp
    requires n <= |qp.device|
  {
    qp.(inFlight := (qp.inFlight - n) % U16, device := qp.device[n..], taken := qp.taken + qp.device[..n])
  }

  /** One queue visited by `ipsec_dequeue`, with room for `room` more packets. */
  function Visit(c: Core, a: Answer, room: nat): (Core, seq<Packet>)
    requires c.last < |c.qps|
  {
    var qp := c.qps[c.last];
    var n := Taken(qp, a.take, room);
    var good := Good(qp.device[..n], a.ok);
    (c.(qps := c.qps[c.last := TakeBack(qp, n)],
        last := if c.last + 1 == |c.qps| then 0 else c.last + 1,
        freed := c.freed + Bad(qp.device[..n], a.ok),
        returned := c.returned + good),
     good)
  }

  /** `ipsec_dequeue` after visiting `n` queues or being full. */
  function Dequeue(c: Core, answers: nat -> Answer, max: nat, n: nat): (r: (Core, seq<Packet>))
    requires Safe(c) && n <= |c.qps|
    ensures Safe(r.0) && |r.0.qps| == |c.qps| && |r.1| <= max
  {
    if n == 0 then (c, [])
    else
      var (d, out) := Dequeue(c, answers, max, n - 1);
      if |out| >= max then (d, out)
      else
        VisitSafe(d, answers(n - 1), max - |out|);
        var (e, more) := Visit(d, answers(n - 1), max - |out|);
        (e, out + more)
  }

  /** `add_mapping`: a queue of the device is reused or, if there is room, added; `inserted` says
      whether the hash table takes the key. */
  function AddMapping(c: Core, key: Key, cdev: nat, inserted: bool): Core
    requires |c.cdevs| == |c.qps|
  {
    if key in c.cdevMap then c
    else
      var i := FirstIndex(c.cdevs, cdev);
      if i == |c.qps| == MAX_QP_PER_LCORE then c
      else
        var d := if i < |c.qps| then c else c.(qps := c.qps + [Qp([], 0, [], [], [], [])], cdevs := c.cdevs + [cdev]);
        if inserted then d.(cdevMap := d.cdevMap[key := i]) else d
  }

  function FirstIndex(s: seq<nat>, x: nat): (i: nat)
    ensures i <= |s| && (i < |s| ==> s[i] == x)
    ensures forall j :: 0 <= j < i ==> s[j] != x
  {
    if s == [] then 0
    else
      var i := FirstIndex(s[..|s| - 1], x);
      if i < |s| - 1 then i else if s[|s| - 1] == x then |s| - 1 else |s|
  }

  // ---------------------------------------------------------------- safety

  /** A queue between calls: less than a burst waiting, the count right, packets in order. */
  ghost predicate QpSafe(qp: Qp) {
    && |qp.waiting| < MAX_PKT_BURST
    && qp.inFlight == |qp.device| <= CDEV_QUEUE_DESC
    && qp.arrived == Packets(qp.log) + qp.waiting
    && Accepted(qp.log) == qp.taken + qp.device
  }

  ghost predicate Safe(c: Core) {
    && |c.cdevs| == |c.qps| <= MAX_QP_PER_LCORE
    && (c.last < |c.qps| || c.last == 0)
    && (forall q :: 0 <= q < |c.qps| ==> QpSafe(c.qps[q]))
    && (forall k :: k in c.cdevMap ==> c.cdevMap[k] < |c.qps|)
    && (forall s :: s in c.sas && c.sas[s].session ==> c.sas[s].cdevIdQp < |c.qps|)
  }

  lemma PushSafe(qp: Qp, pkt: Packet, accept: nat)
    requires QpSafe(qp)
    ensures var w := Waiting(qp, pkt); QpSafe(if |w.waiting| != MAX_PKT_BURST then w else Flushed(w, accept))
  {
    var w := Waiting(qp, pkt);
    if |w.waiting| == MAX_PKT_BURST {
      var n := Count(w, accept);
      AcceptedMore(w.log, w.waiting, n);
      assert Packets(w.log + Marked(w.waiting, n)) == Packets(w.log) + w.waiting;
    }
  }

  lemma EnqueueSafe(c: Core, pkt: Packet, sa: Option<SaId>, choice: Choice)
    requires Safe(c) && (sa.Some? ==> sa.value in c.sas)
    ensures var d := Enqueue(c, pkt, sa, choice); Safe(d) && d.sas.Keys == c.sas.Keys
  {
    hide QpSafe, Waiting, Flushed, Count;
    var o := c.(offered := c.offered + [pkt]);
    if sa.Some? && WithSession(o, sa.value, choice.session).Some? {
      var d := WithSession(o, sa.value, choice.session).value;
      PushSafe(d.qps[d.sas[sa.value].cdevIdQp], pkt, choice.accept);
    }
  }

  lemma VisitSafe(c: Core, a: Answer, room: nat)
    requires Safe(c) && |c.qps| > 0
    ensures var (d, out) := Visit(c, a, room); Safe(d) && |d.qps| == |c.qps| && |out| <= room
  {
    hide Accepted, Packets;
    var qp := c.qps[c.last];
    var n := Taken(qp, a.take, room);
    GoodAtMost(qp.device[..n], a.ok);
    assert qp.taken + qp.device == qp.taken + qp.device[..n] + qp.device[n..];
  }

  lemma {:induction false} GoodAtMost(ops: seq<Packet>, ok: nat -> bool)
    ensures |Good(ops, ok)| <= |ops|
  {
    if ops != [] { GoodAtMost(ops[..|ops| - 1], ok); }
  }

  lemma AddMappingSafe(c: Core, key: Key, cdev: nat, inserted: bool)
    requires Safe(c)
    ensures Safe(AddMapping(c, key, cdev, inserted))
  {
    var qp := Qp([], 0, [], [], [], []);
    assert Packets(qp.log) == [];
    assert QpSafe(qp);
  }
}
