/** TX buffering and the send loop (nat_eval/l3fwd_sse.h, nat_eval/l3fwd.h).

    Each port has a 32-slot buffer in front of the NIC.  The grouped path sends a whole run
    of packets at once, with a shortcut around an empty buffer and a Duff's-device copy; the
    simple path appends one packet at a time.  Both are shown to extend the port's stream,
    which is what was offered to the NIC followed by what is still buffered, in arrival order.
  */
module TxBuffer {
  import opened Basics
  import opened PortGrouping

  const MAX_TX_BURST: nat := MAX_PKT_BURST / 2

  // ---------------------------------------------------------------- specification

  /** A port as its user sees it: packets offered to the NIC so far, packets buffered. */
  datatype Tx = Tx(offered: seq<Mbuf>, buf: seq<Mbuf>) {
    function Stream(): seq<Mbuf> { offered + buf }
  }

  /** One call of `send_packetsx4` with packets `m`. */
  function SendX4(s: Tx, m: seq<Mbuf>): Tx {
    if |m| >= MAX_TX_BURST && s.buf == [] then Tx(s.offered + m, [])
    else if |m| < Room(s.buf) then s.(buf := s.buf + m)
    else Tx(s.offered + (s.buf + m[..Room(s.buf)]), m[Room(s.buf)..])
  }

  function Room(buf: seq<Mbuf>): nat {
    if |buf| < MAX_PKT_BURST then MAX_PKT_BURST - |buf| else 0
  }

  function SendOne(s: Tx, m: Mbuf): Tx {
    if |s.buf| + 1 == MAX_PKT_BURST then Tx(s.offered + (s.buf + [m]), []) else s.(buf := s.buf + [m])
  }

  function Drained(s: Tx): Tx { Tx(s.Stream(), []) }

  datatype Op = Send(m: seq<Mbuf>) | One(p: Mbuf) | Drain

  function AfterOps(s: Tx, ops: seq<Op>): Tx {
    if ops == [] then s
    else
      var t := AfterOps(s, ops[..|ops| - 1]);
      match ops[|ops| - 1]
      case Send(m) => SendX4(t, m)
      case One(p) => SendOne(t, p)
      case Drain => Drained(t)
  }

  function Sent(ops: seq<Op>): seq<Mbuf> {
    if ops == [] then []
    else Sent(ops[..|ops| - 1]) + match ops[|ops| - 1] case Send(m) => m case One(p) => [p] case Drain => []
  }

  /** Over any sequence of sends (of at most a burst each), single packets and drains: the buffer never fills
      up between calls, no packet is lost, duplicated or overtaken, and what has been offered
      to the NIC is never revised. */
  lemma {:induction false} PortIsFifo(s: Tx, ops: seq<Op>)
    requires |s.buf| < MAX_PKT_BURST
    requires forall i :: 0 <= i < |ops| && ops[i].Send? ==> |ops[i].m| <= MAX_PKT_BURST
    ensures |AfterOps(s, ops).buf| < MAX_PKT_BURST
    ensures AfterOps(s, ops).Stream() == s.Stream() + Sent(ops)
    ensures s.offered <= AfterOps(s, ops).offered
  {
    hide SendX4, SendOne;
    if ops == [] {
      assert s.Stream() + [] == s.Stream();
    } else {
      var init := ops[..|ops| - 1];
      PortIsFifo(s, init);
      var t := AfterOps(s, init);
      match ops[|ops| - 1]
      case Send(m) =>
        SendX4Appends(t, m);
        assert s.Stream() + Sent(init) + m == s.Stream() + (Sent(init) + m);
      case One(p) =>
        SendOneAppends(t, p);
        assert s.Stream() + Sent(init) + [p] == s.Stream() + (Sent(init) + [p]);
      case Drain =>
        assert Sent(init) + [] == Sent(init);
    }
  }

  /** After a drain nothing waits: all that was ever sent has been offered. */
  lemma DrainOffersAll(s: Tx, ops: seq<Op>)
    requires |s.buf| < MAX_PKT_BURST && ops != [] && ops[|ops| - 1] == Drain
    requires forall i :: 0 <= i < |ops| && ops[i].Send? ==> |ops[i].m| <= MAX_PKT_BURST
    ensures var t := AfterOps(s, ops); t.buf == [] && t.offered == s.offered + s.buf + Sent(ops)
  {
    hide SendX4, SendOne;
    PortIsFifo(s, ops);
  }

  /** A run waits exactly if, with what waits already, it stays below 32 packets, and it does not meet
      an empty buffer with 16 or more; otherwise all that waited is offered, and then at most a part
      of the run itself waits: what is above 32, or nothing for a run that found the buffer empty. */
  lemma RunWaits(s: Tx, m: seq<Mbuf>)
    requires |s.buf| < 32 && 0 < |m| <= 32
    ensures var t, waits := SendX4(s, m), |s.buf| + |m| < 32 && !(s.buf == [] && |m| >= 16);
      && (t.offered == s.offered <==> waits)
      && (waits ==> t.buf == s.buf + m)
      && (!waits ==> s.Stream() <= t.offered)
      && (!waits ==> |t.buf| == if s.buf == [] && |m| >= 16 then 0 else |s.buf| + |m| - 32)
  {
    var t := SendX4(s, m);
    if !(|m| >= 16 && s.buf == []) && |m| >= Room(s.buf) {
      var k := Room(s.buf);
      assert t.offered == s.Stream() + m[..k];
      assert |t.offered| > |s.offered|;
    }
  }

  /** The simple form is the grouped one on a run of one packet. */
  lemma SendOneIsSendX4(s: Tx, m: Mbuf)
    requires |s.buf| < MAX_PKT_BURST
    ensures SendOne(s, m) == SendX4(s, [m])
  {
    if |s.buf| + 1 == MAX_PKT_BURST {
      assert [m][..1] == [m] && [m][1..] == [];
    }
  }

  lemma SendX4Appends(s: Tx, m: seq<Mbuf>)
    requires |s.buf| < MAX_PKT_BURST && |m| <= MAX_PKT_BURST
    ensures |SendX4(s, m).buf| < MAX_PKT_BURST
    ensures SendX4(s, m).Stream() == s.Stream() + m
    ensures s.offered <= SendX4(s, m).offered
  {
    if |m| >= Room(s.buf) {
      assert m == m[..Room(s.buf)] + m[Room(s.buf)..];
    }
  }

  lemma SendOneAppends(s: Tx, m: Mbuf)
    requires |s.buf| < MAX_PKT_BURST
    ensures |SendOne(s, m).buf| < MAX_PKT_BURST
    ensures SendOne(s, m).Stream() == s.Stream() + [m]
    ensures s.offered <= SendOne(s, m).offered
  {
  }

  // ---------------------------------------------------------------- the copy

  /** The copy written as a switch into a loop.  It copies `n` slots, except that for n == 0
      the switch still enters the loop body once and copies four, which may lie behind the end
      of the source array. */
  function Copied(n: nat): nat { if n == 0 then FWDSTEP else n }

  /** A read behind the end of the array gives whatever lies there. */
  method Read(src: array<Mbuf>, i: nat) returns (v: Mbuf)
    ensures i < src.Length ==> v == src[i]
  {
    if i < src.Length {
      v := src[i];
    } else {
      v := *;
    }
  }

  method CopySlot(dst: array<Mbuf>, at: nat, src: array<Mbuf>, from: nat, j: nat)
    requires dst != src && at + j < dst.Length
    modifies dst
    ensures from + j < src.Length ==> dst[at + j] == src[from + j]
    ensures forall i :: 0 <= i < dst.Length && i != at + j ==> dst[i] == old(dst[i])
  {
    dst[at + j] := Read(src, from + j);
  }

  /** One full pass over the loop body. */
  method CopyFour(dst: array<Mbuf>, at: nat, src: array<Mbuf>, from: nat, j: nat)
    requires dst != src && at + j + FWDSTEP <= dst.Length
    modifies dst
    ensures forall i :: at + j <= i < at + j + FWDSTEP && i - at + from < src.Length ==> dst[i] == src[i - at + from]
    ensures forall i :: 0 <= i < dst.Length && !(at + j <= i < at + j + FWDSTEP) ==> dst[i] == old(dst[i])
  {
    CopySlot(dst, at, src, from, j);
    CopySlot(dst, at, src, from, j + 1);
    CopySlot(dst, at, src, from, j + 2);
    CopySlot(dst, at, src, from, j + 3);
  }

  method DuffCopy(dst: array<Mbuf>, at: nat, src: array<Mbuf>, from: nat, n: nat)
    requires dst != src && at + Copied(n) <= dst.Length && from + n <= src.Length
    modifies dst
    ensures dst[..at + n] == old(dst[..at]) + src[from..from + n]
    ensures forall i :: 0 <= i < dst.Length && !(at <= i < at + Copied(n)) ==> dst[i] == old(dst[i])
  {
    var j := CopyEntry(dst, at, src, from, n);
    ghost var left := (Copied(n) - j) / FWDSTEP;
    while j < n
      invariant Copied(n) == j + FWDSTEP * left && left >= 0
      invariant forall i :: at <= i < at + j && i - at + from < src.Length ==> dst[i] == src[i - at + from]
      invariant forall i :: 0 <= i < dst.Length && !(at <= i < at + j) ==> dst[i] == old(dst[i])
    {
      CopyFour(dst, at, src, from, j);
      j := j + FWDSTEP;
      left := left - 1;
    }
    Glue(dst[..], old(dst[..]), src[..], at, from, n);
    assert dst[..at + n] == dst[..][..at + n];
  }

  lemma Glue(now: seq<Mbuf>, was: seq<Mbuf>, src: seq<Mbuf>, at: nat, from: nat, n: nat)
    requires at + n <= |now| == |was| && from + n <= |src|
    requires forall i :: 0 <= i < at ==> now[i] == was[i]
    requires forall i :: at <= i < at + n ==> now[i] == src[i - at + from]
    ensures now[..at + n] == was[..at] + src[from..from + n]
  {
  }

  /** The entry through the switch: the partial first pass over the loop body. */
  method CopyEntry(dst: array<Mbuf>, at: nat, src: array<Mbuf>, from: nat, n: nat) returns (j: nat)
    requires dst != src && at + Copied(n) <= dst.Length
    modifies dst
    ensures j == (if n % FWDSTEP == 0 then FWDSTEP else n % FWDSTEP)
    ensures forall i :: at <= i < at + j && i - at + from < src.Length ==> dst[i] == src[i - at + from]
    ensures forall i :: 0 <= i < dst.Length && !(at <= i < at + j) ==> dst[i] == old(dst[i])
  {
    j := 0;
    var r := n % FWDSTEP;
    if r == 0 { CopySlot(dst, at, src, from, j); j := j + 1; }
    if r == 0 || r == 3 { CopySlot(dst, at, src, from, j); j := j + 1; }
    if r != 1 { CopySlot(dst, at, src, from, j); j := j + 1; }
    CopySlot(dst, at, src, from, j);
    j := j + 1;
  }

  // ---------------------------------------------------------------- one port

  /** `tx_mbufs[port]` together with a NIC queue that accepts an arbitrary prefix of what it
      is offered; the packets it refuses are freed. */
  class TxPort {
    var len: nat
    const mTable: array<Mbuf>
    ghost var offered: seq<Mbuf>
    ghost var accepted: seq<Mbuf>
    ghost var refused: seq<Mbuf>

    /** Everything offered was either accepted by the NIC or freed once. */
    ghost predicate Settled()
      reads this`offered, this`accepted, this`refused
    {
      multiset(offered) == multiset(accepted) + multiset(refused)
    }

    ghost predicate Valid()
      reads this, mTable
    {
      mTable.Length == MAX_PKT_BURST && len < MAX_PKT_BURST && Settled()
    }

    ghost function Abs(): Tx
      reads this, mTable
      requires len <= mTable.Length
    {
      Tx(offered, mTable[..len])
    }

    constructor ()
      ensures Valid() && fresh(mTable) && Abs() == Tx([], [])
    {
      len := 0;
      mTable := new Mbuf[MAX_PKT_BURST];
      offered, accepted, refused := [], [], [];
    }

    static lemma MultisetSplit(o: seq<Mbuf>, a: seq<Mbuf>, r: seq<Mbuf>, m: seq<Mbuf>, k: nat)
      requires multiset(o) == multiset(a) + multiset(r) && k <= |m|
      ensures multiset(o + m) == multiset(a + m[..k]) + multiset(r + m[k..])
    {
      assert m == m[..k] + m[k..];
    }

    /** The do-while loop over the packets the NIC did not take. */
    method FreeFrom(m: seq<Mbuf>, ret0: nat)
      requires ret0 < |m|
      modifies this`refused
      ensures refused == old(refused) + m[ret0..]
    {
      var ret := ret0;
      refused := refused + [m[ret]];
      ret := ret + 1;
      while ret < |m|
        invariant ret0 < ret <= |m|
        invariant refused == old(refused) + m[ret0..ret]
      {
        refused := refused + [m[ret]];
        ret := ret + 1;
      }
    }

    /** `rte_eth_tx_burst`, then freeing what the NIC did not take. */
    method TxBurst(m: seq<Mbuf>)
      requires Settled()
      modifies this`offered, this`accepted, this`refused
      ensures Settled()
      ensures offered == old(offered) + m
    {
      var ret: nat :| ret <= |m|;
      MultisetSplit(offered, accepted, refused, m, ret);
      offered := offered + m;
      accepted := accepted + m[..ret];
      if ret < |m| {
        FreeFrom(m, ret);
      } else {
        assert refused + m[ret..] == refused;
      }
    }

    method SendBurst(n: nat)
      requires Settled() && n <= mTable.Length
      modifies this`offered, this`accepted, this`refused
      ensures Settled()
      ensures offered == old(offered) + mTable[..n]
    {
      TxBurst(mTable[..n]);
    }

    /** Flush a buffer that has just become full, then keep the rest of the run. */
    method FlushAndRefill(m: array<Mbuf>, from: nat, rest: nat)
      requires Settled() && mTable.Length == MAX_PKT_BURST && m != mTable
      requires rest < MAX_PKT_BURST && from + rest <= m.Length
      modifies this, mTable
      ensures Valid()
      ensures Abs() == Tx(old(offered) + old(mTable[..]), m[from..from + rest])
    {
      hide Settled;
      SendBurst(MAX_PKT_BURST);
      assert mTable[..MAX_PKT_BURST] == mTable[..];
      DuffCopy(mTable, 0, m, from, rest);
      len := rest;
    }

    /** The buffered path of `send_packetsx4`: fill up, and flush when full. */
    method BufferRun(m: array<Mbuf>, from: nat, num: nat)
      requires Valid() && m != mTable
      requires 0 < num <= MAX_PKT_BURST && from + num <= m.Length
      modifies this, mTable
      ensures Valid()
      ensures var n := MAX_PKT_BURST - old(len);
        Abs() == if num < n then Tx(old(offered), old(mTable[..len]) + m[from..from + num])
                 else Tx(old(offered) + (old(mTable[..len]) + m[from..from + n]), m[from + n..from + num])
    {
      hide Settled;
      var l := len;
      var n := l + num;
      n := if n > MAX_PKT_BURST then MAX_PKT_BURST - l else num;
      DuffCopy(mTable, l, m, from, n);
      l := l + n;
      if l == MAX_PKT_BURST {
        assert mTable[..] == mTable[..l];
        FlushAndRefill(m, from + n, num - n);
      } else {
        len := l;
      }
    }

    /** `send_packetsx4`.  When the run fills the buffer exactly, the second copy reads four entries
        past the run, possibly past the array; what it reads is never sent. */
    method SendPacketsX4(m: array<Mbuf>, from: nat, num: nat)
      requires Valid() && m != mTable
      requires 0 < num <= MAX_PKT_BURST && from + num <= m.Length
      modifies this, mTable
      ensures Valid()
      ensures Abs() == SendX4(old(Abs()), m[from..from + num])
    {
      hide Settled;
      ghost var run, n := m[from..from + num], MAX_PKT_BURST - len;
      if num >= MAX_TX_BURST && len == 0 {
        TxBurst(m[from..from + num]);
        assert mTable[..0] == [];
      } else {
        assert num >= n ==> run[..n] == m[from..from + n] && run[n..] == m[from + n..from + num];
        BufferRun(m, from, num);
      }
    }

    /** `send_single_packet`. */
    method SendSinglePacket(m: Mbuf)
      requires Valid()
      modifies this, mTable
      ensures Valid()
      ensures Abs() == SendOne(old(Abs()), m)
    {
      hide Settled;
      var l := len;
      mTable[l] := m;
      l := l + 1;
      assert mTable[..l] == old(mTable[..len]) + [m];
      if l == MAX_PKT_BURST {
        SendBurst(MAX_PKT_BURST);
        l := 0;
      }
      len := l;
    }

    /** The drain step of the main loop. */
    method DrainPort()
      requires Valid()
      modifies this
      ensures Valid()
      ensures Abs() == Drained(old(Abs()))
    {
      hide Settled;
      if len == 0 {
        return;
      }
      SendBurst(len);
      len := 0;
    }
  }
}
