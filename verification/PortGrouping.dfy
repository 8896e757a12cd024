/** Grouping of a burst of packets by destination port (nat_eval/l3fwd_sse.h).

    The code compares four neighbouring ports at a time, looks the 4-bit result up in a
    table of prebuilt counters, and keeps a moving pointer `lp` to the counter of the run
    that is still open.  Here a "run" is a maximal stretch of equal destination ports, and
    the result proved is that the counter at every run head is the length of its run.
  */
module PortGrouping {
  import opened Basics

  const FWDSTEP: nat := 4
  const GRPMSK: nat := 15
  const BAD_PORT: nat := 0xFFFF
  const NEVER_USED: nat := BAD_PORT - 1

  /** What the destination-port logic looks at in a packet.  `totalLength` is the length
      field of the IPv4 header as the little-endian machine loads it. */
  datatype Mbuf = Mbuf(id: nat, isIpv4: bool, versionIhl: Byte, totalLength: Short)

  // ---------------------------------------------------------------- RFC 1812 check

  const IPV4_MIN_VER_IHL: nat := 0x45
  const IPV4_MAX_VER_IHL_DIFF: nat := 0x4f - 0x45
  const IPV4_MIN_LEN_BE: nat := 20 * 0x100

  /** The port after `rfc1812_process`: BAD_PORT for an IPv4 packet that fails the checks. */
  function Rfc1812(m: Mbuf, port: nat): nat {
    if m.isIpv4 then
      var ihl := (m.versionIhl - IPV4_MIN_VER_IHL) % 0x100;
      if ihl > IPV4_MAX_VER_IHL_DIFF || (m.totalLength % 0x100 == 0 && m.totalLength < IPV4_MIN_LEN_BE) then BAD_PORT
      else port
    else port
  }

  /** The checks of section 5.2.2 of RFC 1812 that the comment lists: an IPv4 packet of another
      version, with a header below 20 bytes or a total length below 20 fails. */
  predicate Fails(m: Mbuf) {
    var version: nat, ihl: nat := m.versionIhl / 16, m.versionIhl % 16;
    var length: nat := m.totalLength % 0x100 * 0x100 + m.totalLength / 0x100;
    m.isIpv4 && (version != 4 || ihl < 5 || length < 20)
  }

  /** The single wrapping subtraction and the byte-swapped comparison are exactly these checks; a
      packet that is not IPv4 or passes them keeps the port it was given. */
  lemma Rfc1812Checks(m: Mbuf, port: nat)
    ensures Rfc1812(m, port) == if Fails(m) then BAD_PORT else port
  {
    var v: nat, t: nat := m.versionIhl, m.totalLength;
    var length := t % 0x100 * 0x100 + t / 0x100;
    assert t % 0x100 == 0 && t < IPV4_MIN_LEN_BE <==> length < 20;
    assert v / 16 == 4 && v % 16 >= 5 <==> 0x45 <= v <= 0x4f;
  }

  /** The ports after the checks. */
  function FinalPorts(pkts: seq<Mbuf>, ports: seq<nat>): (d: seq<nat>)
    requires |pkts| == |ports|
    ensures |d| == |pkts|
    ensures forall i :: 0 <= i < |d| ==> d[i] == if Fails(pkts[i]) then BAD_PORT else ports[i]
    ensures forall i :: 0 <= i < |d| ==> d[i] == Rfc1812(pkts[i], ports[i])
  {
    AllChecked(pkts, ports);
    seq(|pkts|, i requires 0 <= i < |pkts| => Rfc1812(pkts[i], ports[i]))
  }

  lemma AllChecked(pkts: seq<Mbuf>, ports: seq<nat>)
    requires |pkts| == |ports|
    ensures forall i :: 0 <= i < |pkts| ==> Rfc1812(pkts[i], ports[i]) == if Fails(pkts[i]) then BAD_PORT else ports[i]
  {
    forall i | 0 <= i < |pkts|
      ensures Rfc1812(pkts[i], ports[i]) == if Fails(pkts[i]) then BAD_PORT else ports[i]
    {
      Rfc1812Checks(pkts[i], ports[i]);
    }
  }

  // ---------------------------------------------------------------- runs

  ghost predicate RunHead(d: seq<nat>, i: nat) {
    i < |d| && (i == 0 || d[i - 1] != d[i])
  }

  ghost predicate Run(d: seq<nat>, i: nat, e: nat) {
    RunHead(d, i) && i < e <= |d| && forall k :: i <= k < e ==> d[k] == d[i]
  }

  ghost predicate MaximalRun(d: seq<nat>, i: nat, e: nat) {
    Run(d, i, e) && (e == |d| || d[e] != d[i])
  }

  /** Every run head below `h` carries the length of its run. */
  ghost predicate Grouped(d: seq<nat>, pnum: seq<nat>, h: nat) {
    h <= |d| && h <= |pnum| &&
        forall i {:trigger RunHead(d, i)} :: 0 <= i < h && RunHead(d, i) ==> MaximalRun(d, i, i + pnum[i])
  }

  /** All runs before `lp` are closed and right; the run at `lp` is open, reaches index `e`,
      and its counter says so. */
  ghost predicate OpenAt(d: seq<nat>, e: nat, pnum: seq<nat>, lp: nat): (b: bool)
    ensures b ==> lp < e <= |d| && lp < |pnum| && pnum[lp] == e - lp
  {
    && lp < |pnum|
    && Run(d, lp, e)
    && pnum[lp] == e - lp
    && Grouped(d, pnum, lp)
  }

  lemma NoHeadInside(d: seq<nat>, lp: nat, e: nat)
    requires Run(d, lp, e)
    ensures forall i :: lp < i < e ==> !RunHead(d, i)
  {
    forall i | lp < i < e
      ensures !RunHead(d, i)
    {
      assert d[i - 1] == d[lp] && d[i] == d[lp];
    }
  }

  lemma OpenIsGrouped(d: seq<nat>, pnum: seq<nat>, lp: nat)
    requires OpenAt(d, |d|, pnum, lp) && |d| <= |pnum|
    ensures Grouped(d, pnum, |d|)
  {
    NoHeadInside(d, lp, |d|);
  }

  /** Only the ports below the end matter. */
  lemma OpenPrefix(d: seq<nat>, d': seq<nat>, e: nat, pnum: seq<nat>, lp: nat)
    requires OpenAt(d, e, pnum, lp) && e <= |d'| && forall i :: 0 <= i < e ==> d'[i] == d[i]
    ensures OpenAt(d', e, pnum, lp)
  {
    assert RunHead(d', lp);
    forall i | 0 <= i < lp && RunHead(d', i)
      ensures MaximalRun(d', i, i + pnum[i])
    {
      assert RunHead(d, i);
      assert MaximalRun(d, i, i + pnum[i]);
      NoHeadInside(d, i, i + pnum[i]);
    }
  }

  /** The send loop moves from head to head: a run that ends before the burst is followed by
      another run head. */
  lemma RunsTile(d: seq<nat>, i: nat, e: nat)
    requires MaximalRun(d, i, e)
    ensures e == |d| || RunHead(d, e)
  {
    assert d[e - 1] == d[i];
  }

  // ---------------------------------------------------------------- the table

  /** `pnum` packs four 16-bit counters, lowest lane first. */
  datatype GroupEntry = GroupEntry(pnum: nat, idx: nat, lpv: nat)

  const GPTBL: seq<GroupEntry> := [
    GroupEntry(0x0001_0001_0001_0001, 4, 0),
    GroupEntry(0x0001_0001_0001_0002, 4, 1),
    GroupEntry(0x0001_0001_0002_0001, 4, 0),
    GroupEntry(0x0001_0001_0002_0003, 4, 2),
    GroupEntry(0x0001_0002_0001_0001, 4, 0),
    GroupEntry(0x0001_0002_0001_0002, 4, 1),
    GroupEntry(0x0001_0002_0003_0001, 4, 0),
    GroupEntry(0x0001_0002_0003_0004, 4, 3),
    GroupEntry(0x0002_0001_0001_0001, 3, 0),
    GroupEntry(0x0002_0001_0001_0002, 3, 1),
    GroupEntry(0x0002_0001_0002_0001, 3, 0),
    GroupEntry(0x0002_0001_0002_0003, 3, 2),
    GroupEntry(0x0002_0003_0001_0001, 2, 0),
    GroupEntry(0x0002_0003_0001_0002, 2, 1),
    GroupEntry(0x0002_0003_0004_0001, 1, 0),
    GroupEntry(0x0002_0003_0004_0005, 0, 4)
  ]

  function Entry(v: nat): GroupEntry
    requires v <= GRPMSK
  {
    GPTBL[v]
  }

  function Lane(p: nat, i: nat): nat
    requires i < 4
  {
    if i == 0 then p % U16
    else if i == 1 then p / U16 % U16
    else if i == 2 then p / 0x1_0000_0000 % U16
    else p / 0x1_0000_0000_0000 % U16
  }

  function Bit(b: bool): nat { if b then 1 else 0 }

  function EqMask(dp1: seq<nat>, dp2: seq<nat>): (v: nat)
    requires |dp1| == |dp2| == FWDSTEP
    ensures v <= GRPMSK
  {
    Bit(dp1[0] == dp2[0]) + 2 * Bit(dp1[1] == dp2[1]) + 4 * Bit(dp1[2] == dp2[2]) + 8 * Bit(dp1[3] == dp2[3])
  }

  /** The scalar step GROUP_PORT_STEP, on values: extend the open run or open a new one. */
  ghost function Step(d: seq<nat>, n: nat, pnum: seq<nat>, lp: nat): (seq<nat>, nat)
    requires 0 < n < |d| && n < |pnum| && lp < |pnum|
  {
    if d[n - 1] == d[n] then (pnum[lp := pnum[lp] + 1], lp) else (pnum[n := 1], n)
  }

  lemma StepKeepsOpen(d: seq<nat>, n: nat, pnum: seq<nat>, lp: nat)
    requires 0 < n < |d| && n < |pnum|
    requires OpenAt(d, n, pnum, lp)
    ensures var (pnum', lp') := Step(d, n, pnum, lp); OpenAt(d, n + 1, pnum', lp')
  {
    NoHeadInside(d, lp, n);
  }

  /** One table row against four scalar steps with the same outcomes of the comparisons: the
      entry point `lp`, the counter of the run that was open, and the counters of the run
      heads inside the group agree. */
  lemma TableRow(e0: bool, e1: bool, e2: bool, e3: bool)
    ensures
      var g := Entry(Bit(e0) + 2 * Bit(e1) + 4 * Bit(e2) + 8 * Bit(e3));
      && g.lpv == (if !e0 then 0 else if !e1 then 1 else if !e2 then 2 else if !e3 then 3 else 4)
      && Lane(g.pnum, 0) == 1 + g.lpv
      && (e0 || Lane(g.pnum, 1) == (if !e1 then 1 else if !e2 then 2 else if !e3 then 3 else 4))
      && (e1 || Lane(g.pnum, 2) == (if !e2 then 1 else if !e3 then 2 else 3))
      && (e2 || Lane(g.pnum, 3) == (if !e3 then 1 else 2))
      && g.idx == (if !e3 then 4 else if !e2 then 3 else if !e1 then 2 else if !e0 then 1 else 0)
  {
    var v := Bit(e0) + 2 * Bit(e1) + 4 * Bit(e2) + 8 * Bit(e3);
    var g := Entry(v);
    if e3 {
      assert v >= 8;
    } else {
      assert v < 8;
    }
  }

  /** One vectorised step: takes an open grouping that ends at `base` to one that ends four
      ports later.  `d` is the destination-port sequence up to and including the port that
      follows the group; `lp` may lie any number of groups back. */
  method PortGroupX4(pn: array<nat>, base: nat, lp0: nat, dp1: seq<nat>, dp2: seq<nat>, ghost d: seq<nat>)
    returns (lp: nat)
    requires base + FWDSTEP < pn.Length && pn.Length < U16
    requires |d| > base + FWDSTEP
    requires dp1 == d[base..base + 4] && dp2 == d[base + 1..base + 5]
    requires OpenAt(d, base + 1, pn[..], lp0)
    modifies pn
    ensures OpenAt(d, base + 5, pn[..], lp)
  {
    hide OpenAt, Entry, Lane;
    ghost var was := pn[..];
    lp := lp0;
    var v := EqMask(dp1, dp2);
    pn[lp] := (pn[lp] + Entry(v).lpv) % U16;
    if v != GRPMSK {
      var p := Entry(v).pnum;
      pn[base], pn[base + 1], pn[base + 2], pn[base + 3] := Lane(p, 0), Lane(p, 1), Lane(p, 2), Lane(p, 3);
      pn[base + FWDSTEP] := 1;
      lp := base + Entry(v).idx;
    }
    ghost var e0, e1, e2, e3 := d[base] == d[base + 1], d[base + 1] == d[base + 2], d[base + 2] == d[base + 3],
        d[base + 3] == d[base + 4];
    assert v == Bit(e0) + 2 * Bit(e1) + 4 * Bit(e2) + 8 * Bit(e3);
    TableRow(e0, e1, e2, e3);
    hide Bit;
    FourSteps(was, pn[..], d, base, lp0, lp);
  }

  /** What the vectorised step leaves behind, when it agrees with four scalar steps at the
      run heads, is an open grouping. */
  lemma FourSteps(was: seq<nat>, now: seq<nat>, d: seq<nat>, base: nat, lp0: nat, lp: nat)
    requires |was| == |now| > base + FWDSTEP && |d| > base + FWDSTEP
    requires OpenAt(d, base + 1, was, lp0)
    requires
      var e0, e1, e2, e3 := d[base] == d[base + 1], d[base + 1] == d[base + 2], d[base + 2] == d[base + 3],
          d[base + 3] == d[base + 4];
      && now[lp0] == was[lp0] + (if !e0 then 0 else if !e1 then 1 else if !e2 then 2 else if !e3 then 3 else 4)
      && (e0 || now[base + 1] == (if !e1 then 1 else if !e2 then 2 else if !e3 then 3 else 4))
      && (e1 || now[base + 2] == (if !e2 then 1 else if !e3 then 2 else 3))
      && (e2 || now[base + 3] == (if !e3 then 1 else 2))
      && (e3 || now[base + 4] == 1)
      && lp == (if !e3 then base + 4 else if !e2 then base + 3 else if !e1 then base + 2 else if !e0 then base + 1
          else lp0)
    requires forall i :: 0 <= i < base && i != lp0 ==> now[i] == was[i]
    ensures OpenAt(d, base + 5, now, lp)
  {
    var (p4, l4) := FourScalar(was, d, base, lp0);
    FourScalarOpen(was, d, base, lp0);
    FourScalarValues(was, d, base, lp0);
    NoHeadInside(d, lp0, base + 1);
    OpenAgrees(d, base + 5, p4, now, lp);
  }

  lemma OpenAgrees(d: seq<nat>, e: nat, p: seq<nat>, q: seq<nat>, lp: nat)
    requires OpenAt(d, e, p, lp) && |p| == |q|
    requires forall i :: 0 <= i <= lp && RunHead(d, i) ==> q[i] == p[i]
    ensures OpenAt(d, e, q, lp)
  {
  }

  ghost function FourScalar(was: seq<nat>, d: seq<nat>, base: nat, lp0: nat): (r: (seq<nat>, nat))
    requires |was| > base + FWDSTEP && |d| > base + FWDSTEP && lp0 <= base
  {
    var (p1, l1) := Step(d, base + 1, was, lp0);
    var (p2, l2) := Step(d, base + 2, p1, l1);
    var (p3, l3) := Step(d, base + 3, p2, l2);
    Step(d, base + 4, p3, l3)
  }

  lemma FourScalarOpen(was: seq<nat>, d: seq<nat>, base: nat, lp0: nat)
    requires |was| > base + FWDSTEP && |d| > base + FWDSTEP && lp0 <= base
    requires OpenAt(d, base + 1, was, lp0)
    ensures var (p4, l4) := FourScalar(was, d, base, lp0); OpenAt(d, base + 5, p4, l4)
  {
    hide OpenAt;
    StepKeepsOpen(d, base + 1, was, lp0);
    var (p1, l1) := Step(d, base + 1, was, lp0);
    StepKeepsOpen(d, base + 2, p1, l1);
    var (p2, l2) := Step(d, base + 2, p1, l1);
    StepKeepsOpen(d, base + 3, p2, l2);
    var (p3, l3) := Step(d, base + 3, p2, l2);
    StepKeepsOpen(d, base + 4, p3, l3);
  }

  lemma FourScalarValues(was: seq<nat>, d: seq<nat>, base: nat, lp0: nat)
    requires |was| > base + FWDSTEP && |d| > base + FWDSTEP && lp0 <= base
    ensures
      var (p4, l4) := FourScalar(was, d, base, lp0);
      var e0, e1, e2, e3 := d[base] == d[base + 1], d[base + 1] == d[base + 2], d[base + 2] == d[base + 3],
          d[base + 3] == d[base + 4];
      && |p4| == |was|
      && l4 == (if !e3 then base + 4 else if !e2 then base + 3 else if !e1 then base + 2 else if !e0 then base + 1
          else lp0)
      && (forall i :: 0 <= i <= base && i != lp0 ==> p4[i] == was[i])
      && p4[lp0] == was[lp0] + (if !e0 then 0 else if !e1 then 1 else if !e2 then 2 else if !e3 then 3 else 4)
      && (e0 || p4[base + 1] == (if !e1 then 1 else if !e2 then 2 else if !e3 then 3 else 4))
      && (e1 || p4[base + 2] == (if !e2 then 1 else if !e3 then 2 else 3))
      && (e2 || p4[base + 3] == (if !e3 then 1 else 2))
      && (e3 || p4[base + 4] == 1)
  {
  }

  // ---------------------------------------------------------------- the whole burst

  /** The last vectorised step repeats the last port; taking one off the open counter removes
      the repeated port again. */
  lemma DropRepeated(d: seq<nat>, k: nat, pnum: seq<nat>, lp: nat)
    requires 0 < k <= |d| && OpenAt(d[..k] + [d[k - 1]], k + 1, pnum, lp)
    ensures lp < k && pnum[lp] >= 2
    ensures OpenAt(d, k, pnum[lp := pnum[lp] - 1], lp)
  {
    var e := d[..k] + [d[k - 1]];
    assert e[k - 1] == e[k];
    assert !RunHead(e, k);
    OpenPrefix(e, d, k, pnum[lp := pnum[lp] - 1], lp);
  }

  /** Four packets at once: MAC rewriting is not modelled, the port update is. */
  method ProcessX4(pkts: array<Mbuf>, dst: array<nat>, j: nat)
    requires j + FWDSTEP <= pkts.Length && j + FWDSTEP <= dst.Length
    modifies dst
    ensures forall i :: j <= i < j + FWDSTEP ==> dst[i] == Rfc1812(pkts[i], old(dst[i]))
    ensures forall i :: 0 <= i < dst.Length && !(j <= i < j + FWDSTEP) ==> dst[i] == old(dst[i])
  {
    dst[j] := Rfc1812(pkts[j], dst[j]);
    dst[j + 1] := Rfc1812(pkts[j + 1], dst[j + 1]);
    dst[j + 2] := Rfc1812(pkts[j + 2], dst[j + 2]);
    dst[j + 3] := Rfc1812(pkts[j + 3], dst[j + 3]);
  }

  /** The grouping goes wrong for exactly one family of bursts: fewer than four packets, the
      first of them bound for the "never used" port. */
  predicate FooledByNeverUsed(d: seq<nat>) {
    0 < |d| < FWDSTEP && d[0] == NEVER_USED
  }

  /** State after the first `j` packets.  A burst of fewer than four packets starts with no
      run, the "never used" port and the spare counter at the end of `pnum`; in a fooled burst
      the first counter keeps whatever value `was0` the uninitialised array held. */
  ghost predicate TailState(d: seq<nat>, j: nat, pnum: seq<nat>, lp: nat, dlp: nat, was0: nat) {
    && j <= |d| && lp < |pnum|
    && (j == 0 ==> lp == |pnum| - 1 && dlp == NEVER_USED && pnum[0] == was0)
    && (j > 0 ==> dlp == d[j - 1] && if FooledByNeverUsed(d) then lp > 0 && pnum[0] == was0 else OpenAt(d, j, pnum, lp))
  }

  /** `process_packet` and GROUP_PORT_STEP for packet `j`. */
  method ScalarStep(pkts: array<Mbuf>, dst: array<nat>, pnum: array<nat>, j: nat, lp0: nat, dlp0: nat,
      ghost d: seq<nat>, ghost was0: nat)
    returns (lp: nat, dlp: nat)
    requires j < pkts.Length && j < dst.Length && dst != pnum
    requires j < |d| < pnum.Length < U16 && (j == 0 ==> |d| < FWDSTEP)
    requires d[j] == Rfc1812(pkts[j], dst[j])
    requires TailState(d, j, pnum[..], lp0, dlp0, was0)
    modifies dst, pnum
    ensures dst[j] == d[j] && forall i :: 0 <= i < dst.Length && i != j ==> dst[i] == old(dst[i])
    ensures TailState(d, j + 1, pnum[..], lp, dlp, was0)
  {
    ghost var was := pnum[..];
    dst[j] := Rfc1812(pkts[j], dst[j]);
    lp, dlp := lp0, dlp0;
    if dlp == dst[j] {
      pnum[lp] := (pnum[lp] + 1) % U16;
    } else {
      dlp := dst[j];
      lp := j;
      pnum[lp] := 1;
    }
    if j > 0 && !FooledByNeverUsed(d) {
      StepKeepsOpen(d, j, was, lp0);
      assert pnum[..] == Step(d, j, was, lp0).0;
    }
  }

  /** The last group has no following port: its own last port is repeated, and the count this
      adds to the open run is taken back. */
  method LastGroup(pnum: array<nat>, k: nat, lp0: nat, dp1: seq<nat>, ghost d: seq<nat>) returns (lp: nat)
    requires FWDSTEP <= k <= |d| && k < pnum.Length < U16
    requires dp1 == d[k - 4..k] && OpenAt(d, k - 3, pnum[..], lp0)
    modifies pnum
    ensures OpenAt(d, k, pnum[..], lp)
  {
    // shuffle 0xf9: lanes 1, 2, 3, 3
    var dp2 := [dp1[1], dp1[2], dp1[3], dp1[3]];
    ghost var e := d[..k] + [d[k - 1]];
    OpenPrefix(d, e, k - 3, pnum[..], lp0);
    lp := PortGroupX4(pnum, k - FWDSTEP, lp0, dp1, dp2, e);
    DropRepeated(d, k, pnum[..], lp);
    ghost var p := pnum[..];
    pnum[lp] := (pnum[lp] + U16 - 1) % U16;
    assert pnum[..] == p[lp := p[lp] - 1];
  }

  /** The vectorised part, for a positive multiple of four packets. */
  method GroupInFours(pkts: array<Mbuf>, dst: array<nat>, pnum: array<nat>, k: nat, ghost d: seq<nat>) returns (lp: nat)
    requires 0 < k <= pkts.Length && k <= dst.Length && k < pnum.Length < U16 && dst != pnum
    requires k % FWDSTEP == 0
    requires k <= |d| && forall i :: 0 <= i < k ==> d[i] == Rfc1812(pkts[i], dst[i])
    modifies dst, pnum
    ensures forall i :: 0 <= i < k ==> dst[i] == d[i]
    ensures forall i :: k <= i < dst.Length ==> dst[i] == old(dst[i])
    ensures OpenAt(d, k, pnum[..], lp)
  {
    lp := 0;
    pnum[lp] := 1;
    assert OpenAt(d, 1, pnum[..], lp);
    hide OpenAt, Rfc1812;
    ProcessX4(pkts, dst, 0);
    var dp1 := dst[..FWDSTEP];
    var j := FWDSTEP;
    ghost var groups, done := k / FWDSTEP, 1;
    while j != k
      invariant k == 4 * groups && j == 4 * done && 1 <= done <= groups
      invariant forall i :: 0 <= i < j ==> dst[i] == d[i]
      invariant forall i :: j <= i < dst.Length ==> dst[i] == old(dst[i])
      invariant dp1 == d[j - 4..j]
      invariant OpenAt(d, j - 3, pnum[..], lp)
      decreases k - j
    {
      ProcessX4(pkts, dst, j);
      var dp2 := dst[j - 3..j + 1];
      lp := PortGroupX4(pnum, j - FWDSTEP, lp, dp1, dp2, d);
      // the lanes of the wider load behind dp2, shifted down by three
      dp1 := dst[j..j + FWDSTEP];
      j, done := j + FWDSTEP, done + 1;
    }
    lp := LastGroup(pnum, j, lp, dp1, d);
  }

  /** The fall-through switch over the last `|d| % 4` packets. */
  method GroupTail(pkts: array<Mbuf>, dst: array<nat>, pnum: array<nat>, j0: nat, n: nat, lp0: nat, dlp0: nat,
      ghost d: seq<nat>, ghost was0: nat)
    returns (ghost lp: nat, ghost dlp: nat)
    requires |d| == n <= pkts.Length && n <= dst.Length && n < pnum.Length < U16 && dst != pnum
    requires j0 <= n < j0 + FWDSTEP && j0 % FWDSTEP == 0
    requires forall i :: j0 <= i < |d| ==> d[i] == Rfc1812(pkts[i], dst[i])
    requires TailState(d, j0, pnum[..], lp0, dlp0, was0)
    modifies dst, pnum
    ensures forall i :: j0 <= i < |d| ==> dst[i] == d[i]
    ensures forall i :: 0 <= i < dst.Length && !(j0 <= i < |d|) ==> dst[i] == old(dst[i])
    ensures TailState(d, n, pnum[..], lp, dlp, was0)
  {
    hide TailState, Rfc1812;
    var j, l, p := j0, lp0, dlp0;
    var rest := n - j0;
    if rest == 3 {
      l, p := ScalarStep(pkts, dst, pnum, j, l, p, d, was0);
      j := j + 1;
    }
    if rest >= 2 {
      l, p := ScalarStep(pkts, dst, pnum, j, l, p, d, was0);
      j := j + 1;
    }
    if rest >= 1 {
      l, p := ScalarStep(pkts, dst, pnum, j, l, p, d, was0);
    }
    lp, dlp := l, p;
  }

  /** The grouping half of `send_packets_multi`, for a burst of any length. */
  method FinishAndGroup(pkts: array<Mbuf>, dst: array<nat>, pnum: array<nat>, n: nat)
    requires n <= pkts.Length && n <= dst.Length && n < pnum.Length < U16 && dst != pnum
    modifies dst, pnum
    ensures dst[..] == FinalPorts(pkts[..n], old(dst[..n])) + old(dst[n..])
    ensures !FooledByNeverUsed(dst[..n]) ==> Grouped(dst[..n], pnum[..], n)
    ensures FooledByNeverUsed(dst[..n]) ==> pnum[0] == old(pnum[0])
  {
    hide OpenAt, Rfc1812;
    ghost var d := FinalPorts(pkts[..n], dst[..n]);
    ghost var was0 := pnum[0];
    var k := n - n % FWDSTEP;
    var j: nat, lp: nat, dlp: nat := 0, pnum.Length - 1, NEVER_USED;
    if k != 0 {
      lp := GroupInFours(pkts, dst, pnum, k, d);
      j := k;
      dlp := dst[j - 1];
    }
    ghost var lp', dlp' := GroupTail(pkts, dst, pnum, j, n, lp, dlp, d, was0);
    assert d == dst[..n];
    if d != [] && !FooledByNeverUsed(d) {
      OpenIsGrouped(d, pnum[..], lp');
    }
  }

  /** In a fooled burst the send loop reads a counter nobody wrote: whatever the ports are, an
      array that happened to hold zero there is not a grouping (and a zero step never ends). */
  lemma FooledCanFail(d: seq<nat>, pnum: seq<nat>)
    requires FooledByNeverUsed(d) && |pnum| >= |d|
    ensures !Grouped(d, pnum[0 := 0], |d|)
  {
    assert RunHead(d, 0);
  }
}
