/** The traffic lists of one burst and the functions that fill and compact them in place
    (ipsec_eval/ipsec-secgw.c:242-293, 388-527, ipsec_eval/ipsec.c:202-226). */
module GatewayCode {
  import opened Basics
  import opened CryptoQueue
  import opened CryptoCode
  import opened Gateway

  const LIST_SIZE: nat := 2 * MAX_PKT_BURST

  /** `struct traffic_type`; `data` holds the packets whose headers are classified. */
  class TrafficList {
    const pkts: array<Packet>
    const data: array<Packet>
    const res: array<nat>
    var num: nat

    constructor ()
      ensures Valid() && List() == [] && fresh(pkts) && fresh(data) && fresh(res)
    {
      pkts := new Packet[LIST_SIZE];
      data := new Packet[LIST_SIZE];
      res := new nat[LIST_SIZE];
      num := 0;
    }

    ghost predicate Valid()
      reads this
    {
      pkts.Length == data.Length == res.Length == LIST_SIZE && pkts != data && pkts != res && data != res
          && num <= LIST_SIZE
    }

    ghost function List(): (s: seq<Packet>)
      requires Valid()
      reads this, pkts
      ensures |s| == num
    {
      pkts[..num]
    }

    /** Every packet in the list is the one whose header will be classified. */
    ghost predicate Aligned()
      requires Valid()
      reads this, pkts, data
    {
      data[..num] == pkts[..num]
    }

    method Add(p: Packet)
      requires Valid() && num < LIST_SIZE
      modifies this, pkts, data
      ensures Valid() && List() == old(List()) + [p] && (old(Aligned()) ==> Aligned())
    {
      data[num] := p;
      pkts[num] := p;
      num := num + 1;
    }

    // pkts[num++] = p, leaving the header pointers alone.
    method Append(p: Packet)
      requires Valid() && num < LIST_SIZE
      modifies this`num, pkts
      ensures Valid() && List() == old(List()) + [p]
    {
      pkts[num] := p;
      num := num + 1;
    }

    // pkts[j] = m, as the compacting loops do it behind their reading position `i`.
    method Keep(j: nat, i: nat, m: Packet)
      requires Valid() && j <= i < num
      modifies pkts
      ensures pkts[..j + 1] == old(pkts[..j]) + [m] && pkts[i + 1..num] == old(pkts[i + 1..num])
    {
      pkts[j] := m;
    }

    // rte_acl_classify: the policy's result for every packet of the list.
    method Classify(acl: Packet -> nat)
      requires Valid() && Aligned()
      modifies res
      ensures forall k :: 0 <= k < num ==> res[k] == acl(pkts[k])
    {
      var k := 0;
      while k < num
        invariant k <= num && forall j :: 0 <= j < k ==> res[j] == acl(pkts[j])
      {
        assert data[k] == data[..num][k] == pkts[..num][k];
        res[k] := acl(data[k]);
        k := k + 1;
      }
    }

    // The loop of inbound_sp_sa: compaction in place; the packets not kept are freed in order.
    method Compact(e: Env, acl: Packet -> nat, lim: nat) returns (freed: seq<Packet>)
      requires Valid() && lim <= num
      requires forall k :: 0 <= k < num ==> res[k] == acl(pkts[k]) && SaIdx(res[k]) < |e.sadb|
      modifies this`num, pkts
      ensures Valid() && List() == Kept(e, acl, old(List()), lim, old(num))
          && freed == Lost(e, acl, old(List()), lim, old(num))
    {
      hide Pick, Kept, Lost, Holds, SaIdx;
      ghost var was := List();
      KeptStart(e, acl, was, lim);
      var i, j := 0, 0;
      freed := [];
      while i < num
        invariant j <= i <= num == |was| && pkts[i..num] == was[i..]
        invariant forall k :: i <= k < num ==> res[k] == acl(was[k]) && SaIdx(res[k]) < |e.sadb|
        invariant pkts[..j] == Kept(e, acl, was, lim, i) && freed == Lost(e, acl, was, lim, i)
      {
        KeptStep(e, acl, was, lim, i);
        var m := pkts[i];
        assert m == pkts[i..num][0] == was[i..][0];
        assert pkts[i + 1..num] == pkts[i..num][1..] && was[i + 1..] == was[i..][1..];
        var keep := InboundCheck(e, acl, lim, i, m, res[i]);
        if keep {
          Keep(j, i, m);
          j := j + 1;
        } else {
          freed := freed + [m];
        }
        i := i + 1;
      }
      num := j;
    }

    // A packet with its SA index, as outbound_sp appends it to the IPsec list.
    method AddProtected(p: Packet, saIdx: nat)
      requires Valid() && num < LIST_SIZE
      modifies this`num, pkts, res
      ensures Valid() && List() == old(List()) + [p] && res[..num] == old(res[..num]) + [saIdx]
    {
      res[num] := saIdx;
      pkts[num] := p;
      num := num + 1;
    }

    // The loop of outbound_sp: the packets that stay are compacted in place, those to be protected
    // appended to `ipsec`, the others freed.
    method Divide(e: Env, acl: Packet -> nat, ipsec: TrafficList) returns (freed: seq<Packet>)
      requires Valid() && ipsec.Valid() && Repr(this) !! Repr(ipsec) && ipsec.num + num <= LIST_SIZE
      requires forall k :: 0 <= k < num ==> res[k] == acl(pkts[k])
      modifies this`num, pkts, ipsec`num, ipsec.pkts, ipsec.res
      ensures Valid() && ipsec.Valid()
      ensures List() == Pick(e, Stays(acl), old(List()))
          && freed == Pick(e, Both(Not(Stays(acl)), Not(Protects(acl))), old(List()))
      ensures ipsec.List() == old(ipsec.List()) + Pick(e, Protects(acl), old(List()))
      ensures ipsec.res[..ipsec.num] == old(ipsec.res[..ipsec.num]) + Indexes(acl, Pick(e, Protects(acl), old(List())))
    {
      hide Pick, Holds, Discard, SaIdx, Indexes;
      ghost var was, sealed := List(), ipsec.List();
      ghost var n := ipsec.num;
      DividedStart(e, acl, was);
      var i, j := 0, 0;
      freed := [];
      while i < num
        invariant j <= i <= num == |was| && pkts[i..num] == was[i..]
        invariant forall k :: i <= k < num ==> res[k] == acl(was[k])
        invariant ipsec.num <= n + i && n + num <= LIST_SIZE
        invariant Divided(e, acl, was, i, pkts[..j], freed, sealed, ipsec.pkts[..ipsec.num], old(ipsec.res[..n]),
            ipsec.res[..ipsec.num])
      {
        var m := pkts[i];
        assert m == pkts[i..num][0] == was[i..][0];
        assert pkts[i + 1..num] == pkts[i..num][1..] && was[i + 1..] == was[i..][1..];
        var saIdx := SaIdx(res[i]);
        DividedStep(e, acl, was, i, pkts[..j], freed, sealed, ipsec.List(), old(ipsec.res[..n]),
            ipsec.res[..ipsec.num]);
        if res[i] == 0 || Discard(res[i]) {
          freed := freed + [m];
        } else if saIdx != 0 {
          ipsec.AddProtected(m, saIdx);
        } else {
          Keep(j, i, m);
          j := j + 1;
        }
        i := i + 1;
      }
      assert was[..i] == was;
      num := j;
    }
  }

  /** The first `i` packets of `was` divided: those that stay, those freed, those appended. */
  ghost predicate Divided(e: Env, acl: Packet -> nat, was: seq<Packet>, i: nat, stay: seq<Packet>, freed: seq<Packet>,
                          sealed: seq<Packet>, all: seq<Packet>, idx: seq<nat>, allIdx: seq<nat>)
    requires i <= |was|
  {
    && stay == Pick(e, Stays(acl), was[..i])
    && freed == Pick(e, Both(Not(Stays(acl)), Not(Protects(acl))), was[..i])
    && all == sealed + Pick(e, Protects(acl), was[..i])
    && allIdx == idx + Indexes(acl, Pick(e, Protects(acl), was[..i]))
  }

  lemma DividedStart(e: Env, acl: Packet -> nat, was: seq<Packet>)
    ensures was[..0] == [] && Pick(e, Stays(acl), []) == [] && Pick(e, Protects(acl), []) == []
    ensures Pick(e, Both(Not(Stays(acl)), Not(Protects(acl))), []) == [] && Indexes(acl, []) == []
  {
  }

  lemma DividedStep(e: Env, acl: Packet -> nat, was: seq<Packet>, i: nat, stay: seq<Packet>, freed: seq<Packet>,
                    sealed: seq<Packet>, all: seq<Packet>, idx: seq<nat>, allIdx: seq<nat>)
    requires i < |was| && Divided(e, acl, was, i, stay, freed, sealed, all, idx, allIdx)
    ensures var m, r := was[i], acl(was[i]);
      if r == 0 || Discard(r) then Divided(e, acl, was, i + 1, stay, freed + [m], sealed, all, idx, allIdx)
      else if SaIdx(r) != 0 then Divided(e, acl, was, i + 1, stay, freed, sealed, all + [m], idx, allIdx + [SaIdx(r)])
      else Divided(e, acl, was, i + 1, stay + [m], freed, sealed, all, idx, allIdx)
  {
    hide Pick, Discard, SaIdx;
    var s, p := Stays(acl), Protects(acl);
    PickOne(e, s, was, i);
    PickOne(e, p, was, i);
    PickOne(e, Both(Not(s), Not(p)), was, i);
    var u := Pick(e, p, was[..i]);
    assert Indexes(acl, u + [was[i]]) == Indexes(acl, u) + [SaIdx(acl(was[i]))];
  }

  // The test of inbound_sp_sa, with inbound_sa_check.
  method InboundCheck(e: Env, ghost acl: Packet -> nat, lim: nat, i: nat, m: Packet, res: nat) returns (keep: bool)
    requires res == acl(m) && SaIdx(res) < |e.sadb|
    ensures keep == Holds(e, if i < lim then Passes(acl) else PassesSa(acl), m)
  {
    if Bypass(res) { return true; }
    if Discard(res) || i < lim { return false; }
    var saIdx := SaIdx(res);
    keep := saIdx != 0 && e.sadb[saIdx] == e.spi(m);
  }

  ghost function Repr(t: TrafficList): set<object> { {t, t.pkts, t.data, t.res} }

  /** What a list holds of `list` once the first `i` packets are done, the first `lim` of which
      did not come through IPsec. */
  function Kept(e: Env, acl: Packet -> nat, list: seq<Packet>, lim: nat, i: nat): (t: seq<Packet>)
    requires lim <= |list| && i <= |list|
    ensures |t| <= i
  {
    if i <= lim then Pick(e, Passes(acl), list[..i])
    else Pick(e, Passes(acl), list[..lim]) + Pick(e, PassesSa(acl), list[lim..i])
  }

  function Lost(e: Env, acl: Packet -> nat, list: seq<Packet>, lim: nat, i: nat): seq<Packet>
    requires lim <= |list| && i <= |list|
  {
    if i <= lim then Pick(e, Not(Passes(acl)), list[..i])
    else Pick(e, Not(Passes(acl)), list[..lim]) + Pick(e, Not(PassesSa(acl)), list[lim..i])
  }

  lemma KeptStep(e: Env, acl: Packet -> nat, list: seq<Packet>, lim: nat, i: nat)
    requires lim <= |list| && i < |list|
    ensures var r := if i < lim then Passes(acl) else PassesSa(acl);
      && Kept(e, acl, list, lim, i + 1) == Kept(e, acl, list, lim, i) + (if Holds(e, r, list[i]) then [list[i]] else [])
      && Lost(e, acl, list, lim, i + 1) == Lost(e, acl, list, lim, i) + (if Holds(e, r, list[i]) then [] else [list[i]])
  {
    hide Holds, Pick;
    if i < lim {
      PickOne(e, Passes(acl), list, i);
      PickOne(e, Not(Passes(acl)), list, i);
      NotHolds(e, Passes(acl), list[i]);
    } else {
      var via := list[lim..];
      assert list[lim..i] == via[..i - lim] && list[lim..i + 1] == via[..i - lim + 1];
      PickOne(e, PassesSa(acl), via, i - lim);
      PickOne(e, Not(PassesSa(acl)), via, i - lim);
      NotHolds(e, PassesSa(acl), list[i]);
      PickNone(e, PassesSa(acl));
      PickNone(e, Not(PassesSa(acl)));
      assert list[lim..lim] == [];
    }
  }

  lemma NotHolds(e: Env, r: Rule, p: Packet)
    ensures Holds(e, Not(r), p) == !Holds(e, r, p)
  {
  }

  lemma PickNone(e: Env, r: Rule)
    ensures Pick(e, r, []) == []
  {
  }

  class Lcore {
    const env: Env
    const ipsec: TrafficList
    const ip4: TrafficList
    const ip6: TrafficList
    var freed: seq<Packet>

    constructor (env: Env)
      ensures Valid() && freed == [] && this.env == env && fresh(ipsec) && fresh(ip4) && fresh(ip6)
      ensures fresh(Repr(ipsec)) && fresh(Repr(ip4)) && fresh(Repr(ip6))
    {
      this.env := env;
      ipsec := new TrafficList();
      ip4 := new TrafficList();
      ip6 := new TrafficList();
      freed := [];
    }

    ghost predicate Valid()
      reads this, ipsec, ip4, ip6
    {
      && ipsec.Valid() && ip4.Valid() && ip6.Valid()
      && Repr(ipsec) !! Repr(ip4) && Repr(ipsec) !! Repr(ip6) && Repr(ip4) !! Repr(ip6)
    }

    /** The two lists to be routed, and the packets freed. */
    ghost function Lists(): Placed
      requires Valid()
      reads this, ipsec, ip4, ip6, ip4.pkts, ip6.pkts
    {
      Placed(ip4.List(), ip6.List(), [], freed)
    }

    // prepare_one_packet.
    method PrepareOne(p: Packet)
      requires Valid() && ipsec.num < LIST_SIZE && ip4.num < LIST_SIZE && ip6.num < LIST_SIZE
      requires ip4.Aligned() && ip6.Aligned()
      modifies this`freed, Repr(ipsec), Repr(ip4), Repr(ip6)
      ensures Valid() && ip4.Aligned() && ip6.Aligned()
      ensures ipsec.List() == old(ipsec.List()) + (if env.kind(p) == Esp then [p] else [])
      ensures ip4.List() == old(ip4.List()) + (if env.kind(p) == Ip4 then [p] else [])
      ensures ip6.List() == old(ip6.List()) + (if env.kind(p) == Ip6 then [p] else [])
      ensures freed == old(freed) + (if env.kind(p) == Unknown then [p] else [])
    {
      match env.kind(p) {
        case Esp => ipsec.Add(p);
        case Ip4 => ip4.Add(p);
        case Ip6 => ip6.Add(p);
        case Unknown => freed := freed + [p];
      }
    }

    // prepare_traffic; its two loops do the same to the packets in turn.
    method PrepareTraffic(burst: seq<Packet>)
      requires Valid() && |burst| <= MAX_PKT_BURST
      modifies this`freed, Repr(ipsec), Repr(ip4), Repr(ip6)
      ensures Valid() && ip4.Aligned() && ip6.Aligned()
      ensures ipsec.List() == Pick(env, IsKind(Esp), burst) && ip4.List() == Pick(env, IsKind(Ip4), burst)
      ensures ip6.List() == Pick(env, IsKind(Ip6), burst) && freed == old(freed) + Pick(env, IsKind(Unknown), burst)
    {
      hide Pick;
      ipsec.num, ip4.num, ip6.num := 0, 0, 0;
      var i := 0;
      assert burst[..0] == [];
      PickNone(env, IsKind(Esp));
      PickNone(env, IsKind(Ip4));
      PickNone(env, IsKind(Ip6));
      PickNone(env, IsKind(Unknown));
      while i < |burst|
        invariant i <= |burst| && Valid() && ip4.Aligned() && ip6.Aligned()
        invariant ipsec.List() == Pick(env, IsKind(Esp), burst[..i]) && ip4.List() == Pick(env, IsKind(Ip4), burst[..i])
        invariant ip6.List() == Pick(env, IsKind(Ip6), burst[..i])
            && freed == old(freed) + Pick(env, IsKind(Unknown), burst[..i])
      {
        PickOne(env, IsKind(Esp), burst, i);
        PickOne(env, IsKind(Ip4), burst, i);
        PickOne(env, IsKind(Ip6), burst, i);
        PickOne(env, IsKind(Unknown), burst, i);
        PrepareOne(burst[i]);
        i := i + 1;
      }
      assert burst[..i] == burst;
    }

    // inbound_sp_sa: the first `lim` packets did not come through IPsec.
    method InboundSpSa(acl: Option<Packet -> nat>, list: TrafficList, lim: nat)
      requires Valid() && list in {ip4, ip6} && lim <= list.num && list.Aligned()
      requires PolicyOk(env, acl)
      modifies this`freed, Repr(list)
      ensures Valid()
      ensures list.List() == Admitted(env, acl, old(list.List()[..lim]), old(list.List()[lim..]))
      ensures freed == old(freed) + Rejected(env, acl, old(list.List()[..lim]), old(list.List()[lim..]))
    {
      hide Pick, Kept, Lost, Holds, SaIdx;
      ghost var was := list.List();
      if acl.None? {
        assert was == was[..lim] + was[lim..];
        return;
      }
      KeptStart(env, acl.value, was, lim);
      if list.num == 0 { return; }
      list.Classify(acl.value);
      var dropped := list.Compact(env, acl.value, lim);
      freed := freed + dropped;
    }

    // ipsec_inbound: the SA of every packet is looked up, all are enqueued, and the first entries
    // of the list become the packets collected.
    method IpsecInbound(ctx: IpsecCtx, choices: nat -> Choice, answers: nat -> Answer) returns (n: nat)
      requires Valid() && ctx.Valid() && EnvOk(env, ctx.sas.Keys)
      modifies ipsec.pkts, ctx, ctx.tbl, ctx.device
      ensures ctx.Valid() && n <= MAX_PKT_BURST
      ensures var esp := old(ipsec.List());
        OwnersKnown(old(ctx.core), Owners(env, esp))
            && (ctx.core, ipsec.pkts[..n]) == Handed(old(ctx.core), esp, Owners(env, esp), choices, answers)
    {
      hide Safe, EnqueueAll, Dequeue, Mirrors;
      var owners := [];
      while |owners| < ipsec.num
        invariant |owners| <= ipsec.num && owners == Owners(env, ipsec.List()[..|owners|])
      {
        ghost var k := |owners|;
        assert ipsec.List()[..k + 1] == ipsec.List()[..k] + [ipsec.pkts[k]];
        owners := owners + [env.owner(ipsec.pkts[|owners|])];
      }
      assert ipsec.List()[..|owners|] == ipsec.List() == ipsec.pkts[..|owners|];
      ctx.IpsecEnqueue(ipsec.pkts, owners, choices);
      n := ctx.IpsecDequeue(ipsec.pkts, MAX_PKT_BURST, answers);
    }

    // The loop of process_pkts_inbound over the `n` packets that came back.
    method SortInbound(n: nat)
      requires Valid() && n <= MAX_PKT_BURST && ip4.num <= MAX_PKT_BURST && ip6.num <= MAX_PKT_BURST
      requires ip4.Aligned() && ip6.Aligned()
      modifies this`freed, Repr(ip4), Repr(ip6)
      ensures Valid() && ip4.Aligned() && ip6.Aligned()
      ensures Sorted(env, ipsec.pkts[..n], n, old(ip4.List()), ip4.List(), old(ip6.List()), ip6.List(), old(freed),
          freed)
    {
      hide Sorted;
      ghost var out := ipsec.pkts[..n];
      SortedStart(env, out, ip4.List(), ip6.List(), freed);
      var i := 0;
      while i < n
        invariant i <= n && Valid() && ip4.Aligned() && ip6.Aligned() && ip4.num <= MAX_PKT_BURST + i
            && ip6.num <= MAX_PKT_BURST + i
        invariant Sorted(env, out, i, old(ip4.List()), ip4.List(), old(ip6.List()), ip6.List(), old(freed), freed)
      {
        SortedStep(env, out, i, old(ip4.List()), ip4.List(), old(ip6.List()), ip6.List(), old(freed), freed);
        var m := ipsec.pkts[i];
        assert m == out[i];
        if env.version(m) == 4 {
          ip4.Add(m);
        } else if env.version(m) == 6 {
          ip6.Add(m);
        } else {
          freed := freed + [m];
        }
        i := i + 1;
      }
    }

    // The rest of process_pkts_inbound, once `n` packets came back.
    method AdmitInbound(n: nat)
      requires Valid() && n <= MAX_PKT_BURST && ip4.num <= MAX_PKT_BURST && ip6.num <= MAX_PKT_BURST
      requires ip4.Aligned() && ip6.Aligned() && PolicyOk(env, env.acl4) && PolicyOk(env, env.acl6)
      modifies this`freed, Repr(ip4), Repr(ip6)
      ensures Valid()
      ensures var out := ipsec.pkts[..n];
        var v4, v6 := Pick(env, IsVersion(4), out), Pick(env, IsVersion(6), out);
        && ip4.List() == Admitted(env, env.acl4, old(ip4.List()), v4)
            && ip6.List() == Admitted(env, env.acl6, old(ip6.List()), v6)
        && freed == old(freed) + Pick(env, Both(Not(IsVersion(4)), Not(IsVersion(6))), out)
                    + Rejected(env, env.acl4, old(ip4.List()), v4) + Rejected(env, env.acl6, old(ip6.List()), v6)
    {
      hide Pick, Admitted, Rejected, PolicyOk, Sorted;
      ghost var b4, b6, f := ip4.List(), ip6.List(), freed;
      ghost var out := ipsec.pkts[..n];
      var n4, n6 := ip4.num, ip6.num;
      SortInbound(n);
      SortedAll(env, out, b4, ip4.List(), b6, ip6.List(), f, freed);
      InboundSpSa(env.acl4, ip4, n4);
      InboundSpSa(env.acl6, ip6, n6);
    }

    // process_pkts_inbound.
    method ProcessPktsInbound(ctx: IpsecCtx, choices: nat -> Choice,
        answers: nat -> Answer) returns (ghost out: seq<Packet>)
      requires Valid() && ctx.Valid() && EnvOk(env, ctx.sas.Keys)
      requires ip4.Aligned() && ip6.Aligned() && ip4.num <= MAX_PKT_BURST && ip6.num <= MAX_PKT_BURST
      modifies this`freed, Repr(ipsec), Repr(ip4), Repr(ip6), ctx, ctx.tbl, ctx.device
      ensures Valid() && ctx.Valid()
      ensures var esp := old(ipsec.List());
        OwnersKnown(old(ctx.core), Owners(env, esp))
            && (ctx.core, out) == Handed(old(ctx.core), esp, Owners(env, esp), choices, answers)
      ensures Lists() == AfterAdmitting(env, old(ip4.List()), old(ip6.List()), out, old(freed))
    {
      hide Pick, Handed, Admitted, Rejected, Safe, EnvOk, PolicyOk, Mirrors;
      PoliciesOk(env, ctx.sas.Keys);
      var n := IpsecInbound(ctx, choices, answers);
      out := ipsec.pkts[..n];
      AdmitInbound(n);
    }

    // prepare_traffic and process_pkts_inbound on one burst.
    method ProcessInbound(ctx: IpsecCtx, burst: seq<Packet>, choices: nat -> Choice, answers: nat -> Answer)
      requires Valid() && ctx.Valid() && |burst| <= MAX_PKT_BURST && EnvOk(env, ctx.sas.Keys)
      modifies this`freed, Repr(ipsec), Repr(ip4), Repr(ip6), ctx, ctx.tbl, ctx.device
      ensures Valid() && ctx.Valid() && Safe(old(ctx.core)) && EnvOk(env, old(ctx.core).sas.Keys)
      ensures var (c, r) := WholeInbound(env, old(ctx.core), burst, choices, answers);
        ctx.core == c && Lists() == Placed(r.ip4, r.ip6, [], old(freed) + r.freed)
    {
      hide Pick, Handed, Admitted, Rejected, Safe, EnvOk, PolicyOk, Mirrors;
      ghost var f := freed;
      OwnersOk(env, ctx.core, Pick(env, IsKind(Esp), burst));
      PrepareTraffic(burst);
      KindsFit(env, burst);
      ghost var out := ProcessPktsInbound(ctx, choices, answers);
      InboundFreed(env, burst, out, f);
    }

    // outbound_sp on one of the two lists.
    method OutboundSp(acl: Option<Packet -> nat>, list: TrafficList)
      requires Valid() && list in {ip4, ip6} && list.Aligned() && ipsec.num + list.num <= LIST_SIZE
      modifies this`freed, Repr(list), Repr(ipsec)
      ensures Valid() && list.List() == Staying(env, acl, old(list.List()))
      ensures freed == old(freed) + Gateway.Refused(env, acl, old(list.List()))
      ensures ipsec.List() == old(ipsec.List()) + Protected(env, acl, old(list.List()))
      ensures ipsec.res[..ipsec.num] == old(ipsec.res[..ipsec.num]) + ProtectedIndexes(env, acl, old(list.List()))
    {
      hide Pick, Holds, SaIdx, Indexes;
      if acl.None? { return; }
      DividedStart(env, acl.value, list.List());
      NoneDivided(env, acl.value);
      if list.num == 0 {
        assert list.List() == [];
        return;
      }
      list.Classify(acl.value);
      var dropped := list.Divide(env, acl.value, ipsec);
      freed := freed + dropped;
    }

    // The loop that drops IPsec packets from protected ports.
    method DropIpsec()
      requires Valid()
      modifies this`freed, ipsec`num
      ensures Valid() && ipsec.List() == [] && ipsec.num == 0 && freed == old(freed) + old(ipsec.List())
    {
      var i := 0;
      while i < ipsec.num
        invariant i <= ipsec.num && freed == old(freed) + ipsec.pkts[..i]
        modifies this`freed
      {
        freed := freed + [ipsec.pkts[i]];
        i := i + 1;
      }
      ipsec.num := 0;
    }

    // ipsec_outbound: the SA of every packet is the slot its policy names.
    method IpsecOutbound(ctx: IpsecCtx, choices: nat -> Choice, answers: nat -> Answer) returns (n: nat)
      requires Valid() && ctx.Valid() && OwnersKnown(ctx.core, Slots(ipsec.res[..ipsec.num]))
      modifies ipsec.pkts, ctx, ctx.tbl, ctx.device
      ensures ctx.Valid() && n <= MAX_PKT_BURST
      ensures (ctx.core, ipsec.pkts[..n]) ==
          Handed(old(ctx.core), old(ipsec.List()), Slots(old(ipsec.res[..ipsec.num])), choices, answers)
    {
      hide Safe, EnqueueAll, Dequeue, Mirrors;
      ghost var idx := ipsec.res[..ipsec.num];
      var owners := [];
      while |owners| < ipsec.num
        invariant |owners| <= ipsec.num && owners == Slots(idx)[..|owners|]
      {
        owners := owners + [Some(ipsec.res[|owners|])];
      }
      assert owners == Slots(idx) && ipsec.List() == ipsec.pkts[..|owners|];
      ctx.IpsecEnqueue(ipsec.pkts, owners, choices);
      n := ctx.IpsecDequeue(ipsec.pkts, MAX_PKT_BURST, answers);
    }

    // The loop of process_pkts_outbound over the `n` packets that came back; only the list of
    // packets matters from here on.
    method SortOutbound(n: nat)
      requires Valid() && n <= MAX_PKT_BURST && ip4.num <= MAX_PKT_BURST && ip6.num <= MAX_PKT_BURST
      modifies ip4`num, ip4.pkts, ip6`num, ip6.pkts
      ensures Valid()
      ensures var out := ipsec.pkts[..n];
        ip4.List() == old(ip4.List()) + Pick(env, IsVersion(4), out)
            && ip6.List() == old(ip6.List()) + Pick(env, Not(IsVersion(4)), out)
    {
      hide Pick;
      ghost var out := ipsec.pkts[..n];
      var i := 0;
      assert out[..0] == [];
      PickNone(env, IsVersion(4));
      PickNone(env, Not(IsVersion(4)));
      while i < n
        invariant i <= n && ip4.num <= MAX_PKT_BURST + i && ip6.num <= MAX_PKT_BURST + i
        invariant ip4.List() == old(ip4.List()) + Pick(env, IsVersion(4), out[..i])
        invariant ip6.List() == old(ip6.List()) + Pick(env, Not(IsVersion(4)), out[..i])
      {
        PickOne(env, IsVersion(4), out, i);
        PickOne(env, Not(IsVersion(4)), out, i);
        var m := ipsec.pkts[i];
        assert m == out[i];
        if env.version(m) == 4 {
          ip4.Append(m);
        } else {
          ip6.Append(m);
        }
        i := i + 1;
      }
      assert out[..i] == out;
    }

    // process_pkts_outbound up to the hand-over to IPsec.
    method DivideOutbound()
      requires Valid() && ip4.Aligned() && ip6.Aligned() && ip4.num + ip6.num <= LIST_SIZE
      modifies this`freed, Repr(ipsec), Repr(ip4), Repr(ip6)
      ensures Valid()
      ensures var b4, b6 := old(ip4.List()), old(ip6.List());
        && ip4.List() == Staying(env, env.acl4, b4) && ip6.List() == Staying(env, env.acl6, b6)
        && ipsec.List() == Protected(env, env.acl4, b4) + Protected(env, env.acl6, b6)
        && ipsec.res[..ipsec.num] == ProtectedIndexes(env, env.acl4, b4) + ProtectedIndexes(env, env.acl6, b6)
        && freed == old(freed) + old(ipsec.List()) + Gateway.Refused(env, env.acl4, b4) +
            Gateway.Refused(env, env.acl6, b6)
    {
      hide Pick, Staying, Protected, Gateway.Refused, ProtectedIndexes;
      DropIpsec();
      assert ipsec.res[..ipsec.num] == [];
      OutboundSp(env.acl4, ip4);
      OutboundSp(env.acl6, ip6);
    }

    // process_pkts_outbound.
    method ProcessPktsOutbound(ctx: IpsecCtx, choices: nat -> Choice,
        answers: nat -> Answer) returns (ghost out: seq<Packet>)
      requires Valid() && ctx.Valid() && ip4.Aligned() && ip6.Aligned() && ip4.num + ip6.num <= MAX_PKT_BURST
      requires OwnersKnown(ctx.core, SlotsOf(env, ip4.List(), ip6.List()))
      modifies this`freed, Repr(ipsec), Repr(ip4), Repr(ip6), ctx, ctx.tbl, ctx.device
      ensures Valid() && ctx.Valid()
      ensures var b4, b6 := old(ip4.List()), old(ip6.List());
        (ctx.core, out) == Handed(old(ctx.core), Protected(env, env.acl4, b4) + Protected(env, env.acl6, b6),
            SlotsOf(env, b4, b6), choices, answers)
      ensures Lists() == AfterDividing(env, old(ip4.List()), old(ip6.List()), old(ipsec.List()), out, old(freed))
    {
      hide Pick, Handed, Staying, Protected, Gateway.Refused, ProtectedIndexes, Slots, Safe, OwnersKnown, Mirrors;
      DivideOutbound();
      var n := IpsecOutbound(ctx, choices, answers);
      out := ipsec.pkts[..n];
      SortOutbound(n);
    }

    // prepare_traffic and process_pkts_outbound on one burst.
    method ProcessOutbound(ctx: IpsecCtx, burst: seq<Packet>, choices: nat -> Choice, answers: nat -> Answer)
      requires Valid() && ctx.Valid() && |burst| <= MAX_PKT_BURST && EnvOk(env, ctx.sas.Keys)
      modifies this`freed, Repr(ipsec), Repr(ip4), Repr(ip6), ctx, ctx.tbl, ctx.device
      ensures Valid() && ctx.Valid() && Safe(old(ctx.core)) && EnvOk(env, old(ctx.core).sas.Keys)
      ensures var (c, r) := WholeOutbound(env, old(ctx.core), burst, choices, answers);
        ctx.core == c && Lists() == Placed(r.ip4, r.ip6, [], old(freed) + r.freed)
    {
      hide Pick, Handed, Staying, Protected, Gateway.Refused, ProtectedIndexes, Slots, Safe, EnvOk, OwnersKnown,
          Mirrors, AfterDividing;
      ghost var f := freed;
      OutOwnersOk(env, ctx.core, burst);
      PrepareTraffic(burst);
      KindsFit(env, burst);
      ghost var out := ProcessPktsOutbound(ctx, choices, answers);
      OutboundFreed(env, burst, out, f);
    }
  }

  /** The SA slots the policies name, list after list. */
  function SlotsOf(e: Env, b4: seq<Packet>, b6: seq<Packet>): (r: seq<Option<SaId>>)
    ensures |r| == |Protected(e, e.acl4, b4)| + |Protected(e, e.acl6, b6)|
  {
    Slots(ProtectedIndexes(e, e.acl4, b4) + ProtectedIndexes(e, e.acl6, b6))
  }

  lemma NoneDivided(e: Env, acl: Packet -> nat)
    ensures Staying(e, Some(acl), []) == [] && Protected(e, Some(acl), []) == []
        && Gateway.Refused(e, Some(acl), []) == []
    ensures ProtectedIndexes(e, Some(acl), []) == []
  {
  }

  /** The lists when `out` has come back to the packets that were in the clear. */
  function AfterAdmitting(e: Env, b4: seq<Packet>, b6: seq<Packet>, out: seq<Packet>, freed: seq<Packet>): Placed {
    var v4, v6 := Pick(e, IsVersion(4), out), Pick(e, IsVersion(6), out);
    Placed(Admitted(e, e.acl4, b4, v4), Admitted(e, e.acl6, b6, v6), [],
           freed + Pick(e, Both(Not(IsVersion(4)), Not(IsVersion(6))), out) + Rejected(e, e.acl4, b4, v4) +
               Rejected(e, e.acl6, b6, v6))
  }

  lemma InboundFreed(e: Env, burst: seq<Packet>, out: seq<Packet>, freed: seq<Packet>)
    ensures var r := Inbound(e, burst, out);
      AfterAdmitting(e, Pick(e, IsKind(Ip4), burst), Pick(e, IsKind(Ip6), burst), out,
          freed + Pick(e, IsKind(Unknown), burst))
      == Placed(r.ip4, r.ip6, [], freed + r.freed)
  {
    hide Pick, Admitted, Rejected;
  }

  /** The lists when `out` has come back after the outbound policies. */
  function AfterDividing(e: Env, b4: seq<Packet>, b6: seq<Packet>, esp: seq<Packet>, out: seq<Packet>,
      freed: seq<Packet>): Placed {
    Placed(Staying(e, e.acl4, b4) + Pick(e, IsVersion(4), out),
        Staying(e, e.acl6, b6) + Pick(e, Not(IsVersion(4)), out), [],
           freed + esp + Gateway.Refused(e, e.acl4, b4) + Gateway.Refused(e, e.acl6, b6))
  }

  lemma OutboundFreed(e: Env, burst: seq<Packet>, out: seq<Packet>, freed: seq<Packet>)
    ensures var r := Outbound(e, burst, out);
      AfterDividing(e, Pick(e, IsKind(Ip4), burst), Pick(e, IsKind(Ip6), burst), Pick(e, IsKind(Esp), burst), out,
          freed + Pick(e, IsKind(Unknown), burst))
      == Placed(r.ip4, r.ip6, [], freed + r.freed)
  {
    hide Pick, Staying, Gateway.Refused;
  }

  /** The lists and the freed packets once the first `i` packets of `out` are sorted. */
  ghost predicate Sorted(e: Env, out: seq<Packet>, i: nat, was4: seq<Packet>, now4: seq<Packet>, was6: seq<Packet>,
      now6: seq<Packet>,
                         wasFreed: seq<Packet>, freed: seq<Packet>)
    requires i <= |out|
  {
    && now4 == was4 + Pick(e, IsVersion(4), out[..i]) && now6 == was6 + Pick(e, IsVersion(6), out[..i])
    && freed == wasFreed + Pick(e, Both(Not(IsVersion(4)), Not(IsVersion(6))), out[..i])
  }

  lemma SortedStart(e: Env, out: seq<Packet>, l4: seq<Packet>, l6: seq<Packet>, f: seq<Packet>)
    ensures Sorted(e, out, 0, l4, l4, l6, l6, f, f)
  {
    assert out[..0] == [];
  }

  lemma SortedStep(e: Env, out: seq<Packet>, i: nat, was4: seq<Packet>, now4: seq<Packet>, was6: seq<Packet>,
      now6: seq<Packet>,
                   wasFreed: seq<Packet>, freed: seq<Packet>)
    requires i < |out| && Sorted(e, out, i, was4, now4, was6, now6, wasFreed, freed)
    ensures var m := out[i];
      if e.version(m) == 4 then Sorted(e, out, i + 1, was4, now4 + [m], was6, now6, wasFreed, freed)
      else if e.version(m) == 6 then Sorted(e, out, i + 1, was4, now4, was6, now6 + [m], wasFreed, freed)
      else Sorted(e, out, i + 1, was4, now4, was6, now6, wasFreed, freed + [m])
  {
    hide Pick;
    PickOne(e, IsVersion(4), out, i);
    PickOne(e, IsVersion(6), out, i);
    PickOne(e, Both(Not(IsVersion(4)), Not(IsVersion(6))), out, i);
  }

  lemma SortedAll(e: Env, out: seq<Packet>, was4: seq<Packet>, now4: seq<Packet>, was6: seq<Packet>, now6: seq<Packet>,
                  wasFreed: seq<Packet>, freed: seq<Packet>)
    requires Sorted(e, out, |out|, was4, now4, was6, now6, wasFreed, freed)
    ensures |now4| >= |was4| && |now6| >= |was6| && now4[..|was4|] == was4
        && now4[|was4|..] == Pick(e, IsVersion(4), out)
    ensures now6[..|was6|] == was6 && now6[|was6|..] == Pick(e, IsVersion(6), out)
    ensures freed == wasFreed + Pick(e, Both(Not(IsVersion(4)), Not(IsVersion(6))), out)
  {
    hide Pick;
    assert out[..|out|] == out;
  }

  lemma KeptStart(e: Env, acl: Packet -> nat, list: seq<Packet>, lim: nat)
    requires lim <= |list|
    ensures Kept(e, acl, list, lim, 0) == [] && Lost(e, acl, list, lim, 0) == []
    ensures Kept(e, acl, list, lim, |list|) == Admitted(e, Some(acl), list[..lim], list[lim..])
    ensures Lost(e, acl, list, lim, |list|) == Rejected(e, Some(acl), list[..lim], list[lim..])
  {
    hide Pick;
    assert list[..0] == [];
    PickNone(e, Passes(acl));
    PickNone(e, PassesSa(acl));
    PickNone(e, Not(Passes(acl)));
    PickNone(e, Not(PassesSa(acl)));
    if lim == |list| { assert list[lim..] == []; } else { assert list[lim..|list|] == list[lim..]; }
  }
}
