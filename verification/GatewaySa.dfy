/** The gateway's policy over the SA table (ipsec_eval/ipsec-secgw.c:388-422, ipsec_eval/sa.c:722-778):
    which packets that came through IPsec the inbound check lets in, by the configured list. */
module GatewaySa {
  import opened Basics
  import opened CryptoQueue
  import opened CryptoRuns
  import opened Gateway
  import opened SaTable

  /** The tables the gateway reads are filled from this list: slot by slot the SPIs, and for every
      packet, as it arrived, the slot the lookup finds and the SPI of the entry in it. */
  ghost predicate Configured(e: Env, entries: seq<Entry>, arrived: Packet -> seq<Byte>) {
    && (forall j :: 0 <= j < |entries| ==> !Clashes(entries, j))
    && |e.sadb| == IPSEC_SA_MAX_ENTRIES
    && (forall i :: 0 <= i < |e.sadb| ==> e.sadb[i] == Slot(entries, true, i).spi)
    && forall p: Packet :: HeaderOk(arrived(p)) ==> FromEntry(e, entries, arrived(p), p)
  }

  /** What the lookup leaves with a packet. */
  ghost predicate FromEntry(e: Env, entries: seq<Entry>, b: seq<Byte>, p: Packet)
    requires HeaderOk(b)
  {
    match Search(entries, b)
    case None => e.owner(p) == None
    case Some(x) => e.owner(p) == Some(Idx(x.spi)) && e.spi(p) == x.spi
  }

  /** What `PROTECT` makes of the SPI in a rule of the policy file. */
  function Protect(spi: nat): (res: nat)
    ensures !Bypass(res) && !Discard(res) && SaIdx(res) == Idx(spi)
  {
    Idx(spi)
  }

  lemma Searched(entries: seq<Entry>, b: seq<Byte>)
    requires HeaderOk(b) && Search(entries, b).Some?
    ensures var x := Search(entries, b).value;
      x.spi != 0 && x.spi == Value(SpiBytes(b)) && Find(entries, x.spi) == Some(x) && EndpointsMatch(x, b)
  {
    var i := FindAt(entries, Value(SpiBytes(b)));
  }

  /** A packet that an entry brought in passes exactly if it bypasses or, not to be discarded, its
      policy names the slot of that entry; slot 0 counts as no slot. */
  lemma PassesByEntry(e: Env, entries: seq<Entry>, arrived: Packet -> seq<Byte>, acl: Packet -> nat, p: Packet)
    requires Configured(e, entries, arrived) && HeaderOk(arrived(p)) && e.owner(p).Some?
    ensures var x := Search(entries, arrived(p));
      && x.Some? && x.value.spi == e.spi(p)
      && (Holds(e, PassesSa(acl), p) <==>
          Bypass(acl(p)) || (!Discard(acl(p)) && SaIdx(acl(p)) != 0 && SaIdx(acl(p)) == Idx(x.value.spi)))
  {
    hide Slot, Find, Idx, Search, EndpointsMatch, Clashes, SpiBytes;
    assert FromEntry(e, entries, arrived(p), p);
    Searched(entries, arrived(p));
    var spi := Search(entries, arrived(p)).value.spi;
    SlotFinds(entries, true, spi);
    SlotIdx(entries, true, SaIdx(acl(p)));
  }

  /** So a list keeps of the packets brought back by IPsec exactly those that bypass, and those that
      are not to be discarded and whose policy names the entry they came through. */
  lemma InboundKeepsByEntry(e: Env, entries: seq<Entry>, arrived: Packet -> seq<Byte>, burst: seq<Packet>,
      out: seq<Packet>, p: Packet)
    requires Configured(e, entries, arrived) && HeaderOk(arrived(p)) && e.owner(p).Some?
    ensures Search(entries, arrived(p)).Some?
    ensures var r := Inbound(e, burst, out);
      var slot := Idx(Search(entries, arrived(p)).value.spi);
      && (e.acl4.Some? ==>
          Times(r.ip4, p) == Share(e.kind(p) == Ip4 && Bypass(e.acl4.value(p)), Times(burst, p))
            + Share(e.version(p) == 4 && Names(e.acl4.value(p), slot), Times(out, p)))
      && (e.acl6.Some? ==>
          Times(r.ip6, p) == Share(e.kind(p) == Ip6 && Bypass(e.acl6.value(p)), Times(burst, p))
            + Share(e.version(p) == 6 && Names(e.acl6.value(p), slot), Times(out, p)))
  {
    hide Slot, Find, Idx, Search, Clashes, Configured, Inbound, Times, Bypass, Discard, SaIdx;
    InboundKeeps(e, burst, out, p);
    if e.acl4.Some? { PassesByEntry(e, entries, arrived, e.acl4.value, p); }
    if e.acl6.Some? { PassesByEntry(e, entries, arrived, e.acl6.value, p); }
    if e.acl4.None? && e.acl6.None? { PassesByEntry(e, entries, arrived, _ => 0, p); }
  }

  /** A policy result that lets in what came through this slot. */
  predicate Names(res: nat, slot: nat) {
    Bypass(res) || (!Discard(res) && SaIdx(res) != 0 && SaIdx(res) == slot)
  }

  /** A rule that protects with the SPI of a configured entry lets in the packets of that entry and
      no others; if the SPI is a multiple of the table size it lets in none. */
  lemma ProtectNamesEntry(entries: seq<Entry>, i: nat, b: seq<Byte>)
    requires i < |entries| && entries[i].spi != 0 && forall j :: 0 <= j < |entries| ==> !Clashes(entries, j)
    requires HeaderOk(b) && Search(entries, b).Some?
    ensures var x := Search(entries, b).value;
      Names(Protect(entries[i].spi), Idx(x.spi)) <==> x.spi == entries[i].spi && Idx(x.spi) != 0
  {
    hide Slot, Idx, Search, EndpointsMatch, Clashes, Bypass, Discard, SaIdx, Protect;
    Searched(entries, b);
    var x := Search(entries, b).value;
    SlotFinds(entries, true, x.spi);
    PolicyNamesSa(entries, true, i, x.spi);
  }
}
