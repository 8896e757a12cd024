/** The NAT tables as the program keeps them: arrays filled by one pass over the prefix file,
    and read by the two translations (nat_eval/nat.c). */
module NatLoader {
  import Bits
  import opened PrefixSpec
  import opened NatTable

  /** Lines with another prefix length are logged and skipped. */
  function Kept(lines: seq<Entry>): seq<Entry> {
    if lines == [] then []
    else Kept(lines[..|lines| - 1]) + if ValidMask(lines[|lines| - 1].mask) then [lines[|lines| - 1]] else []
  }

  lemma {:induction false} KeptAt(lines: seq<Entry>, n: nat)
    requires n < |lines|
    ensures var k := |Kept(lines[..n])|;
      Kept(lines[..n]) <= Kept(lines[..n + 1]) <= Kept(lines)
      && (ValidMask(lines[n].mask) ==>
          k < |Kept(lines)| && Kept(lines)[k] == lines[n] && |Kept(lines[..n + 1])| == k + 1)
      && (!ValidMask(lines[n].mask) ==> |Kept(lines[..n + 1])| == k)
    decreases |lines|
  {
    assert lines[..n + 1][..n] == lines[..n];
    if n + 1 < |lines| {
      var init := lines[..|lines| - 1];
      KeptAt(init, n);
      assert init[..n] == lines[..n] && init[..n + 1] == lines[..n + 1];
    } else {
      assert lines[..n + 1] == lines;
    }
  }

  lemma CountBelow(es: seq<Entry>, k: nat, i: nat)
    requires Sorted(es) && k < |es| && i < Prefix(es[k])
    ensures Count(es, k + 1, i) == Count(es, k, i)
  {
  }

  /** Slots below the last prefix read so far do not change when another line is read. */
  lemma SlotStable(es: seq<Entry>, k: nat, i: nat)
    requires Sorted(es) && 0 < k < |es| && i < Prefix(es[k - 1])
    ensures SlotOf(es, k + 1, i) == SlotOf(es, k, i)
  {
    CountIs(es, k, i);
    CountBelow(es, k, i);
    assert Prefix(es[k - 1]) < Prefix(es[k]);
  }

  /** Slots from the last prefix read so far up to the next one. */
  lemma SlotGap(es: seq<Entry>, k: nat, i: nat)
    requires Sorted(es) && k < |es| && (k > 0 ==> Prefix(es[k - 1]) <= i) && i < Prefix(es[k])
    ensures SlotOf(es, k + 1, i) ==
      if k == 0 then PrefixEntry(-1, Prefix(es[0]), -1)
          else PrefixEntry(Prefix(es[k - 1]), Prefix(es[k]), es[k - 1].idx)
  {
    CountBelow(es, k, i);
  }

  lemma KeptLast(lines: seq<Entry>)
    requires |lines| > 0 && ValidMask(lines[|lines| - 1].mask)
    ensures |Kept(lines)| > 0 && Kept(lines)[|Kept(lines)| - 1] == lines[|lines| - 1]
  {
  }

  /** `1 << (32 - mask)`, where C defines it for 32-bit signed numbers. */
  function Span(mask: nat): nat
    requires 2 <= mask <= 32
  {
    Bits.Pow2(32 - mask)
  }

  lemma SpanIsSize(mask: nat)
    requires ValidMask(mask)
    ensures Span(mask) == Size(mask)
  {
    Bits.Pow2Values();
  }

  lemma SpansDiffer(m: nat, n: nat)
    requires 2 <= m < n <= 32
    ensures Span(n) < Span(m)
  {
    Bits.Pow2Mono(32 - n, 32 - m - 1);
  }

  /** What the loader needs of the lines it keeps: prefixes in order, and every write inside the two
      arrays.  That the indices are contiguous is no concern of it. */
  ghost predicate Loadable(es: seq<Entry>) {
    && |es| > 0 && Sorted(es)
    && (forall j :: 0 <= j < |es| ==> EntryOk(es[j]))
    && forall j :: 0 <= j < |es| ==> WrittenSlot(es[j].idx, PrevIdx(es, j)) < IDX_TBL_SIZE
  }

  lemma LoadableAt(es: seq<Entry>, k: nat)
    requires Loadable(es) && k < |es|
    ensures Sorted(es) && EntryOk(es[k]) && WrittenSlot(es[k].idx, PrevIdx(es, k)) < IDX_TBL_SIZE
    ensures 1 <= Prefix(es[k]) && Prefix(es[k]) + 1 < PREFIX_TBL_SIZE
    ensures k > 0 ==> 1 <= Prefix(es[k - 1]) < Prefix(es[k])
  {
    PrefixRange(es[k]);
    if k > 0 { PrefixRange(es[k - 1]); }
  }

  lemma LoadableLast(es: seq<Entry>)
    requires Loadable(es)
    ensures |es| > 0 && 0 <= LastPrefix(es) && LastPrefix(es) + 1 < PREFIX_TBL_SIZE
  {
    PrefixRange(es[|es| - 1]);
  }

  lemma WellFormedLoads(es: seq<Entry>)
    requires WellFormed(es)
    ensures Loadable(es)
  {
    forall j | 0 <= j < |es| ensures WrittenSlot(es[j].idx, PrevIdx(es, j)) < IDX_TBL_SIZE { SlotInTable(es, j); }
  }

  /** What the loader leaves: as Loaded, but for any lines it can load, and with both sizes from the
      last line read, which may be one it skipped. */
  ghost predicate LoadedTo(tb: Tables, es: seq<Entry>, idx: nat, mask: nat)
    requires 2 <= mask <= 32
  {
    && Loadable(es)
    && TableTo(tb.t, es, es[|es| - 1].idx + Span(mask))
    && IdxTblOk(tb.ix, es)
    && tb.maxIdx == idx + Span(mask)
    && tb.maxPrefix == LastPrefix(es) + 1
  }

  /** The tables are right exactly if the lines are contiguous and in range, and the last was not skipped. */
  lemma {:induction false} SizesIff(tb: Tables, lines: seq<Entry>, idx: nat, mask: nat)
    requires |lines| > 0 && 2 <= mask <= 32 && lines[|lines| - 1].mask == mask && lines[|lines| - 1].idx == idx
    requires LoadedTo(tb, Kept(lines), idx, mask)
    ensures Loaded(tb, Kept(lines)) <==> WellFormed(Kept(lines)) && ValidMask(mask)
  {
    var es := Kept(lines);
    if ValidMask(mask) {
      KeptLast(lines);
      SpanIsSize(mask);
    } else {
      var m := es[|es| - 1].mask;
      SpanIsSize(m);
      if m < mask { SpansDiffer(m, mask); } else { SpansDiffer(mask, m); }
    }
  }

  /** The index writes are in bounds. */
  lemma SlotInTable(es: seq<Entry>, k: nat)
    requires WellFormed(es) && k < |es|
    ensures WrittenSlot(es[k].idx, PrevIdx(es, k)) < IDX_TBL_SIZE
  {
    if k < |es| - 1 { IdxGrows(es, k, |es| - 1); }
    if AllSlash8(es) {
      Slash8Slots(es, k + 1, 0);
      Slash8Slots(es, k, 0);
      assert es[k].idx / B24 == k;
    }
  }

  class NatTables {
    const prefixTbl: array<PrefixEntry>
    const idxTbl: array<int>
    var maxIdx: int
    var maxPrefix: int

    ghost function Value(): Tables
      reads this, prefixTbl, idxTbl
    {
      Tables(prefixTbl[..], idxTbl[..], maxIdx, maxPrefix)
    }

    ghost predicate Zeroed()
      reads this, prefixTbl, idxTbl
    {
      && prefixTbl.Length == PREFIX_TBL_SIZE && idxTbl.Length == IDX_TBL_SIZE
      && (forall i :: 0 <= i < prefixTbl.Length ==> prefixTbl[i] == ZERO)
      && forall s :: 0 <= s < idxTbl.Length ==> idxTbl[s] == 0
    }

    /** The zeroed allocations of `setup_nat_table`. */
    constructor ()
      ensures Zeroed() && fresh(prefixTbl) && fresh(idxTbl)
    {
      prefixTbl := new PrefixEntry[PREFIX_TBL_SIZE](_ => ZERO);
      idxTbl := new int[IDX_TBL_SIZE](_ => 0);
      maxIdx, maxPrefix := -1, -1;
    }

    /** State after `k` lines of `es`: everything below the last prefix is final, its own slot
        still lacks a successor, everything above is untouched. */
    ghost predicate Filled(es: seq<Entry>, k: nat)
      reads this, prefixTbl, idxTbl
    {
      && k <= |es| && prefixTbl.Length == PREFIX_TBL_SIZE && idxTbl.Length == IDX_TBL_SIZE
      && prefixTbl[0] == ZERO
      && (forall s :: 0 <= s < idxTbl.Length ==> idxTbl[s] == IdxSlot(es, k, s))
      && (k == 0 ==> forall i :: 0 <= i < prefixTbl.Length ==> prefixTbl[i] == ZERO)
      && (k > 0 ==>
            var p := Prefix(es[k - 1]);
            && p < prefixTbl.Length
            && (forall i :: 1 <= i < p ==> prefixTbl[i] == SlotOf(es, k, i))
            && prefixTbl[p].prev == p && prefixTbl[p].index == es[k - 1].idx
            && forall i :: p < i < prefixTbl.Length ==> prefixTbl[i] == ZERO)
    }

    lemma NothingFilled(es: seq<Entry>)
      requires Zeroed()
      ensures Filled(es, 0)
    {
    }

    /** The inner loop: the gap below prefix `p`. */
    method FillGap(prevPos: nat, p: nat, prevP: int, prevIdx: int)
      requires p < prefixTbl.Length
      modifies prefixTbl
      ensures forall i :: prevPos <= i < p ==> prefixTbl[i] == PrefixEntry(prevP, p, prevIdx)
      ensures forall i :: 0 <= i < prefixTbl.Length && !(prevPos <= i < p) ==> prefixTbl[i] == old(prefixTbl[i])
    {
      var i := prevPos;
      while i < p
        invariant prevPos <= i && (i <= p || i == prevPos)
        invariant forall n :: prevPos <= n < i && n < p ==> prefixTbl[n] == PrefixEntry(prevP, p, prevIdx)
        invariant forall n :: 0 <= n < prefixTbl.Length && !(prevPos <= n < i && n < p) ==>
            prefixTbl[n] == old(prefixTbl[n])
      {
        prefixTbl[i] := PrefixEntry(prevP, p, prevIdx);
        i := i + 1;
      }
    }

    /** The slot of `idx_tbl` that a line fills, if any. */
    method FillIdx(idx: nat, prevIdx: int, p: nat)
      requires WrittenSlot(idx, prevIdx) < idxTbl.Length
      modifies idxTbl
      ensures forall s :: 0 <= s < idxTbl.Length ==>
          idxTbl[s] == if s == WrittenSlot(idx, prevIdx) then p else old(idxTbl[s])
    {
      if idx == 0 {
        idxTbl[0] := p;
      } else if idx / B24 != CDiv(prevIdx, B24) {
        idxTbl[idx / B24] := p;
      } else if idx / B16 != CDiv(prevIdx, B16) {
        idxTbl[idx / B16] := p;
      }
    }

    /** The body of the reading loop for an accepted line with prefix `p` and index `idx`;
        `nextPtr` is the slot whose successor is still missing, -1 before the first line. */
    method AddLine(p: nat, idx: nat, nextPtr: int, prevPos: nat, prevP: int, prevIdx: int, ghost es: seq<Entry>,
        ghost k: nat)
      requires Loadable(es) && k < |es| && p == Prefix(es[k]) && idx == es[k].idx
      requires Filled(es, k) && prevIdx == PrevIdx(es, k)
      requires nextPtr == prevP == (if k == 0 then -1 else Prefix(es[k - 1])) &&
          prevPos == (if k == 0 then 1 else prevP + 1)
      modifies prefixTbl, idxTbl
      ensures Filled(es, k + 1)
    {
      hide Loadable, Sorted, EntryOk, WrittenSlot, Prefix, Count;
      LoadableAt(es, k);
      FillIdx(idx, prevIdx, p);
      if nextPtr >= 0 {
        prefixTbl[nextPtr] := prefixTbl[nextPtr].(next := p);
      }
      label Linked:
      FillGap(prevPos, p, prevP, prevIdx);
      prefixTbl[p] := prefixTbl[p].(prev := p, index := idx);
      forall i | 1 <= i < p
        ensures prefixTbl[i] == SlotOf(es, k + 1, i)
      {
        if k > 0 && i < prevP {
          SlotStable(es, k, i);
        } else {
          SlotGap(es, k, i);
        }
      }
    }

    /** `load_rtbl` on the lines of the prefix file.  The sizes after the loop are taken from
        the last line read, so the tables are right exactly if that line was an accepted one and the
        kept ones number the addresses without a gap. */
    method LoadRtbl(lines: seq<Entry>)
      requires Zeroed()
      requires |lines| > 0 && Loadable(Kept(lines)) && 2 <= lines[|lines| - 1].mask <= 32
      modifies this`maxIdx, this`maxPrefix, prefixTbl, idxTbl
      ensures LoadedTo(Value(), Kept(lines), lines[|lines| - 1].idx, lines[|lines| - 1].mask)
      ensures Loaded(Value(), Kept(lines)) <==> WellFormed(Kept(lines)) && ValidMask(lines[|lines| - 1].mask)
    {
      hide Loadable, Filled, LoadedTo, Loaded, WellFormed;
      ghost var es := Kept(lines);
      ghost var k := 0;
      NothingFilled(es);
      var prevPos: nat, prevP: int, p: int, prevIdx: int, nextPtr: int := 1, -1, -1, -1, -1;
      var idx, mask := 0, 32;
      var n := 0;
      while n < |lines|
        invariant n <= |lines| && k == |Kept(lines[..n])| <= |es|
        invariant Filled(es, k)
        invariant prevIdx == (if k == 0 then -1 else es[k - 1].idx)
        invariant nextPtr == prevP == p == (if k == 0 then -1 else Prefix(es[k - 1]))
        invariant prevPos == (if k == 0 then 1 else p + 1)
        invariant n > 0 ==> idx == lines[n - 1].idx && mask == lines[n - 1].mask
      {
        var line := lines[n];
        KeptAt(lines, n);
        idx, mask := line.idx, line.mask;
        n := n + 1;
        if !ValidMask(mask) {
          continue;
        }
        p := line.addr / Size(mask);
        AddLine(p, idx, nextPtr, prevPos, prevP, prevIdx, es, k);
        nextPtr := p;
        prevIdx := idx;
        prevP := p;
        prevPos := p + 1;
        k := k + 1;
      }
      assert lines[..n] == lines;
      LoadableLast(es);
      Finish(p, idx, mask, es);
      SizesIff(Value(), lines, idx, mask);
    }

    /** The statements after the loop. */
    method Finish(p: nat, idx: nat, mask: nat, ghost es: seq<Entry>)
      requires Loadable(es) && Filled(es, |es|) && 2 <= mask <= 32 && p == LastPrefix(es)
      modifies this`maxIdx, this`maxPrefix, prefixTbl
      ensures LoadedTo(Value(), es, idx, mask)
    {
      prefixTbl[p] := prefixTbl[p].(next := p + 1);
      prefixTbl[p + 1] := prefixTbl[p + 1].(index := prefixTbl[p].index + Span(mask));
      maxIdx := idx + Span(mask);
      maxPrefix := p + 1;
      PrefixRange(es[|es| - 1]);
      assert SlotOf(es, |es|, p) == PrefixEntry(p, p + 1, es[|es| - 1].idx);
    }

    /** The chain walk of `idx_to_ip`. */
    method WalkChain(prefix0: int, idx: nat, ghost es: seq<Entry>, ghost j0: nat) returns (prefix: int)
      requires Loaded(Value(), es) && idx < Total(es) && j0 < |es| && prefix0 == Prefix(es[j0])
      ensures prefix == Walk(Value(), es, j0, prefix0, idx)
    {
      hide Loaded, Prefix;
      ghost var tb, j := Value(), j0;
      prefix := prefix0;
      Chain(tb, es, j);
      while prefixTbl[prefixTbl[prefix].next].index <= idx
        invariant j < |es| && prefix == Prefix(es[j])
        invariant 0 <= prefix < prefixTbl.Length && 0 <= prefixTbl[prefix].next < prefixTbl.Length
        invariant Walk(tb, es, j, prefix, idx) == Walk(tb, es, j0, prefix0, idx)
        decreases |es| - j
      {
        WalkStep(tb, es, j, idx);
        prefix := prefixTbl[prefix].next;
        j := j + 1;
        Chain(tb, es, j);
      }
      Chain(tb, es, j);
    }

    static lemma WalkStep(tb: Tables, es: seq<Entry>, j: nat, idx: nat)
      requires Loaded(tb, es) && j < |es| && idx < Total(es)
      requires var p := Prefix(es[j]); 0 <= p < |tb.t| && 0 <= tb.t[p].next < |tb.t| && tb.t[tb.t[p].next].index <= idx
      ensures j + 1 < |es| && tb.t[Prefix(es[j])].next == Prefix(es[j + 1])
      ensures Walk(tb, es, j, Prefix(es[j]), idx) == Walk(tb, es, j + 1, Prefix(es[j + 1]), idx)
    {
      Chain(tb, es, j);
    }

    /** `idx_to_ip`.  The caller must stay below MAX_IDX: the source warns that a larger index
        never ends the chain walk. */
    method IdxToIpLookup(idx: nat, ghost es: seq<Entry>) returns (ip: int)
      requires Loaded(Value(), es) && idx < Total(es)
      ensures ip == IdxToIp(Value(), es, idx)
    {
      AccessOk(Value(), es, idx);
      var prefix := idxTbl[idx / B24];
      if prefix < B8 {
        return prefix * B24 + idx % B24;
      }
      prefix := idxTbl[idx / B16];
      if prefix < B16 {
        return prefix * B16 + idx % B16;
      }
      ghost var j: nat :| j < |es| && prefix == Prefix(es[j]);
      assert forall h :: 0 <= h < |es| && Prefix(es[h]) == prefix ==> h == j;
      prefix := WalkChain(prefix, idx, es, j);
      return prefix * B8 + idx % B8;
    }

    /** `ip_to_idx`. */
    method IpToIdxLookup(addr: nat) returns (idx: int)
      requires prefixTbl.Length == PREFIX_TBL_SIZE && addr < 0x1_0000_0000
      ensures idx == IpToIdx(Value(), addr)
    {
      var p24, h24 := addr / B8, addr % B8;
      if p24 < maxPrefix && prefixTbl[p24].prev == p24 {
        return prefixTbl[p24].index + h24;
      }
      var p16, h16 := addr / B16, addr % B16;
      if prefixTbl[p16].prev == p16 {
        return prefixTbl[p16].index + h16;
      }
      var p8, h8 := addr / B24, addr % B24;
      if prefixTbl[p8].prev == p8 {
        return prefixTbl[p8].index + h8;
      }
      return 0;
    }
  }
}
