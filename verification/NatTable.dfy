/** The NAT's address tables: loading, and translation between index and address
    (nat_eval/nat.c). */
module NatTable {
  import opened PrefixSpec

  datatype PrefixEntry = PrefixEntry(prev: int, next: int, index: int)

  const ZERO := PrefixEntry(0, 0, 0)

  // ---------------------------------------------------------------- what the tables hold

  /** How many of the first `k` prefixes are at most `i`. */
  function Count(es: seq<Entry>, k: nat, i: nat): (c: nat)
    requires k <= |es|
    ensures c <= k
  {
    if k == 0 then 0 else if Prefix(es[k - 1]) <= i then k else Count(es, k - 1, i)
  }

  /** Slot `i` once the first `k` prefixes are known. */
  function SlotOf(es: seq<Entry>, k: nat, i: nat): PrefixEntry
    requires 0 < k <= |es|
  {
    var c := Count(es, k, i);
    var next := if c < k then Prefix(es[c]) else Prefix(es[k - 1]) + 1;
    if c == 0 then PrefixEntry(-1, next, -1) else PrefixEntry(Prefix(es[c - 1]), next, es[c - 1].idx)
  }

  function LastPrefix(es: seq<Entry>): nat
    requires |es| > 0
  {
    Prefix(es[|es| - 1])
  }

  ghost predicate TableOk(t: seq<PrefixEntry>, es: seq<Entry>)
    requires |es| > 0
  {
    TableTo(t, es, Total(es))
  }

  /** Every slot of the table; the one after the last prefix carries `end`. */
  ghost predicate TableTo(t: seq<PrefixEntry>, es: seq<Entry>, end: int)
    requires |es| > 0
  {
    && |t| == PREFIX_TBL_SIZE && LastPrefix(es) + 1 < |t|
    && (forall i :: 1 <= i <= LastPrefix(es) ==> t[i] == SlotOf(es, |es|, i))
    && t[LastPrefix(es) + 1] == PrefixEntry(0, 0, end)
    && t[0] == ZERO
    && forall i :: LastPrefix(es) + 1 < i < |t| ==> t[i] == ZERO
  }

  /** (p, idx) is the greatest stored prefix <= i with its index, or (-1, -1). */
  ghost predicate GreatestAtMost(es: seq<Entry>, i: nat, p: int, idx: int) {
    if forall j :: 0 <= j < |es| ==> Prefix(es[j]) > i then p == idx == -1
    else
      && (exists j :: 0 <= j < |es| && p == Prefix(es[j]) <= i && idx == es[j].idx)
      && forall k :: 0 <= k < |es| && Prefix(es[k]) <= i ==> Prefix(es[k]) <= p
  }

  /** p is the least stored prefix > i, or the sentinel after the last one. */
  ghost predicate LeastAbove(es: seq<Entry>, i: nat, p: int)
    requires |es| > 0
  {
    if forall j :: 0 <= j < |es| ==> Prefix(es[j]) <= i then p == LastPrefix(es) + 1
    else
      && (exists j :: 0 <= j < |es| && p == Prefix(es[j]) > i)
      && forall k :: 0 <= k < |es| && Prefix(es[k]) > i ==> Prefix(es[k]) >= p
  }

  lemma SlotMeaning(t: seq<PrefixEntry>, es: seq<Entry>, i: nat)
    requires WellFormed(es) && TableOk(t, es) && 1 <= i <= LastPrefix(es)
    ensures GreatestAtMost(es, i, t[i].prev, t[i].index)
    ensures LeastAbove(es, i, t[i].next)
  {
    hide Contiguous, EntryOk, Total;
    CountIs(es, |es|, i);
    var c := Count(es, |es|, i);
    if c > 0 {
      assert t[i].prev == Prefix(es[c - 1]) <= i;
      assert forall k :: 0 <= k < c - 1 ==> Prefix(es[k]) < Prefix(es[c - 1]);
    }
    if c < |es| {
      assert t[i].next == Prefix(es[c]) > i;
      assert forall k :: c < k < |es| ==> Prefix(es[c]) < Prefix(es[k]);
    }
  }

  lemma {:induction false} CountIs(es: seq<Entry>, k: nat, i: nat)
    requires Sorted(es) && k <= |es|
    ensures forall j :: 0 <= j < k ==> (Prefix(es[j]) <= i <==> j < Count(es, k, i))
  {
    if k > 0 {
      if Prefix(es[k - 1]) > i {
        CountIs(es, k - 1, i);
      }
    }
  }

  // ---------------------------------------------------------------- the index table

  /** C division of a previous index, which is -1 before the first line. */
  function CDiv(x: int, d: nat): int
    requires d > 0
  {
    if x < 0 then -(-x / d) else x / d
  }

  function PrevIdx(es: seq<Entry>, j: nat): int
    requires j < |es|
  {
    if j == 0 then -1 else es[j - 1].idx
  }

  /** The slot line `j` writes, or -1: the same array serves the >>24 and the >>16 level. */
  function WrittenSlot(idx: nat, prevIdx: int): int {
    if idx == 0 then 0
    else if idx / B24 != CDiv(prevIdx, B24) then idx / B24
    else if idx / B16 != CDiv(prevIdx, B16) then idx / B16
    else -1
  }

  function IdxSlot(es: seq<Entry>, k: nat, s: nat): nat
    requires k <= |es|
  {
    if k == 0 then 0
    else if WrittenSlot(es[k - 1].idx, PrevIdx(es, k - 1)) == s then Prefix(es[k - 1])
    else IdxSlot(es, k - 1, s)
  }

  ghost predicate IdxTblOk(ix: seq<int>, es: seq<Entry>) {
    |ix| == IDX_TBL_SIZE && forall s :: 0 <= s < |ix| ==> ix[s] == IdxSlot(es, |es|, s)
  }

  // ---------------------------------------------------------------- translation

  /** The loaded tables as a value. */
  datatype Tables = Tables(t: seq<PrefixEntry>, ix: seq<int>, maxIdx: int, maxPrefix: int)

  ghost predicate Loaded(tb: Tables, es: seq<Entry>) {
    && WellFormed(es)
    && TableOk(tb.t, es)
    && IdxTblOk(tb.ix, es)
    && tb.maxIdx == Total(es)
    && tb.maxPrefix == LastPrefix(es) + 1
  }

  /** The stored prefixes form a chain: each `next` is the next stored prefix, or the sentinel
      slot that carries MAX_IDX. */
  lemma Chain(tb: Tables, es: seq<Entry>, j: nat)
    requires Loaded(tb, es) && j < |es|
    ensures var p := Prefix(es[j]);
      && 1 <= p < tb.t[p].next < |tb.t|
      && tb.t[p].prev == p && tb.t[p].index == es[j].idx
      && tb.t[p].next == (if j + 1 < |es| then Prefix(es[j + 1]) else p + 1)
      && tb.t[tb.t[p].next].index == es[j].idx + Size(es[j].mask)
  {
    StoredSlot(tb, es, j);
    if j + 1 < |es| {
      StoredSlot(tb, es, j + 1);
      assert Prefix(es[j]) < Prefix(es[j + 1]);
    }
  }

  /** The slot of a stored prefix. */
  lemma StoredSlot(tb: Tables, es: seq<Entry>, j: nat)
    requires Loaded(tb, es) && j < |es|
    ensures 1 <= Prefix(es[j]) <= LastPrefix(es)
    ensures tb.t[Prefix(es[j])] ==
        PrefixEntry(Prefix(es[j]), if j + 1 < |es| then Prefix(es[j + 1]) else Prefix(es[j]) + 1, es[j].idx)
  {
    PrefixRange(es[j]);
    assert j < |es| - 1 ==> Prefix(es[j]) < LastPrefix(es);
    CountIs(es, |es|, Prefix(es[j]));
    assert j + 1 < |es| ==> Prefix(es[j]) < Prefix(es[j + 1]);
  }

  /** The chain walk of `idx_to_ip`, from the prefix of line `j`. */
  function Walk(tb: Tables, ghost es: seq<Entry>, ghost j: nat, prefix: int, idx: nat): (p: int)
    requires Loaded(tb, es) && j < |es| && prefix == Prefix(es[j]) && idx < Total(es)
    ensures exists k :: j <= k < |es| && p == Prefix(es[k])
    decreases |es| - j
  {
    Chain(tb, es, j);
    var next := tb.t[prefix].next;
    if tb.t[next].index <= idx then Walk(tb, es, j + 1, next, idx) else prefix
  }

  lemma {:induction false} SlotIsStored(es: seq<Entry>, k: nat, s: nat)
    requires k <= |es|
    ensures IdxSlot(es, k, s) == 0 || exists j :: 0 <= j < k && IdxSlot(es, k, s) == Prefix(es[j])
  {
    if k > 0 && WrittenSlot(es[k - 1].idx, PrevIdx(es, k - 1)) != s {
      SlotIsStored(es, k - 1, s);
    }
  }

  /** In an all-/8 file line `j` has index j * 2^24 and fills slot `j`. */
  lemma {:induction false} Slash8Slots(es: seq<Entry>, k: nat, s: nat)
    requires WellFormed(es) && AllSlash8(es) && k <= |es|
    ensures k > 0 ==> es[k - 1].idx == (k - 1) * B24
    ensures IdxSlot(es, k, s) == if s < k then Prefix(es[s]) else 0
  {
    if k > 0 {
      Slash8Slots(es, k - 1, s);
      assert es[k - 1].idx == (k - 1) * B24;
      assert k > 1 ==> es[k - 2].idx / B24 == k - 2;
    }
  }

  /** The array accesses of `idx_to_ip` are in bounds, and the chain walk starts at a stored
      prefix. */
  lemma AccessOk(tb: Tables, es: seq<Entry>, idx: nat)
    requires Loaded(tb, es) && idx < Total(es)
    ensures idx / B24 < IDX_TBL_SIZE && tb.ix[idx / B24] >= 0
    ensures tb.ix[idx / B24] >= B8 ==> idx / B16 < IDX_TBL_SIZE && tb.ix[idx / B16] >= 0
    ensures tb.ix[idx / B24] >= B8 && tb.ix[idx / B16] >= B16 ==>
        exists j :: 0 <= j < |es| && tb.ix[idx / B16] == Prefix(es[j])
  {
    if AllSlash8(es) {
      Slash8Slots(es, |es|, idx / B24);
      PrefixRange(es[if idx / B24 < |es| then idx / B24 else 0]);
    } else {
      SlotIsStored(es, |es|, idx / B16);
    }
  }

  /** `idx_to_ip`. */
  function IdxToIp(tb: Tables, ghost es: seq<Entry>, idx: nat): nat
    requires Loaded(tb, es) && idx < Total(es)
  {
    AccessOk(tb, es, idx);
    var p := tb.ix[idx / B24];
    if p < B8 then p * B24 + idx % B24
    else
      var q := tb.ix[idx / B16];
      if q < B16 then q * B16 + idx % B16
      else
        ghost var j: nat :| j < |es| && q == Prefix(es[j]);
        Walk(tb, es, j, q, idx) * B8 + idx % B8
  }

  /** `ip_to_idx`; 0 stands for "not found" too. */
  function IpToIdx(tb: Tables, addr: nat): int
    requires |tb.t| == PREFIX_TBL_SIZE && addr < 0x1_0000_0000
  {
    var p24, p16, p8 := addr / B8, addr / B16, addr / B24;
    if p24 < tb.maxPrefix && tb.t[p24].prev == p24 then tb.t[p24].index + addr % B8
    else if tb.t[p16].prev == p16 then tb.t[p16].index + addr % B16
    else if tb.t[p8].prev == p8 then tb.t[p8].index + addr % B24
    else 0
  }
}
