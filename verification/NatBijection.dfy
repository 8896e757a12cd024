/** When index and address translation undo each other (nat_eval/nat.c). */
module NatBijection {
  import opened PrefixSpec
  import opened NatTable

  // ---------------------------------------------------------------- index to address

  lemma {:induction false} WalkFinds(tb: Tables, es: seq<Entry>, j: nat, l: nat, idx: nat)
    requires Loaded(tb, es) && j <= l < |es| && idx < Total(es) && HasIndex(es[l], idx)
    ensures Walk(tb, es, j, Prefix(es[j]), idx) == Prefix(es[l])
    decreases l - j
  {
    Chain(tb, es, j);
    if j < l {
      IdxGrows(es, j, l);
      WalkFinds(tb, es, j + 1, l, idx);
    }
  }

  lemma SlotTaken(y: nat, prev: int)
    requires y < B24 && y % B16 == 0 && -1 <= prev < y
    ensures WrittenSlot(y, prev) == y / B16
  {
  }

  lemma SlotKept(y: nat, prev: nat, x: nat)
    requires y % B16 == 0 && y <= prev < x < B24
    ensures WrittenSlot(x, prev) != y / B16
  {
  }

  /** Without /8 blocks and below 2^24 addresses, a line whose index is a multiple of 2^16
      fills its slot, and no later line takes it over. */
  lemma {:induction false} Slash16Slots(es: seq<Entry>, k: nat, j: nat)
    requires WellFormed(es) && Total(es) <= B24
    requires j < k <= |es| && es[j].idx % B16 == 0
    ensures IdxSlot(es, k, es[j].idx / B16) == Prefix(es[j])
    decreases k
  {
    hide WrittenSlot, EntryOk, Sorted;
    var last := k - 1;
    if last < |es| - 1 { IdxGrows(es, last, |es| - 1); }
    if last > 0 { IdxGrows(es, last - 1, last); }
    if j < last {
      if j < last - 1 { IdxGrows(es, j, last - 1); }
      SlotKept(es[j].idx, es[last - 1].idx, es[last].idx);
      Slash16Slots(es, k - 1, j);
    } else {
      SlotTaken(es[j].idx, PrevIdx(es, j));
    }
  }

  lemma FirstSlot(es: seq<Entry>)
    requires WellFormed(es) && NoSlash8(es) && Total(es) <= B24
    ensures IdxSlot(es, |es|, 0) == Prefix(es[0]) >= B8
  {
    Slash16Slots(es, |es|, 0);
    PrefixRange(es[0]);
  }

  lemma IdxToIpSlash8(tb: Tables, es: seq<Entry>, j: nat, idx: nat)
    requires Loaded(tb, es) && AllSlash8(es) && j < |es| && HasIndex(es[j], idx) && idx < Total(es)
    ensures IdxToIp(tb, es, idx) == Base(es[j]) + (idx - es[j].idx)
  {
    hide WrittenSlot, IdxSlot;
    Slash8Slots(es, j + 1, j);
    assert idx / B24 == j;
    Slash8Slots(es, |es|, j);
    PrefixRange(es[j]);
    AccessOk(tb, es, idx);
  }

  /** The line that starts the 2^16-slot of an index: `idx_tbl` holds its prefix. */
  lemma SlotHead(tb: Tables, es: seq<Entry>, j: nat, idx: nat) returns (h: nat)
    requires Loaded(tb, es) && NoSlash8(es) && Total(es) <= B24
    requires j < |es| && HasIndex(es[j], idx) && idx < Total(es)
    ensures h <= j && es[h].idx == idx / B16 * B16 && tb.ix[idx / B16] == Prefix(es[h])
    ensures tb.ix[idx / B24] >= B8
  {
    hide IdxSlot, WrittenSlot, EntryOk, Sorted, Contiguous, TableOk, Prefix;
    var s := idx / B16;
    h := FindBlock(es, |es|, s * B16);
    BlockStart(es, h, s);
    if j < h { IdxGrows(es, j, h); }
    Slash16Slots(es, |es|, h);
    FirstSlot(es);
    assert idx / B24 == 0 && s < IDX_TBL_SIZE;
    assert tb.ix[s] == IdxSlot(es, |es|, s);
  }

  /** A slot headed by a /24 line: the chain walk finds the line of the index. */
  lemma WalkFromSlot(tb: Tables, es: seq<Entry>, h: nat, j: nat, idx: nat)
    requires Loaded(tb, es) && idx < Total(es) && h <= j < |es| && HasIndex(es[j], idx)
    requires tb.ix[idx / B24] >= B8 && idx / B16 < IDX_TBL_SIZE && tb.ix[idx / B16] == Prefix(es[h]) >= B16
    ensures IdxToIp(tb, es, idx) == Prefix(es[j]) * B8 + idx % B8
  {
    hide WrittenSlot, IdxSlot, TableOk, EntryOk, Size;
    AccessOk(tb, es, idx);
    forall h': nat | h' < |es| && Prefix(es[h']) == Prefix(es[h])
      ensures Walk(tb, es, h', Prefix(es[h']), idx) == Prefix(es[j])
    {
      assert h' == h;
      WalkFinds(tb, es, h, j, idx);
    }
  }

  lemma DirectFromSlot(tb: Tables, es: seq<Entry>, idx: nat)
    requires Loaded(tb, es) && idx < Total(es) && tb.ix[idx / B24] >= B8
    requires idx / B16 < IDX_TBL_SIZE && 0 <= tb.ix[idx / B16] < B16
    ensures IdxToIp(tb, es, idx) == tb.ix[idx / B16] * B16 + idx % B16
  {
  }

  /** The host bits of an index are its offset in the block. */
  lemma HostBits(e: Entry, idx: nat)
    requires ValidMask(e.mask) && AlignedTo(e.idx, e.mask) && HasIndex(e, idx)
    ensures e.mask == 16 ==> idx / B16 == e.idx / B16 && Base(e) + (idx - e.idx) == Prefix(e) * B16 + idx % B16
    ensures e.mask == 24 ==> Base(e) + (idx - e.idx) == Prefix(e) * B8 + idx % B8
  {
  }

  lemma IdxToIpSlash16(tb: Tables, es: seq<Entry>, j: nat, idx: nat)
    requires Loaded(tb, es) && NoSlash8(es) && Total(es) <= B24
    requires j < |es| && HasIndex(es[j], idx) && idx < Total(es)
    ensures IdxToIp(tb, es, idx) == Base(es[j]) + (idx - es[j].idx)
  {
    hide WrittenSlot, IdxSlot, TableOk, IdxTblOk, IdxToIp, Base, AlignedTo, Prefix;
    var h := SlotHead(tb, es, j, idx);
    PrefixRange(es[h]);
    Aligned(es, j);
    MaskOrder(es, h, j);
    HostBits(es[j], idx);
    if h < j { IdxGrows(es, h, j); }
    if es[h].mask == 16 {
      assert h == j;
      DirectFromSlot(tb, es, idx);
    } else {
      WalkFromSlot(tb, es, h, j, idx);
    }
  }

  /** In one regime `idx_to_ip` yields the idx-th address of the file. */
  lemma IdxToIpRight(tb: Tables, es: seq<Entry>, idx: nat) returns (j: nat)
    requires Loaded(tb, es) && OneRegime(es) && idx < Total(es)
    ensures IdxToIp(tb, es, idx) >= 0 && Numbered(es, j, idx, IdxToIp(tb, es, idx))
  {
    j := FindBlock(es, |es|, idx);
    if AllSlash8(es) {
      IdxToIpSlash8(tb, es, j, idx);
    } else {
      IdxToIpSlash16(tb, es, j, idx);
    }
  }

  // ---------------------------------------------------------------- address to index

  /** A slot names itself as its own greatest prefix exactly when a line has that prefix. */
  lemma StoredIff(tb: Tables, es: seq<Entry>, x: nat)
    requires Loaded(tb, es) && 1 <= x < PREFIX_TBL_SIZE
    ensures tb.t[x].prev == x <==> exists k :: 0 <= k < |es| && Prefix(es[k]) == x
  {
    CountIs(es, |es|, x);
    forall k | 0 <= k < |es| && Prefix(es[k]) == x
      ensures tb.t[x].prev == x
    {
      StoredSlot(tb, es, k);
    }
  }

  lemma OneBlock(es: seq<Entry>, j: nat, k: nat, a: nat)
    requires Disjoint(es) && j < |es| && k < |es| && InBlock(es[j], a) && InBlock(es[k], a)
    ensures j == k
  {
  }

  /** A shorter prefix of a covered address is not mistaken for a stored longer one. */
  lemma NotStored(tb: Tables, es: seq<Entry>, j: nat, a: nat, m: nat, x: nat)
    requires Loaded(tb, es) && Disjoint(es) && j < |es| && InBlock(es[j], a)
    requires es[j].mask < m && ((m == 24 && x == a / B8) || (m == 16 && x == a / B16))
    ensures 1 <= x < PREFIX_TBL_SIZE && tb.t[x].prev != x
  {
    hide Disjoint, TableOk, IdxTblOk, Sorted, Contiguous, Prefix;
    BlockRange(es[j], a);
    forall k | 0 <= k < |es|
      ensures Prefix(es[k]) != x
    {
      SamePrefix(es[k], a, m, x);
      if InBlock(es[k], a) {
        OneBlock(es, j, k, a);
      }
    }
    StoredIff(tb, es, x);
  }

  lemma BlockRange(e: Entry, a: nat)
    requires EntryOk(e) && InBlock(e, a)
    ensures B24 <= a < 0x1_0000_0000
    ensures e.mask == 8 ==> a / B24 == Prefix(e) && a - Base(e) == a % B24
    ensures e.mask == 16 ==> a / B16 == Prefix(e) && a - Base(e) == a % B16
    ensures e.mask == 24 ==> a / B8 == Prefix(e) && a - Base(e) == a % B8
  {
  }

  lemma SamePrefix(e: Entry, a: nat, m: nat, x: nat)
    requires EntryOk(e) && B24 <= a < 0x1_0000_0000
    requires (m == 24 && x == a / B8) || (m == 16 && x == a / B16)
    ensures Prefix(e) == x ==> e.mask == m && InBlock(e, a)
  {
    PrefixRange(e);
  }

  /** `ip_to_idx` finds the index of every covered address of a file with disjoint blocks, in
      any regime. */
  lemma IpToIdxRight(tb: Tables, es: seq<Entry>, j: nat, a: nat)
    requires Loaded(tb, es) && Disjoint(es) && j < |es| && InBlock(es[j], a)
    ensures a < 0x1_0000_0000 && IpToIdx(tb, a) == es[j].idx + (a - Base(es[j]))
  {
    hide Disjoint, TableOk, IdxTblOk, Base, Prefix, InBlock, Sorted;
    StoredSlot(tb, es, j);
    BlockRange(es[j], a);
    if es[j].mask < 24 {
      NotStored(tb, es, j, a, 24, a / B8);
    }
    if es[j].mask < 16 {
      NotStored(tb, es, j, a, 16, a / B16);
    }
  }

  /** An address that no block covers gives 0, from 1.0.0.0 on. */
  lemma UncoveredIsZero(tb: Tables, es: seq<Entry>, a: nat)
    requires Loaded(tb, es) && B24 <= a < 0x1_0000_0000 && forall j :: 0 <= j < |es| ==> !InBlock(es[j], a)
    ensures IpToIdx(tb, a) == 0
  {
    hide TableOk, IdxTblOk, Sorted, Contiguous, Prefix, InBlock;
    NoPrefixOf(tb, es, a, 24, a / B8);
    NoPrefixOf(tb, es, a, 16, a / B16);
    NoPrefixOf(tb, es, a, 8, a / B24);
  }

  lemma NoPrefixOf(tb: Tables, es: seq<Entry>, a: nat, m: nat, x: nat)
    requires Loaded(tb, es) && B24 <= a < 0x1_0000_0000 && forall j :: 0 <= j < |es| ==> !InBlock(es[j], a)
    requires (m == 24 && x == a / B8) || (m == 16 && x == a / B16) || (m == 8 && x == a / B24)
    ensures 1 <= x < PREFIX_TBL_SIZE && tb.t[x].prev != x
  {
    hide TableOk, IdxTblOk, Sorted, Contiguous, Prefix;
    forall k | 0 <= k < |es|
      ensures Prefix(es[k]) != x
    {
      if m == 8 { ShortPrefix(es[k], a); } else { SamePrefix(es[k], a, m, x); }
    }
    StoredIff(tb, es, x);
  }

  lemma ShortPrefix(e: Entry, a: nat)
    requires EntryOk(e) && B24 <= a < 0x1_0000_0000
    ensures Prefix(e) == a / B24 ==> InBlock(e, a)
  {
    PrefixRange(e);
  }

  /** Every covered address survives the trip through its index. */
  lemma AddressRoundTrip(tb: Tables, es: seq<Entry>, j: nat, a: nat)
    requires Loaded(tb, es) && Disjoint(es) && OneRegime(es) && j < |es| && InBlock(es[j], a)
    ensures a < 0x1_0000_0000 && 0 <= IpToIdx(tb, a) < Total(es)
    ensures IdxToIp(tb, es, IpToIdx(tb, a)) == a
  {
    IpToIdxRight(tb, es, j, a);
    if j < |es| - 1 { IdxGrows(es, j, |es| - 1); }
    if AllSlash8(es) {
      IdxToIpSlash8(tb, es, j, IpToIdx(tb, a));
    } else {
      IdxToIpSlash16(tb, es, j, IpToIdx(tb, a));
    }
  }

  // ---------------------------------------------------------------- exactly when it works

  ghost predicate Survives(tb: Tables, es: seq<Entry>, idx: nat)
    requires Loaded(tb, es) && idx < Total(es)
  {
    0 <= IdxToIp(tb, es, idx) < 0x1_0000_0000 && IpToIdx(tb, IdxToIp(tb, es, idx)) == idx
  }

  lemma IndexRoundTrip(tb: Tables, es: seq<Entry>, idx: nat)
    requires Loaded(tb, es) && Disjoint(es) && OneRegime(es) && idx < Total(es)
    ensures Survives(tb, es, idx)
  {
    var j := IdxToIpRight(tb, es, idx);
    IpToIdxRight(tb, es, j, IdxToIp(tb, es, idx));
  }

  /** A line never fills slot 256, 512, ...: the line that starts such a stretch of 2^16
      indices also starts a new stretch of 2^24, and fills that level's slot instead. */
  lemma NotThatSlot(x: nat, prev: int, K: nat)
    requires (-1 <= prev < x < 0x8000_0000) || x == 0
    ensures K >= 1 ==> WrittenSlot(x, prev) != 256 * K
  {
    if prev >= 0 && x / B24 == prev / B24 && x / B16 == 256 * K {
      StretchStart(x, K);
      StretchStart(prev, K);
    }
  }

  lemma StretchStart(x: nat, K: nat)
    requires x / B16 == 256 * K || x / B24 == K
    ensures x / B24 == K && x / B16 >= 256 * K
    ensures x >= K * B24
  {
  }

  lemma {:induction false} SlotLost(es: seq<Entry>, k: nat, K: nat)
    requires WellFormed(es) && k <= |es| && K >= 1
    ensures IdxSlot(es, k, 256 * K) == 0
  {
    if k > 0 {
      SlotLost(es, k - 1, K);
      if k < |es| { IdxGrows(es, k - 1, |es| - 1); }
      if k > 1 { IdxGrows(es, k - 2, k - 1); }
      NotThatSlot(es[k - 1].idx, PrevIdx(es, k - 1), K);
    }
  }

  lemma SlotKMoves(x: nat, prev: nat, K: nat)
    requires K >= 1 && K * B24 <= prev < x
    ensures WrittenSlot(x, prev) != K
  {
    assert prev / B24 >= K && x / B16 >= 256 * K;
  }

  lemma {:induction false} SlotWon(es: seq<Entry>, k: nat, j: nat, K: nat)
    requires WellFormed(es) && j < k <= |es| && K >= 1 && es[j].idx == K * B24
    ensures IdxSlot(es, k, K) == Prefix(es[j])
    decreases k
  {
    hide EntryOk, Sorted;
    if k > 1 { IdxGrows(es, k - 2, k - 1); }
    if j < k - 1 {
      SlotWon(es, k - 1, j, K);
      if j < k - 2 { IdxGrows(es, j, k - 2); }
      SlotKMoves(es[k - 1].idx, es[k - 2].idx, K);
    }
  }

  /** The failing family: where a line other than a /8 starts at index K * 2^24, that index is
      sent to 0.0.0.0 and comes back as 0. */
  lemma FailsAt(tb: Tables, es: seq<Entry>, j: nat, K: nat)
    requires Loaded(tb, es) && j < |es| && es[j].mask != 8 && K >= 1 && es[j].idx == K * B24
    ensures K * B24 < Total(es) && IdxToIp(tb, es, K * B24) == 0 && IpToIdx(tb, 0) == 0
    ensures !Survives(tb, es, K * B24)
  {
    if j < |es| - 1 { IdxGrows(es, j, |es| - 1); }
    AccessOk(tb, es, K * B24);
    SlotWon(es, |es|, j, K);
    SlotLost(es, |es|, K);
    PrefixRange(es[j]);
    assert K * B24 / B24 == K && K * B24 / B16 == 256 * K && K * B24 % B16 == 0;
  }

  lemma {:induction false} FirstLonger(es: seq<Entry>, n: nat) returns (j: nat)
    requires WellFormed(es) && 0 < n < |es| && es[0].mask == 8 && es[n].mask != 8
    ensures 0 < j <= n && es[j].mask != 8 && es[j - 1].mask == 8
    decreases n
  {
    if es[n - 1].mask == 8 {
      j := n;
    } else {
      j := FirstLonger(es, n - 1);
    }
  }

  /** Outside the regime there is such a line. */
  lemma OutsideRegime(es: seq<Entry>) returns (j: nat, K: nat)
    requires WellFormed(es) && !OneRegime(es)
    ensures j < |es| && es[j].mask != 8 && K >= 1 && es[j].idx == K * B24
  {
    hide Sorted, Prefix;
    var l :| 0 <= l < |es| && es[l].mask != 8;
    if es[0].mask == 8 {
      j := FirstLonger(es, l);
      Aligned(es, j - 1);
      K := es[j - 1].idx / B24 + 1;
      assert es[j].idx == es[j - 1].idx + B24;
    } else {
      forall k | 0 <= k < |es|
        ensures es[k].mask != 8
      {
        MaskOrder(es, 0, k);
      }
      j := FindBlock(es, |es|, 256 * B16);
      BlockStart(es, j, 256);
      K := 1;
    }
  }

  /** A /24 line always wins: its first address gets its own index. */
  lemma LongestWins(tb: Tables, es: seq<Entry>, j: nat)
    requires Loaded(tb, es) && j < |es| && es[j].mask == 24
    ensures Base(es[j]) < 0x1_0000_0000 && IpToIdx(tb, Base(es[j])) == es[j].idx
  {
    hide TableOk, IdxTblOk, Sorted, Base, Prefix;
    StoredSlot(tb, es, j);
    assert InBlock(es[j], Base(es[j]));
    BlockRange(es[j], Base(es[j]));
  }

  lemma ShadowedIsLonger(x: Entry, y: Entry)
    requires EntryOk(x) && EntryOk(y) && Prefix(x) < Prefix(y) && x.mask <= y.mask
    requires Base(x) + Size(x.mask) > Base(y) && Base(y) + Size(y.mask) > Base(x)
    ensures x.mask < y.mask && Base(x) <= Base(y)
  {
    var p, q := Prefix(x), Prefix(y);
    assert x.mask == y.mask == 8 ==> p * B24 + B24 <= q * B24;
    assert x.mask == y.mask == 16 ==> p * B16 + B16 <= q * B16;
    assert x.mask == y.mask == 24 ==> p * B8 + B8 <= q * B8;
    assert x.mask == 8 && y.mask == 16 && q < p * B8 ==> q * B16 + B16 <= p * B24;
    assert x.mask == 16 && y.mask == 24 && q < p * B8 ==> q * B8 + B8 <= p * B16;
    assert x.mask == 8 && y.mask == 24 && q < p * B16 ==> q * B8 + B8 <= p * B24;
  }

  /** Overlapping blocks: the shadowed part of a /16 is given the /24's index. */
  lemma Overlap(tb: Tables, es: seq<Entry>) returns (idx: nat)
    requires Loaded(tb, es) && OneRegime(es) && !Disjoint(es)
    ensures idx < Total(es) && !Survives(tb, es, idx)
  {
    hide TableOk, IdxTblOk, Base, Prefix, IdxToIp, IpToIdx;
    var a, b :| 0 <= a < b < |es| && Base(es[a]) + Size(es[a].mask) > Base(es[b]) &&
        Base(es[b]) + Size(es[b].mask) > Base(es[a]);
    MaskOrder(es, a, b);
    ShadowedIsLonger(es[a], es[b]);
    idx := es[a].idx + (Base(es[b]) - Base(es[a]));
    IdxGrows(es, a, b);
    if b < |es| - 1 { IdxGrows(es, b, |es| - 1); }
    IdxToIpSlash16(tb, es, a, idx);
    LongestWins(tb, es, b);
  }

  /** The tables are a bijection on the indices exactly for files with disjoint blocks in one
      regime; both are visible in the file before it is loaded. */
  lemma RoundTripIff(tb: Tables, es: seq<Entry>)
    requires Loaded(tb, es)
    ensures (forall idx: nat | idx < Total(es) :: Survives(tb, es, idx)) <==> Disjoint(es) && OneRegime(es)
  {
    if Disjoint(es) && OneRegime(es) {
      forall idx: nat | idx < Total(es)
        ensures Survives(tb, es, idx)
      {
        IndexRoundTrip(tb, es, idx);
      }
    } else if OneRegime(es) {
      var idx := Overlap(tb, es);
    } else {
      var j, K := OutsideRegime(es);
      FailsAt(tb, es, j, K);
    }
  }

  /** Distinct indices get distinct addresses. */
  lemma IdxToIpInjective(tb: Tables, es: seq<Entry>, x: nat, y: nat)
    requires Loaded(tb, es) && Disjoint(es) && OneRegime(es) && x < Total(es) && y < Total(es)
    requires IdxToIp(tb, es, x) == IdxToIp(tb, es, y)
    ensures x == y
  {
    IndexRoundTrip(tb, es, x);
    IndexRoundTrip(tb, es, y);
  }
}
