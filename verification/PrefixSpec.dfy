/** The prefix file of the NAT and what its tables should mean (nat_eval/nat.c).

    A prefix file lists address blocks of length /8, /16 or /24, each with the index of its
    first address.  Addresses are in host byte order throughout; the source's htonl/ntohl
    pairs cancel.
  */
module PrefixSpec {
  const B24: nat := 0x100_0000
  const B16: nat := 0x1_0000
  const B8: nat := 0x100
  const PREFIX_TBL_SIZE: nat := B24
  const IDX_TBL_SIZE: nat := 2000

  /** One line of the file: address, prefix length, index of the first address. */
  datatype Entry = Entry(addr: nat, mask: nat, idx: nat)

  predicate ValidMask(m: nat) { m == 8 || m == 16 || m == 24 }

  /** `1 << (32 - mask)` for the three accepted lengths. */
  function Size(mask: nat): nat { if mask == 8 then B24 else if mask == 16 then B16 else B8 }

  /** The prefix number: the address without its host bits. */
  function Prefix(e: Entry): nat { e.addr / Size(e.mask) }

  function Base(e: Entry): nat { Prefix(e) * Size(e.mask) }

  function Total(es: seq<Entry>): nat
    requires |es| > 0
  {
    var e := es[|es| - 1]; e.idx + Size(e.mask)
  }

  ghost predicate AllSlash8(es: seq<Entry>) { forall j :: 0 <= j < |es| ==> es[j].mask == 8 }

  ghost predicate NoSlash8(es: seq<Entry>) { forall j :: 0 <= j < |es| ==> es[j].mask != 8 }

  ghost predicate EntryOk(e: Entry) {
    ValidMask(e.mask) && B24 <= e.addr < 0x1_0000_0000 && Prefix(e) + 1 < PREFIX_TBL_SIZE
  }

  ghost predicate Sorted(es: seq<Entry>) {
    forall j, k :: 0 <= j < k < |es| ==> Prefix(es[j]) < Prefix(es[k])
  }

  ghost predicate Contiguous(es: seq<Entry>) {
    (|es| > 0 ==> es[0].idx == 0) && forall j :: 0 < j < |es| ==> es[j].idx == es[j - 1].idx + Size(es[j - 1].mask)
  }

  /** The shape of the file the loader is written for: sorted by prefix number, indices
      contiguous from 0, no block in 0.0.0.0/8, and small enough for the two arrays and for
      32-bit indices. */
  ghost predicate WellFormed(es: seq<Entry>) {
    && |es| > 0
    && (forall j :: 0 <= j < |es| ==> EntryOk(es[j]))
    && Sorted(es)
    && Contiguous(es)
    && Total(es) < 0x8000_0000
    && (AllSlash8(es) || Total(es) <= IDX_TBL_SIZE * B16)
  }

  ghost predicate Disjoint(es: seq<Entry>) {
    forall j, k :: 0 <= j < k < |es| ==>
        Base(es[j]) + Size(es[j].mask) <= Base(es[k]) || Base(es[k]) + Size(es[k].mask) <= Base(es[j])
  }

  /** The one regime in which the shared index slots do not clash; a reader of the file can
      check it before loading. */
  ghost predicate OneRegime(es: seq<Entry>) {
    AllSlash8(es) || (NoSlash8(es) && Total(es) <= B24)
  }

  // ---------------------------------------------------------------- reference meaning

  ghost predicate InBlock(e: Entry, a: nat) { Base(e) <= a < Base(e) + Size(e.mask) }

  ghost predicate HasIndex(e: Entry, i: nat) { e.idx <= i < e.idx + Size(e.mask) }

  /** The `i`-th address of the file is `a`, and it lies in block `j`. */
  ghost predicate Numbered(es: seq<Entry>, j: nat, i: nat, a: nat) {
    j < |es| && HasIndex(es[j], i) && InBlock(es[j], a) && a - Base(es[j]) == i - es[j].idx
  }

  // ---------------------------------------------------------------- shape lemmas

  /** Prefix numbers tell the lengths apart, so sorting puts /8 before /16 before /24. */
  lemma PrefixRange(e: Entry)
    requires EntryOk(e)
    ensures e.mask == 8 ==> 1 <= Prefix(e) < B8
    ensures e.mask == 16 ==> B8 <= Prefix(e) < B16
    ensures e.mask == 24 ==> B16 <= Prefix(e)
  {
  }

  lemma MaskOrder(es: seq<Entry>, j: nat, k: nat)
    requires WellFormed(es) && j <= k < |es|
    ensures es[j].mask <= es[k].mask
  {
    PrefixRange(es[j]);
    PrefixRange(es[k]);
    assert j < k ==> Prefix(es[j]) < Prefix(es[k]);
  }

  lemma {:induction false} IdxGrows(es: seq<Entry>, j: nat, k: nat)
    requires WellFormed(es) && j < k < |es|
    ensures es[j].idx + Size(es[j].mask) <= es[k].idx
    decreases k
  {
    if j < k - 1 {
      IdxGrows(es, j, k - 1);
    }
  }

  /** Divisible by the block size, written out so that every modulus is a constant. */
  predicate AlignedTo(x: nat, mask: nat) {
    if mask == 8 then x % B24 == 0 else if mask == 16 then x % B16 == 0 else x % B8 == 0
  }

  lemma NextAligned(x: nat, m: nat, m': nat)
    requires ValidMask(m) && ValidMask(m') && m <= m' && AlignedTo(x, m)
    ensures AlignedTo(x + Size(m), m')
  {
    if m == 8 {
      var q := x / B24 + 1;
      assert x + B24 == B24 * q == B16 * (B8 * q) == B8 * (B16 * q);
    } else if m == 16 {
      var q := x / B16 + 1;
      assert x + B16 == B16 * q == B8 * (B8 * q);
    }
  }

  /** Every block starts at a multiple of its own size. */
  lemma {:induction false} Aligned(es: seq<Entry>, j: nat)
    requires WellFormed(es) && j < |es|
    ensures AlignedTo(es[j].idx, es[j].mask)
    decreases j
  {
    if j > 0 {
      Aligned(es, j - 1);
      MaskOrder(es, j - 1, j);
      NextAligned(es[j - 1].idx, es[j - 1].mask, es[j].mask);
    }
  }

  /** Every index below the total belongs to some block. */
  lemma {:induction false} FindBlock(es: seq<Entry>, n: nat, i: nat) returns (j: nat)
    requires WellFormed(es) && 0 < n <= |es| && i < es[n - 1].idx + Size(es[n - 1].mask)
    ensures j < n && HasIndex(es[j], i)
    decreases n
  {
    if es[n - 1].idx <= i {
      j := n - 1;
    } else {
      j := FindBlock(es, n - 1, i);
    }
  }

  lemma OneMultiple(x: nat, y: nat, m: nat)
    requires ValidMask(m) && AlignedTo(x, m) && AlignedTo(y, m) && x <= y < x + Size(m)
    ensures x == y
  {
    if m == 8 {
      assert x == B24 * (x / B24) && y == B24 * (y / B24);
    } else if m == 16 {
      assert x == B16 * (x / B16) && y == B16 * (y / B16);
    } else {
      assert x == B8 * (x / B8) && y == B8 * (y / B8);
    }
  }

  lemma StretchAligned(s: nat, m: nat)
    requires ValidMask(m) && (m != 8 || s % B8 == 0)
    ensures AlignedTo(s * B16, m)
  {
    if m == 8 {
      assert s * B16 == (s / B8) * B24;
    } else if m == 24 {
      assert s * B16 == (s * B8) * B8;
    }
  }

  /** An index that is a multiple of its block's size is where the block starts. */
  lemma BlockStart(es: seq<Entry>, j: nat, s: nat)
    requires WellFormed(es) && j < |es| && HasIndex(es[j], s * B16)
    requires es[j].mask != 8 || s % B8 == 0
    ensures es[j].idx == s * B16
  {
    hide AlignedTo, Size, Sorted, Contiguous;
    Aligned(es, j);
    StretchAligned(s, es[j].mask);
    OneMultiple(es[j].idx, s * B16, es[j].mask);
  }
}
