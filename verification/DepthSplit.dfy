/** An IPv6 prefix as four 32-bit fields of an access rule (ipsec_eval/sp6.c:318-348, 372-402): the
    four word masks together match exactly the addresses that begin with the prefix. */
module DepthSplit {
  import opened Basics
  import opened Bits

  /** A field of a rule: a word and how many of its leading bits count. */
  datatype RuleField = RuleField(value: nat, maskRange: nat)

  /** Bit `i` of an address, from the left. */
  function AddrBit(a: seq<Byte>, i: nat): nat
    requires i < 8 * |a|
  {
    Bit(a[i / 8], 7 - i % 8)
  }

  ghost predicate FirstBits(a: seq<Byte>, b: seq<Byte>, n: nat)
    requires |a| == |b| && n <= 8 * |a|
  {
    forall i :: 0 <= i < n ==> AddrBit(a, i) == AddrBit(b, i)
  }

  /** v << n */
  function Shl(v: nat, n: nat): nat { v * Pow2(n) }

  /** a << 24 | b << 16 | c << 8 | d */
  function Word32(a: nat, b: nat, c: nat, d: nat): nat {
    Or(Or(Or(Shl(a, 24), Shl(b, 16)), Shl(c, 8)), d)
  }

  function WordAt(a: seq<Byte>, k: nat): nat
    requires 4 * k + 4 <= |a|
  {
    Word32(a[4 * k], a[4 * k + 1], a[4 * k + 2], a[4 * k + 3])
  }

  /** A mask field compares the leading bits of a 32-bit word. */
  predicate WordMatches(f: RuleField, w: nat) {
    f.maskRange <= 32 && Shr(f.value, 32 - f.maskRange) == Shr(w, 32 - f.maskRange)
  }

  predicate Matches(fs: seq<RuleField>, a: seq<Byte>)
    requires |fs| == 4 && |a| == 16
  {
    && WordMatches(fs[0], WordAt(a, 0)) && WordMatches(fs[1], WordAt(a, 1))
    && WordMatches(fs[2], WordAt(a, 2)) && WordMatches(fs[3], WordAt(a, 3))
  }

  // ---------------------------------------------------------------- bits of words

  lemma {:induction false} BitOr(a: nat, b: nat, k: nat)
    ensures Bit(Or(a, b), k) == if Bit(a, k) == 1 || Bit(b, k) == 1 then 1 else 0
    decreases k
  {
    OrStep(a, b);
    if k > 0 { BitOr(a / 2, b / 2, k - 1); }
  }

  lemma {:induction false} BitShifted(a: nat, n: nat, k: nat)
    ensures Bit(Shl(a, n), k) == if k < n then 0 else Bit(a, k - n)
    decreases n
  {
    hide Bit, Shl;
    if n > 0 {
      ShlStep(a, n);
      BitStep(Shl(a, n), k);
      if k > 0 { BitShifted(a, n - 1, k - 1); }
    } else {
      ShlNone(a);
    }
  }

  lemma ShlStep(a: nat, n: nat)
    requires n > 0
    ensures Shl(a, n) % 2 == 0 && Shl(a, n) / 2 == Shl(a, n - 1)
  {
    DoubleMul(a, Pow2(n - 1));
    assert Shl(a, n) == 2 * Shl(a, n - 1);
  }

  lemma ShlNone(a: nat)
    ensures Shl(a, 0) == a
  {
  }

  lemma BitStep(x: nat, k: nat)
    ensures Bit(x, k) == if k == 0 then x % 2 else Bit(x / 2, k - 1)
  {
  }

  lemma ByteBits(b: Byte, k: nat)
    requires k >= 8
    ensures Bit(b, k) == 0
  {
    hide Pow2;
    Pow2Values();
    Pow2Mono(8, k);
    ShrSmall(b, k);
  }

  lemma WordBit(a: Byte, b: Byte, c: Byte, d: Byte, k: nat)
    requires k < 32
    ensures Bit(Word32(a, b, c, d), k) ==
        if k >= 24 then Bit(a, k - 24) else if k >= 16 then Bit(b, k - 16) else if k >= 8 then Bit(c, k - 8)
        else Bit(d, k)
  {
    hide Pow2, Bit, Or;
    BitOr(Or(Or(Shl(a, 24), Shl(b, 16)), Shl(c, 8)), d, k);
    BitOr(Or(Shl(a, 24), Shl(b, 16)), Shl(c, 8), k);
    BitOr(Shl(a, 24), Shl(b, 16), k);
    BitShifted(a, 24, k);
    BitShifted(b, 16, k);
    BitShifted(c, 8, k);
    if k >= 8 { ByteBits(d, k); }
    if k >= 16 { ByteBits(c, k - 8); }
    if k >= 24 { ByteBits(b, k - 16); }
  }

  /** Bit `i` of a 32-bit word, from the left. */
  function LeadBit(w: nat, i: nat): nat
    requires i < 32
  {
    Bit(w, 31 - i)
  }

  /** Bit i of a word from the left is the bit of the address it came from. */
  lemma WordShowsAddress(a: seq<Byte>, k: nat, i: nat)
    requires 4 * k + 4 <= |a| && 32 * k <= i < 32 * k + 32
    ensures LeadBit(WordAt(a, k), i - 32 * k) == AddrBit(a, i)
  {
    hide Word32, Bit;
    WordBit(a[4 * k], a[4 * k + 1], a[4 * k + 2], a[4 * k + 3], 31 - (i - 32 * k));
  }

  lemma {:induction false} OrBound(a: nat, b: nat, n: nat)
    requires a < Pow2(n) && b < Pow2(n)
    ensures Or(a, b) < Pow2(n)
    decreases n
  {
    if n > 0 {
      OrBound(a / 2, b / 2, n - 1);
      OrStep(a, b);
    }
  }

  lemma WordBound(a: Byte, b: Byte, c: Byte, d: Byte)
    ensures Word32(a, b, c, d) < Pow2(32)
  {
    hide Pow2, Or;
    Pow2Values();
    OrBound(Shl(a, 24), Shl(b, 16), 32);
    OrBound(Or(Shl(a, 24), Shl(b, 16)), Shl(c, 8), 32);
    OrBound(Or(Or(Shl(a, 24), Shl(b, 16)), Shl(c, 8)), d, 32);
  }

  lemma BitOfShr(v: nat, n: nat, j: nat)
    ensures Bit(Shr(v, n), j) == Bit(v, n + j)
  {
    ShrShr(v, n, j);
  }

  ghost predicate SameLead(v: nat, w: nat, n: nat)
    requires n <= 32
  {
    forall i :: 0 <= i < n ==> LeadBit(v, i) == LeadBit(w, i)
  }

  /** Two 32-bit words agree after a shift exactly if they agree in their leading bits. */
  lemma LeadingBits(v: nat, w: nat, n: nat)
    requires v < Pow2(32) && w < Pow2(32) && n <= 32
    ensures Shr(v, 32 - n) == Shr(w, 32 - n) <==> SameLead(v, w, n)
  {
    hide Pow2, Shr, Bit;
    var x, y := Shr(v, 32 - n), Shr(w, 32 - n);
    if x == y {
      forall i | 0 <= i < n ensures LeadBit(v, i) == LeadBit(w, i) {
        BitOfShr(v, 32 - n, n - 1 - i);
        BitOfShr(w, 32 - n, n - 1 - i);
      }
    }
    if SameLead(v, w, n) { SameLeadSameWord(v, w, n); }
  }

  lemma SameLeadSameWord(v: nat, w: nat, n: nat)
    requires v < Pow2(32) && w < Pow2(32) && n <= 32 && SameLead(v, w, n)
    ensures Shr(v, 32 - n) == Shr(w, 32 - n)
  {
    hide Pow2, Shr, Bit;
    ShrBound(v, 32 - n, n);
    ShrBound(w, 32 - n, n);
    var x, y := Shr(v, 32 - n), Shr(w, 32 - n);
    forall k | 0 <= k < n ensures Bit(x, k) == Bit(y, k) {
      BitOfShr(v, 32 - n, k);
      BitOfShr(w, 32 - n, k);
      assert LeadBit(v, n - 1 - k) == LeadBit(w, n - 1 - k);
    }
    SameBits(x, y, n);
  }

  /** One word of the prefix against one word of an address. */
  lemma WordMatchesIff(ip: seq<Byte>, a: seq<Byte>, k: nat, n: nat)
    requires |ip| == |a| == 16 && k < 4 && n <= 32
    ensures WordMatches(RuleField(WordAt(ip, k), n), WordAt(a, k)) <==>
        forall i :: 32 * k <= i < 32 * k + n ==> AddrBit(ip, i) == AddrBit(a, i)
  {
    hide Word32, LeadBit, Shr, Pow2, AddrBit;
    WordBound(ip[4 * k], ip[4 * k + 1], ip[4 * k + 2], ip[4 * k + 3]);
    WordBound(a[4 * k], a[4 * k + 1], a[4 * k + 2], a[4 * k + 3]);
    var v, w := WordAt(ip, k), WordAt(a, k);
    LeadingBits(v, w, n);
    SameLeadIff(ip, a, k, n);
  }

  lemma SameLeadIff(ip: seq<Byte>, a: seq<Byte>, k: nat, n: nat)
    requires |ip| == |a| == 16 && k < 4 && n <= 32
    ensures SameLead(WordAt(ip, k), WordAt(a, k), n) <==>
        forall i :: 32 * k <= i < 32 * k + n ==> AddrBit(ip, i) == AddrBit(a, i)
  {
    hide WordAt, LeadBit, AddrBit;
    var v, w := WordAt(ip, k), WordAt(a, k);
    forall i | 32 * k <= i < 32 * k + n
      ensures LeadBit(v, i - 32 * k) == AddrBit(ip, i) && LeadBit(w, i - 32 * k) == AddrBit(a, i)
    {
      WordShowsAddress(ip, k, i);
      WordShowsAddress(a, k, i);
    }
    if forall i :: 32 * k <= i < 32 * k + n ==> AddrBit(ip, i) == AddrBit(a, i) {
      forall j | 0 <= j < n ensures LeadBit(v, j) == LeadBit(w, j) {
        assert AddrBit(ip, 32 * k + j) == AddrBit(a, 32 * k + j);
      }
    }
  }

  // ---------------------------------------------------------------- the split

  /** How many bits of word `k` a prefix of `depth` bits reaches into. */
  function Reach(depth: nat, k: nat): nat { if depth <= 32 * k then 0 else Min(32, depth - 32 * k) }

  /** Word by word, the reach of the prefix covers exactly its leading bits. */
  lemma ReachCovers(fs: seq<RuleField>, ip: seq<Byte>, depth: nat, a: seq<Byte>)
    requires |fs| == 4 && |ip| == |a| == 16
    requires forall k :: 0 <= k < 4 ==> fs[k] == RuleField(WordAt(ip, k), Reach(depth, k))
    ensures Matches(fs, a) <==> FirstBits(ip, a, Min(depth, 128))
  {
    hide WordAt, WordMatches, AddrBit;
    WordMatchesIff(ip, a, 0, Reach(depth, 0));
    WordMatchesIff(ip, a, 1, Reach(depth, 1));
    WordMatchesIff(ip, a, 2, Reach(depth, 2));
    WordMatchesIff(ip, a, 3, Reach(depth, 3));
  }

  // The four value and mask fields of a source (from field 1) or destination (from field 5)
  // prefix: they match exactly the addresses that share its first min(depth, 128) bits, and the
  // mask lengths add up to that number, as the printer shows it.
  method SplitPrefix(ip: seq<Byte>, prefixLen: nat, field: array<RuleField>, base: nat)
    requires |ip| == 16 && base + 4 <= field.Length
    modifies field
    ensures forall a: seq<Byte> | |a| == 16 :: Matches(field[base..base + 4], a) <==>
        FirstBits(ip, a, Min(prefixLen, 128))
    ensures field[base].maskRange + field[base + 1].maskRange + field[base + 2].maskRange +
        field[base + 3].maskRange == Min(prefixLen, 128)
    ensures field[..base] == old(field[..base]) && field[base + 4..] == old(field[base + 4..])
  {
    hide Word32, Matches, FirstBits;
    var depth := prefixLen;
    field[base] := RuleField(Word32(ip[0], ip[1], ip[2], ip[3]), if depth > 32 then 32 else depth);
    depth := if depth > 32 then depth - 32 else 0;
    field[base + 1] := RuleField(Word32(ip[4], ip[5], ip[6], ip[7]), if depth > 32 then 32 else depth);
    depth := if depth > 32 then depth - 32 else 0;
    field[base + 2] := RuleField(Word32(ip[8], ip[9], ip[10], ip[11]), if depth > 32 then 32 else depth);
    depth := if depth > 32 then depth - 32 else 0;
    field[base + 3] := RuleField(Word32(ip[12], ip[13], ip[14], ip[15]), if depth > 32 then 32 else depth);
    ghost var fs := field[base..base + 4];
    assert fs == [field[base], field[base + 1], field[base + 2], field[base + 3]];
    assert fs[0] == RuleField(WordAt(ip, 0), Reach(prefixLen, 0));
    assert fs[1] == RuleField(WordAt(ip, 1), Reach(prefixLen, 1));
    assert fs[2] == RuleField(WordAt(ip, 2), Reach(prefixLen, 2));
    assert fs[3] == RuleField(WordAt(ip, 3), Reach(prefixLen, 3));
    forall a: seq<Byte> | |a| == 16
      ensures Matches(fs, a) <==> FirstBits(ip, a, Min(prefixLen, 128))
    {
      ReachCovers(fs, ip, prefixLen, a);
    }
  }
}
