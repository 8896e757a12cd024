/** The NAT with FF3 decryption as it is written (nat_eval/nat.c:454-494): when does a reply return
    to its source?  10.0.0.0 is or'ed over the host that comes back, which hides two of its bits. */
module NatAsWritten {
  import opened Basics
  import opened Bits
  import opened Ff3
  import opened Ff3AsWritten
  import opened PrefixSpec
  import opened NatTable
  import opened NatPacket

  // ---------------------------------------------------------------- one block

  /** The halves that decryption as written returns, for the configured number of rounds. */
  function Recovered(f: RoundFn, tw: Tweak, len: nat, h: Halves): (g: Halves)
    ensures Fits(len, 0, g)
  {
    Halves(Mod(h.a + Added(f, tw, len, NUM_ROUNDS, h, 0) - TakenOff(f, tw, NUM_ROUNDS, 0), Pow2(U(len))),
           Mod(h.b + Added(f, tw, len, NUM_ROUNDS, h, 1) - TakenOff(f, tw, NUM_ROUNDS, 1), Pow2(V(len))))
  }

  lemma RecoveredIs(f: RoundFn, tw: Tweak, len: nat, h: Halves)
    requires Fits(len, 0, h)
    ensures DecRounds(Blind(f), tw, len, NUM_ROUNDS, EncRounds(f, tw, len, NUM_ROUNDS, h)) == Recovered(f, tw, len, h)
  {
    hide EncRounds, DecRounds, Added, TakenOff, Pow2, Mod, Blind;
    AsWrittenHalves(f, tw, len, NUM_ROUNDS, h);
    ModAbsorb(h.a + Added(f, tw, len, NUM_ROUNDS, h, 0), -TakenOff(f, tw, NUM_ROUNDS, 0), Pow2(U(len)));
    ModAbsorb(h.b + Added(f, tw, len, NUM_ROUNDS, h, 1), -TakenOff(f, tw, NUM_ROUNDS, 1), Pow2(V(len)));
  }

  /** Decrypting as written what was encrypted joins the recovered halves. */
  lemma RecoveredWord(f: RoundFn, tw: Tweak, len: nat, x: nat)
    ensures Decrypt(Blind(f), tw, len, NUM_ROUNDS, Encrypt(f, tw, len, NUM_ROUNDS, x))
         == Close(Recovered(f, tw, len, Open(x, len)), len)
  {
    hide EncRounds, DecRounds, Open, Close, Recovered, Blind, Fits;
    var h := Open(x, len);
    var e := EncRounds(f, tw, len, NUM_ROUNDS, h);
    EncRoundsFit(f, tw, len, NUM_ROUNDS, h);
    EvenRoundsFit(len, NUM_ROUNDS, e);
    OpenClose(e, len);
    RecoveredIs(f, tw, len, h);
  }

  /** The condition of AsWrittenIff for the configured number of rounds. */
  predicate SumsAgree(f: RoundFn, tw: Tweak, len: nat, h: Halves) {
    && Mod(Added(f, tw, len, NUM_ROUNDS, h, 0) - TakenOff(f, tw, NUM_ROUNDS, 0), Pow2(U(len))) == 0
    && Mod(Added(f, tw, len, NUM_ROUNDS, h, 1) - TakenOff(f, tw, NUM_ROUNDS, 1), Pow2(V(len))) == 0
  }

  lemma HalfReturns(a: nat, s: int, t: int, d: nat)
    requires a < d
    ensures Mod(a + s - t, d) == a <==> Mod(s - t, d) == 0
  {
    ModReturns(a, s, t, d);
    ModAbsorb(a + s, -t, d);
  }

  lemma SumsReturn(f: RoundFn, tw: Tweak, len: nat, h: Halves)
    requires Fits(len, 0, h)
    ensures SumsAgree(f, tw, len, h) <==> Recovered(f, tw, len, h) == h
    ensures Mod(Added(f, tw, len, NUM_ROUNDS, h, 1) - TakenOff(f, tw, NUM_ROUNDS, 1), Pow2(V(len))) == 0
       <==> Recovered(f, tw, len, h).b == h.b
  {
    hide Added, TakenOff, Pow2, Mod;
    HalfReturns(h.a, Added(f, tw, len, NUM_ROUNDS, h, 0), TakenOff(f, tw, NUM_ROUNDS, 0), Pow2(U(len)));
    HalfReturns(h.b, Added(f, tw, len, NUM_ROUNDS, h, 1), TakenOff(f, tw, NUM_ROUNDS, 1), Pow2(V(len)));
  }

  /** Host and port of the block that decryption as written makes of an encrypted one. */
  lemma BlockBack(f: RoundFn, tw: Tweak, n: nat, port: nat, host: nat, rem: nat, rem': nat)
    requires port < Pow2(16) && host < Pow2(n)
    ensures var c := Config(Ff3Pair(f, tw, n + 16, false), n);
      var x := Enc(c, port, host, rem);
      var y := Dec(c, PortOf(x), HostOf(x, n), rem');
      var h := Open(Join(host, port, 16), n + 16);
      && Join(HostOf(y, n), PortOf(y), 16) == Close(Recovered(f, tw, n + 16, h), n + 16)
      && Join(host, port, 16) == Close(h, n + 16)
      && PortOf(y) < Pow2(16)
  {
    hide Low, Shr, Join, Pow2, Pack, PortOf, HostOf, Encrypt, Decrypt, Open, Close, Recovered, Blind;
    var bits := n + 16;
    var c := Config(Ff3Pair(f, tw, bits, false), n);
    var p := Pack(port, host, rem, n);
    var x := Enc(c, port, host, rem);
    PackLow(port, host, rem, n);
    OpenIgnores(p, bits);
    CloseOpen(p, bits);
    Parts(x, n);
    var z := Pack(PortOf(x), HostOf(x, n), rem', n);
    PackLow(PortOf(x), HostOf(x, n), rem', n);
    Ff3Decrypts(f, Blind(f), tw, bits, p, z);
    RecoveredWord(f, tw, bits, p);
    Parts(Dec(c, PortOf(x), HostOf(x, n), rem'), n);
  }

  /** As written, host and port come back exactly if the sums agree. */
  lemma AsWrittenBlock(f: RoundFn, tw: Tweak, n: nat, port: nat, host: nat, rem: nat, rem': nat)
    requires port < Pow2(16) && host < Pow2(n)
    ensures var c := Config(Ff3Pair(f, tw, n + 16, false), n);
      var x := Enc(c, port, host, rem);
      var y := Dec(c, PortOf(x), HostOf(x, n), rem');
      PortOf(y) == port && HostOf(y, n) == host <==> SumsAgree(f, tw, n + 16, Open(Join(host, port, 16), n + 16))
  {
    hide Join, Pow2, Pack, PortOf, HostOf, Encrypt, Decrypt, Open, Close, Recovered, SumsAgree, Enc, Dec;
    var c := Config(Ff3Pair(f, tw, n + 16, false), n);
    var x := Enc(c, port, host, rem);
    var y := Dec(c, PortOf(x), HostOf(x, n), rem');
    var h := Open(Join(host, port, 16), n + 16);
    BlockBack(f, tw, n, port, host, rem, rem');
    SumsReturn(f, tw, n + 16, h);
    SplitJoin(HostOf(y, n), PortOf(y), 16);
    SplitJoin(host, port, 16);
    if Close(Recovered(f, tw, n + 16, h), n + 16) == Close(h, n + 16) {
      CloseInjective(Recovered(f, tw, n + 16, h), h, n + 16);
    }
  }

  // ---------------------------------------------------------------- the hidden bits

  /** The bits of 10.0.0.0. */
  predicate Hidden(k: nat) { k == 25 || k == 27 }

  lemma InternalBits(k: nat)
    ensures Bit(INTERNAL, k) == 1 <==> Hidden(k)
  {
    hide Bit, Pow2;
    Pow2Values();
    Pow2Next(25);
    assert INTERNAL == Join(5, 0, 25);
    JoinBit(5, 0, 25, k);
    if k < 25 {
      ZeroBit(k);
    } else {
      FiveBit(k - 25);
    }
  }

  lemma Pow2Next(n: nat)
    ensures Pow2(n + 1) == 2 * Pow2(n)
  {
  }

  lemma {:induction false} ZeroBit(k: nat)
    ensures Bit(0, k) == 0
  {
    if k > 0 { ZeroBit(k - 1); }
  }

  lemma FiveBit(k: nat)
    ensures Bit(5, k) == if k == 0 || k == 2 then 1 else 0
  {
    BitStep(5);
    BitStep(2);
    BitStep(1);
    hide Bit;
    if k > 2 {
      ZeroBit(k - 3);
      assert Bit(5, (k - 1) + 1) == Bit(2, (k - 2) + 1) == Bit(1, (k - 3) + 1) == Bit(0, k - 3);
    } else {
      assert Bit(5, 1) == Bit(5, 0 + 1) == Bit(2, 0);
      assert Bit(5, 2) == Bit(5, 1 + 1) == Bit(2, 0 + 1) == Bit(1, 0);
    }
  }

  /** Or'ed with 10.0.0.0, two hosts look the same exactly if all but the hidden bits agree. */
  lemma InternalSameIff(a: nat, b: nat, n: nat)
    requires a < Pow2(n) && b < Pow2(n)
    ensures Or(INTERNAL, a) == Or(INTERNAL, b) <==> forall k: nat :: k < n && !Hidden(k) ==> Bit(a, k) == Bit(b, k)
  {
    hide Or, Bit, Pow2, Hidden;
    OrSameIff(INTERNAL, a, b, n);
    forall k: nat ensures Bit(INTERNAL, k) == 0 <==> !Hidden(k) { InternalBits(k); }
  }

  /** The left halves agree, but for the bits that stand for hidden ones.  In the halves the word is
      reversed: host bit k is bit n - 1 - k of the left one. */
  ghost predicate LeftAgrees(a: nat, b: nat, n: nat) {
    forall j: nat :: j < U(n + 16) && j + 26 != n && j + 28 != n ==> Bit(a, j) == Bit(b, j)
  }

  /** All bits of the message but the hidden ones agree. */
  ghost predicate Visible(x: nat, y: nat, n: nat) {
    forall k: nat :: k < n + 16 && !(k >= 16 && Hidden(k - 16)) ==> Bit(x, k) == Bit(y, k)
  }

  lemma VisibleParts(host: nat, port: nat, host': nat, port': nat, n: nat)
    requires port < Pow2(16) && port' < Pow2(16)
    ensures Visible(Join(host, port, 16), Join(host', port', 16), n) <==>
        port == port' && forall k: nat :: k < n && !Hidden(k) ==> Bit(host, k) == Bit(host', k)
  {
    hide Bit, Join, Pow2, Hidden;
    var x, y := Join(host, port, 16), Join(host', port', 16);
    forall k: nat
      ensures Bit(x, k) == if k < 16 then Bit(port, k) else Bit(host, k - 16)
      ensures Bit(y, k) == if k < 16 then Bit(port', k) else Bit(host', k - 16)
    {
      JoinBit(host, port, 16, k);
      JoinBit(host', port', 16, k);
    }
    if Visible(x, y, n) {
      forall k | 0 <= k < 16 ensures Bit(port, k) == Bit(port', k) { assert Bit(x, k) == Bit(y, k); }
      SameBits(port, port', 16);
      forall k: nat | k < n && !Hidden(k) ensures Bit(host, k) == Bit(host', k) {
        assert Bit(x, k + 16) == Bit(y, k + 16);
      }
    }
  }

  lemma VisibleHalves(g: Halves, h: Halves, n: nat)
    requires Fits(n + 16, 0, g) && Fits(n + 16, 0, h) && n <= 32
    ensures Visible(Close(g, n + 16), Close(h, n + 16), n) <==> g.b == h.b && LeftAgrees(g.a, h.a, n)
  {
    hide Bit, Close, Pow2;
    var len := n + 16;
    var x, y := Close(g, len), Close(h, len);
    forall k: nat | k < len
      ensures Bit(x, k) == if k < V(len) then Bit(g.b, V(len) - 1 - k) else Bit(g.a, len - 1 - k)
      ensures Bit(y, k) == if k < V(len) then Bit(h.b, V(len) - 1 - k) else Bit(h.a, len - 1 - k)
    {
      CloseBit(g, len, k);
      CloseBit(h, len, k);
    }
    if Visible(x, y, n) {
      forall j | 0 <= j < V(len) ensures Bit(g.b, j) == Bit(h.b, j) {
        assert Bit(x, V(len) - 1 - j) == Bit(y, V(len) - 1 - j);
      }
      SameBits(g.b, h.b, V(len));
      forall j: nat | j < U(len) && j + 26 != n && j + 28 != n ensures Bit(g.a, j) == Bit(h.a, j) {
        assert Bit(x, len - 1 - j) == Bit(y, len - 1 - j);
      }
    }
  }

  // ---------------------------------------------------------------- the reply

  /** What a reply needs: the right half agrees, and the left one as far as it can be seen. */
  ghost predicate ReplyAgrees(f: RoundFn, tw: Tweak, n: nat, h: Halves) {
    && Mod(Added(f, tw, n + 16, NUM_ROUNDS, h, 1) - TakenOff(f, tw, NUM_ROUNDS, 1), Pow2(V(n + 16))) == 0
    && LeftAgrees(Recovered(f, tw, n + 16, h).a, h.a, n)
  }

  /** The halves of the block that is encrypted for a flow. */
  function FlowHalves(t: Flow, n: nat): (h: Halves)
    ensures Fits(n + 16, 0, h)
  {
    Open(Join(Xor(Low(t.saddr, n), Low(t.daddr, n)), Xor(t.sport, t.dport), 16), n + 16)
  }

  /** With FF3 decryption as written, a reply returns to its internal source exactly if the round
      values added and taken off agree on the right half, and on the left half up to the bits that
      10.0.0.0 hides. */
  lemma AsWrittenReply(f: RoundFn, tw: Tweak, n: nat, tb: Tables, es: seq<Entry>, t: Flow, host: nat, rem: nat,
      rem': nat)
    requires ConfigOk(Config(Ff3Pair(f, tw, n + 16, false), n), tb, es) && FlowOk(t)
    requires host < Pow2(n) && t.saddr == Or(INTERNAL, host)
    ensures var c := Config(Ff3Pair(f, tw, n + 16, false), n);
      && 0 <= Outgoing(c, tb, es, t, rem).saddr < U32
      && |tb.t| == PREFIX_TBL_SIZE
      && (Incoming(c, tb, Reply(Outgoing(c, tb, es, t, rem)), rem') == Reply(t)
          <==> ReplyAgrees(f, tw, n, FlowHalves(t, n)))
  {
    hide Loaded, Disjoint, OneRegime, Outgoing, Incoming, Low, Xor, Or, Pow2, PortOf, HostOf, Encrypt, Decrypt, Open,
        Close, Join, Pack, Recovered, ReplyAgrees, BackBlock, Ff3Pair;
    var c := Config(Ff3Pair(f, tw, n + 16, false), n);
    var y := BackBlock(c, t, rem, rem');
    TableSize(tb, es);
    ReplyGoesTo(c, tb, es, t, rem, rem');
    OutBlockOk(c, t);
    BackIff(c, t, y, host);
    AgreesIff(f, tw, n, t, rem, rem');
  }

  lemma TableSize(tb: Tables, es: seq<Entry>)
    requires Loaded(tb, es)
    ensures |tb.t| == PREFIX_TBL_SIZE
  {
  }

  /** A block that comes back as `y` leads to the source exactly if it shows the port and the visible
      bits of the host that were encrypted. */
  lemma BackIff(c: Config, t: Flow, y: nat, host: nat)
    requires FlowOk(t) && host < Pow2(c.numAddr) && t.saddr == Or(INTERNAL, host)
    ensures var n := c.numAddr;
      Or(INTERNAL, Xor(HostOf(y, n), Low(t.daddr, n))) == t.saddr && Xor(PortOf(y), t.dport) == t.sport <==>
      PortOf(y) == Xor(t.sport, t.dport)
      && forall k: nat :: k < n && !Hidden(k) ==> Bit(HostOf(y, n), k) == Bit(Xor(Low(t.saddr, n), Low(t.daddr, n)), k)
  {
    hide Low, Xor, Or, Pow2, Bit, Hidden, PortOf, HostOf;
    var n := c.numAddr;
    var d, s := Low(t.daddr, n), Low(t.saddr, n);
    OrLow(INTERNAL, host, n);
    XorBound(HostOf(y, n), d, n);
    InternalSameIff(Xor(HostOf(y, n), d), s, n);
    forall k: nat
      ensures Bit(Xor(HostOf(y, n), d), k) == Bit(s, k) <==> Bit(HostOf(y, n), k) == Bit(Xor(s, d), k)
    {
      XorBit(HostOf(y, n), d, k);
      XorBit(s, d, k);
      OneBit(HostOf(y, n), k);
      OneBit(s, k);
      OneBit(d, k);
    }
    XorCancel(PortOf(y), t.dport);
    XorCancel(t.sport, t.dport);
  }

  lemma OneBit(x: nat, k: nat)
    ensures Bit(x, k) < 2
  {
  }

  lemma AgreesIff(f: RoundFn, tw: Tweak, n: nat, t: Flow, rem: nat, rem': nat)
    requires FlowOk(t) && n <= 32
    ensures var y := BackBlock(Config(Ff3Pair(f, tw, n + 16, false), n), t, rem, rem');
      var host := Xor(Low(t.saddr, n), Low(t.daddr, n));
      ReplyAgrees(f, tw, n, FlowHalves(t, n)) <==>
      PortOf(y) == Xor(t.sport, t.dport)
      && forall k: nat :: k < n && !Hidden(k) ==> Bit(HostOf(y, n), k) == Bit(host, k)
  {
    hide Low, Xor, Pow2, Bit, Hidden, PortOf, HostOf, Join, Open, Close, Recovered, Visible, LeftAgrees, Encrypt,
        Decrypt, Added, TakenOff, Mod, Fits;
    var c := Config(Ff3Pair(f, tw, n + 16, false), n);
    var y := BackBlock(c, t, rem, rem');
    var port, host, h := Xor(t.sport, t.dport), Xor(Low(t.saddr, n), Low(t.daddr, n)), FlowHalves(t, n);
    OutBlockOk(c, t);
    BlockBack(f, tw, n, port, host, rem, rem');
    VisibleParts(HostOf(y, n), PortOf(y), host, port, n);
    VisibleHalves(Recovered(f, tw, n + 16, h), h, n);
    SumsReturn(f, tw, n + 16, h);
  }

  /** Up to 25 host bits nothing is hidden, and the condition is that of a single block. */
  lemma AgreesSmall(f: RoundFn, tw: Tweak, n: nat, h: Halves)
    requires n <= 25 && Fits(n + 16, 0, h)
    ensures ReplyAgrees(f, tw, n, h) <==> SumsAgree(f, tw, n + 16, h)
  {
    hide Bit, Pow2, Recovered, Added, TakenOff, Mod;
    var g := Recovered(f, tw, n + 16, h);
    SumsReturn(f, tw, n + 16, h);
    if LeftAgrees(g.a, h.a, n) {
      SameBits(g.a, h.a, U(n + 16));
    }
  }

  /** With the configured 26, the lowest bit of the left half is hidden, and nothing else. */
  lemma AgreesConfigured(f: RoundFn, tw: Tweak, h: Halves)
    requires Fits(42, 0, h)
    ensures ReplyAgrees(f, tw, 26, h) <==>
        Mod(h.a + Added(f, tw, 42, NUM_ROUNDS, h, 0) - TakenOff(f, tw, NUM_ROUNDS, 0), Pow2(21)) / 2 == h.a / 2
        && Mod(Added(f, tw, 42, NUM_ROUNDS, h, 1) - TakenOff(f, tw, NUM_ROUNDS, 1), Pow2(21)) == 0
  {
    hide Pow2, Bit, Added, TakenOff, Mod;
    var g := Recovered(f, tw, 42, h);
    Pow2Next(20);
    UpperBits(g.a, h.a, 20);
    assert U(42) == V(42) == 21;
    assert LeftAgrees(g.a, h.a, 26) <==> forall j: nat :: 0 < j <= 20 ==> Bit(g.a, j) == Bit(h.a, j);
  }

  /** The program as configured: 26 host bits, FF3 decryption as written. */
  lemma ConfiguredReply(f: RoundFn, tw: Tweak, tb: Tables, es: seq<Entry>, t: Flow, host: nat, rem: nat, rem': nat)
    requires ConfigOk(Config(Ff3Pair(f, tw, 42, false), 26), tb, es) && FlowOk(t)
    requires host < Pow2(26) && t.saddr == Or(INTERNAL, host)
    ensures var c, h := Config(Ff3Pair(f, tw, 42, false), 26), FlowHalves(t, 26);
      && 0 <= Outgoing(c, tb, es, t, rem).saddr < U32
      && |tb.t| == PREFIX_TBL_SIZE
      && (Incoming(c, tb, Reply(Outgoing(c, tb, es, t, rem)), rem') == Reply(t) <==>
          Mod(h.a + Added(f, tw, 42, NUM_ROUNDS, h, 0) - TakenOff(f, tw, NUM_ROUNDS, 0), Pow2(21)) / 2 == h.a / 2
          && Mod(Added(f, tw, 42, NUM_ROUNDS, h, 1) - TakenOff(f, tw, NUM_ROUNDS, 1), Pow2(21)) == 0)
  {
    hide Loaded, Disjoint, OneRegime, Outgoing, Incoming, Low, Xor, Or, Pow2, Added, TakenOff, Mod, ReplyAgrees, Open;
    AsWrittenReply(f, tw, 26, tb, es, t, host, rem, rem');
    AgreesConfigured(f, tw, FlowHalves(t, 26));
  }

  lemma UpperBits(a: nat, b: nat, n: nat)
    requires a < Pow2(n + 1) && b < Pow2(n + 1)
    ensures a / 2 == b / 2 <==> forall j: nat :: 0 < j <= n ==> Bit(a, j) == Bit(b, j)
  {
    BitStep(a);
    BitStep(b);
    Pow2Next(n);
    hide Bit;
    if forall j: nat :: 0 < j <= n ==> Bit(a, j) == Bit(b, j) {
      forall k | 0 <= k < n ensures Bit(a / 2, k) == Bit(b / 2, k) { assert Bit(a, k + 1) == Bit(b, k + 1); }
      SameBits(a / 2, b / 2, n);
    } else {
      var j: nat :| 0 < j <= n && Bit(a, j) != Bit(b, j);
      assert Bit(a, (j - 1) + 1) == Bit(a / 2, j - 1) && Bit(b, (j - 1) + 1) == Bit(b / 2, j - 1);
    }
  }

  lemma {:induction false} OneShotRight(len: nat, n: nat, h: Halves)
    ensures var f, tw := OneShot(TWICE_TWEAK), TWICE_TWEAK;
      Added(f, tw, len, n, h, 1) == 0 && TakenOff(f, tw, n, 1) == 0
  {
    hide EncRounds, Xor;
    if n > 0 {
      OneShotRight(len, n - 1, h);
      if n % 2 == 0 { XorStep(16, n - 1); }
    }
  }

  /** So with 26 host bits a reply may return although the block does not: here only the hidden bit
      is wrong. */
  lemma HiddenBitReturns() returns (h: Halves)
    ensures var f, tw := OneShot(TWICE_TWEAK), TWICE_TWEAK;
      Fits(42, 0, h) && ReplyAgrees(f, tw, 26, h) && !SumsAgree(f, tw, 42, h)
  {
    hide Added, TakenOff, OneShot;
    var tw := TWICE_TWEAK;
    h := Halves(0, 1);
    OneShotRight(42, NUM_ROUNDS, h);
    Pow2Mono(1, 21);
    assert Pow2(1) == 2;
    OneShotSums(tw, 42, NUM_ROUNDS, h);
    AgreesConfigured(OneShot(tw), tw, h);
    ModSmall(1, Pow2(21));
    ModSmall(0, Pow2(21));
  }
}
