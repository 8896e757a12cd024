/** Rewriting packets on their way out and back in (nat_eval/nat.c), with any cipher that permutes
    port and host bits; FF3 and the ChaCha20 stream are instances.

    NUM_ADDR is a parameter here: the number of host bits, so that 2^NUM_ADDR addresses are
    permuted together with the 16-bit port.  Addresses are in host byte order.
  */
module NatPacket {
  import opened Basics
  import opened Bits
  import opened Ff3
  import opened Ff3AsWritten
  import opened Ff3Code
  import opened PrefixSpec
  import opened NatTable
  import opened NatBijection
  import opened NatLoader

  const INTERNAL: nat := 0x0A00_0000

  /** The fields of the 5-tuple that are read and rewritten. */
  datatype Flow = Flow(saddr: nat, daddr: nat, sport: nat, dport: nat)

  ghost predicate FlowOk(t: Flow) {
    t.saddr < U32 && t.daddr < U32 && t.sport < Pow2(16) && t.dport < Pow2(16)
  }

  /** Encryption and decryption of a message, key and tweak fixed. */
  datatype Cipher = Cipher(enc: nat -> nat, dec: nat -> nat)

  /** Decryption undoes encryption on the low `bits` bits, and there sees nothing but those bits. */
  ghost predicate Permutes(k: Cipher, bits: nat) {
    forall x: nat, y: nat :: Low(y, bits) == Low(k.enc(x), bits) ==> Low(k.dec(y), bits) == Low(x, bits)
  }

  /** Everything both directions share. */
  datatype Config = Config(cipher: Cipher, numAddr: nat)

  ghost predicate ConfigOk(c: Config, tb: Tables, es: seq<Entry>) {
    && c.numAddr <= 32
    && Loaded(tb, es) && Disjoint(es) && OneRegime(es)
    && Total(es) == Pow2(c.numAddr)
  }

  // ---------------------------------------------------------------- the cipher block

  /** `struct ff3_msg`: port in the low 16 bits, then the host, then bits nobody sets. */
  function Pack(port: nat, host: nat, rem: nat, n: nat): nat {
    Join(Join(rem, host, n), port, 16)
  }

  function PortOf(x: nat): nat { Low(x, 16) }

  function HostOf(x: nat, n: nat): (h: nat)
    ensures h < Pow2(n)
  {
    Low(Shr(x, 16), n)
  }

  lemma PackLow(port: nat, host: nat, rem: nat, n: nat)
    requires port < Pow2(16) && host < Pow2(n)
    ensures Low(Pack(port, host, rem, n), n + 16) == Join(host, port, 16)
    ensures PortOf(Join(host, port, 16)) == port && HostOf(Join(host, port, 16), n) == host
  {
    hide Low, Shr, Join, Pow2;
    SplitJoin(Join(rem, host, n), port, 16);
    SplitJoin(rem, host, n);
    LowJoin(Pack(port, host, rem, n), n, 16);
    SplitJoin(host, port, 16);
    LowSmall(host, n);
  }

  /** Only the low bits of a message matter to port and host. */
  lemma Parts(x: nat, n: nat)
    ensures PortOf(x) == PortOf(Low(x, n + 16)) < Pow2(16) && HostOf(x, n) == HostOf(Low(x, n + 16), n)
    ensures Join(HostOf(x, n), PortOf(x), 16) == Low(x, n + 16)
  {
    hide Low, Shr, Join, Pow2;
    LowJoin(x, n, 16);
    SplitJoin(HostOf(x, n), PortOf(x), 16);
    LowSmall(HostOf(x, n), n);
  }

  function Enc(c: Config, port: nat, host: nat, rem: nat): nat { c.cipher.enc(Pack(port, host, rem, c.numAddr)) }

  function Dec(c: Config, port: nat, host: nat, rem: nat): nat { c.cipher.dec(Pack(port, host, rem, c.numAddr)) }

  /** Decrypting what was encrypted returns port and host, whatever the unset bits held on
      either side. */
  lemma BlockRoundTrip(c: Config, port: nat, host: nat, rem: nat, rem': nat)
    requires Permutes(c.cipher, c.numAddr + 16) && port < Pow2(16) && host < Pow2(c.numAddr)
    ensures var x := Enc(c, port, host, rem);
      var y := Dec(c, PortOf(x), HostOf(x, c.numAddr), rem');
      PortOf(y) == port && HostOf(y, c.numAddr) == host
  {
    hide Low, Shr, Join, Pow2, Pack, PortOf, HostOf;
    var n := c.numAddr;
    var x := Enc(c, port, host, rem);
    PackLow(port, host, rem, n);
    Parts(x, n);
    PackLow(PortOf(x), HostOf(x, n), rem', n);
    Parts(Dec(c, PortOf(x), HostOf(x, n), rem'), n);
  }

  // ---------------------------------------------------------------- instances

  /** FF3; `intoT` says how `ff3_decrypt` is read, as intended or as written. */
  function Ff3Pair(f: RoundFn, tw: Tweak, bits: nat, intoT: bool): Cipher {
    Cipher((x: nat) => Encrypt(f, tw, bits, NUM_ROUNDS, x),
           (x: nat) => Decrypt(if intoT then f else Blind(f), tw, bits, NUM_ROUNDS, x))
  }

  /** As intended, FF3 permutes. */
  lemma Ff3Permutes(f: RoundFn, tw: Tweak, bits: nat)
    ensures Permutes(Ff3Pair(f, tw, bits, true), bits)
  {
    hide Encrypt, Decrypt, Low;
    var k := Ff3Pair(f, tw, bits, true);
    forall x: nat, y: nat | Low(y, bits) == Low(k.enc(x), bits)
      ensures Low(k.dec(y), bits) == Low(x, bits)
    {
      Ff3Decrypts(f, f, tw, bits, x, y);
      DecryptEncrypt(f, tw, bits, NUM_ROUNDS, x);
    }
  }

  /** Decryption with round function `g` sees only the low bits of what it is given. */
  lemma Ff3Decrypts(f: RoundFn, g: RoundFn, tw: Tweak, bits: nat, x: nat, y: nat)
    requires Low(y, bits) == Low(Encrypt(f, tw, bits, NUM_ROUNDS, x), bits)
    ensures Decrypt(g, tw, bits, NUM_ROUNDS, y) == Decrypt(g, tw, bits, NUM_ROUNDS, Encrypt(f, tw, bits, NUM_ROUNDS, x))
    ensures Low(Decrypt(g, tw, bits, NUM_ROUNDS, y), bits) == Decrypt(g, tw, bits, NUM_ROUNDS, y)
    ensures Low(Low(x, bits), bits) == Low(x, bits)
  {
    hide Encrypt, EncRounds, DecRounds, Open, Close, Low;
    DecryptEncrypt(f, tw, bits, NUM_ROUNDS, x);
    EncryptDecrypt(g, tw, bits, NUM_ROUNDS, y);
    OpenIgnores(y, bits);
    OpenIgnores(Encrypt(f, tw, bits, NUM_ROUNDS, x), bits);
    LowSmall(Decrypt(g, tw, bits, NUM_ROUNDS, y), bits);
    LowSmall(Low(x, bits), bits);
  }

  /** As written, it permutes exactly if it restores every block. */
  lemma Ff3AsWrittenPermutes(f: RoundFn, tw: Tweak, bits: nat)
    ensures Permutes(Ff3Pair(f, tw, bits, false), bits) <==> RestoresAll(f, tw, bits, NUM_ROUNDS)
  {
    hide Encrypt, Decrypt, Low, Blind;
    var k := Ff3Pair(f, tw, bits, false);
    if RestoresAll(f, tw, bits, NUM_ROUNDS) {
      forall x: nat, y: nat | Low(y, bits) == Low(k.enc(x), bits)
        ensures Low(k.dec(y), bits) == Low(x, bits)
      {
        Ff3Decrypts(f, Blind(f), tw, bits, x, y);
      }
    }
    if Permutes(k, bits) {
      forall x: nat
        ensures Decrypt(Blind(f), tw, bits, NUM_ROUNDS, Encrypt(f, tw, bits, NUM_ROUNDS, x)) == Low(x, bits)
      {
        Ff3Decrypts(f, Blind(f), tw, bits, x, k.enc(x));
        assert Low(k.dec(k.enc(x)), bits) == Low(x, bits);
      }
    }
  }

  /** A key stream xored to the message, as ChaCha20 does. */
  lemma StreamPermutes(ks: nat, bits: nat)
    ensures Permutes(Cipher((x: nat) => Xor(x, ks), (x: nat) => Xor(x, ks)), bits)
  {
    forall x: nat, y: nat | Low(y, bits) == Low(Xor(x, ks), bits)
      ensures Low(Xor(y, ks), bits) == Low(x, bits)
    {
      XorLow(x, ks, bits);
      XorLow(y, ks, bits);
      XorCancel(Low(x, bits), Low(ks, bits));
    }
  }

  // ---------------------------------------------------------------- the two directions

  function OutBlock(c: Config, t: Flow, rem: nat): nat {
    var n := c.numAddr;
    Enc(c, Xor(t.sport, t.dport), Xor(Low(t.saddr, n), Low(t.daddr, n)), rem)
  }

  lemma OutBlockOk(c: Config, t: Flow)
    requires FlowOk(t)
    ensures Xor(t.sport, t.dport) < Pow2(16) && Xor(Low(t.saddr, c.numAddr), Low(t.daddr, c.numAddr)) < Pow2(c.numAddr)
  {
    XorBound(t.sport, t.dport, 16);
    XorBound(Low(t.saddr, c.numAddr), Low(t.daddr, c.numAddr), c.numAddr);
  }

  /** `process_outgoing_pkt`. */
  function Outgoing(c: Config, tb: Tables, ghost es: seq<Entry>, t: Flow, rem: nat): Flow
    requires Loaded(tb, es) && Total(es) == Pow2(c.numAddr)
  {
    var x := OutBlock(c, t, rem);
    t.(saddr := IdxToIp(tb, es, HostOf(x, c.numAddr)), sport := PortOf(x))
  }

  /** `process_incoming_pkt`. */
  function Incoming(c: Config, tb: Tables, t: Flow, rem: nat): Flow
    requires |tb.t| == PREFIX_TBL_SIZE && t.daddr < U32
  {
    var n := c.numAddr;
    var idx := IpToIdx(tb, t.daddr);
    var y := Dec(c, t.dport, Low(idx % U32, n), rem);
    var host := Xor(HostOf(y, n), Low(t.saddr, n));
    t.(daddr := Or(INTERNAL, host), dport := Xor(PortOf(y), t.sport))
  }

  /** The packet the remote end sends back. */
  function Reply(t: Flow): Flow {
    Flow(t.daddr, t.saddr, t.dport, t.sport)
  }

  lemma FullTable(c: Config, tb: Tables, es: seq<Entry>, t: Flow, rem: nat)
    requires ConfigOk(c, tb, es)
    ensures var x := OutBlock(c, t, rem); var a := IdxToIp(tb, es, HostOf(x, c.numAddr));
      0 <= a < U32 && IpToIdx(tb, a) == HostOf(x, c.numAddr) < U32
  {
    hide Loaded, Disjoint, OneRegime, IdxToIp, IpToIdx;
    var x := OutBlock(c, t, rem);
    IndexRoundTrip(tb, es, HostOf(x, c.numAddr));
    Pow2Mono(c.numAddr, 32);
    Pow2Values();
  }

  /** What decryption makes of the block that encryption made of a flow. */
  function BackBlock(c: Config, t: Flow, rem: nat, rem': nat): nat {
    var x := OutBlock(c, t, rem);
    Dec(c, PortOf(x), HostOf(x, c.numAddr), rem')
  }

  /** For any two functions in place of the cipher: the reply to a translated packet goes to the
      host and port that decryption yields, after the remote end is xored off again. */
  lemma ReplyGoesTo(c: Config, tb: Tables, es: seq<Entry>, t: Flow, rem: nat, rem': nat)
    requires ConfigOk(c, tb, es) && FlowOk(t)
    ensures 0 <= Outgoing(c, tb, es, t, rem).saddr < U32
    ensures var y := BackBlock(c, t, rem, rem');
      Incoming(c, tb, Reply(Outgoing(c, tb, es, t, rem)), rem') ==
      Flow(t.daddr, Or(INTERNAL, Xor(HostOf(y, c.numAddr), Low(t.daddr, c.numAddr))), t.dport, Xor(PortOf(y), t.dport))
  {
    hide Loaded, Disjoint, OneRegime, IdxToIp, IpToIdx, Low, Xor, Or, Pow2, PortOf, HostOf, Enc, Dec;
    var n := c.numAddr;
    var x := OutBlock(c, t, rem);
    FullTable(c, tb, es, t, rem);
    LowSmall(HostOf(x, n), n);
    assert HostOf(x, n) % U32 == HostOf(x, n);
  }

  /** Translating the reply undoes the outgoing translation: ports and remote end are as
      before, and the address comes back with its host bits, under 10.0.0.0. */
  lemma ReplyReturns(c: Config, tb: Tables, es: seq<Entry>, t: Flow, rem: nat, rem': nat)
    requires ConfigOk(c, tb, es) && Permutes(c.cipher, c.numAddr + 16) && FlowOk(t)
    ensures 0 <= Outgoing(c, tb, es, t, rem).saddr < U32
    ensures Incoming(c, tb, Reply(Outgoing(c, tb, es, t, rem)), rem')
         == Flow(t.daddr, Or(INTERNAL, Low(t.saddr, c.numAddr)), t.dport, t.sport)
  {
    hide Loaded, Disjoint, OneRegime, Outgoing, Incoming, Low, Xor, Or, Pow2, PortOf, HostOf, Enc, Dec, Permutes;
    var n := c.numAddr;
    OutBlockOk(c, t);
    ReplyGoesTo(c, tb, es, t, rem, rem');
    BlockRoundTrip(c, Xor(t.sport, t.dport), Xor(Low(t.saddr, n), Low(t.daddr, n)), rem, rem');
    XorCancel(t.sport, t.dport);
    XorCancel(Low(t.saddr, n), Low(t.daddr, n));
  }

  /** The internal source address is restored exactly when it is 10.0.0.0 with its own host
      bits set, ... */
  lemma SourceRestoredIff(c: Config, tb: Tables, es: seq<Entry>, t: Flow, rem: nat, rem': nat)
    requires ConfigOk(c, tb, es) && Permutes(c.cipher, c.numAddr + 16) && FlowOk(t)
    ensures 0 <= Outgoing(c, tb, es, t, rem).saddr < U32
    ensures Incoming(c, tb, Reply(Outgoing(c, tb, es, t, rem)), rem') == Reply(t)
       <==> t.saddr == Or(INTERNAL, Low(t.saddr, c.numAddr))
  {
    ReplyReturns(c, tb, es, t, rem, rem');
  }

  /** ... which is every address 10.0.0.0 | host for a host number of NUM_ADDR bits, even
      where the bits of the two overlap, as they do for the configured 26. */
  lemma InternalRestored(c: Config, tb: Tables, es: seq<Entry>, t: Flow, host: nat, rem: nat, rem': nat)
    requires ConfigOk(c, tb, es) && Permutes(c.cipher, c.numAddr + 16) && FlowOk(t)
    requires host < Pow2(c.numAddr) && t.saddr == Or(INTERNAL, host)
    ensures 0 <= Outgoing(c, tb, es, t, rem).saddr < U32
    ensures Incoming(c, tb, Reply(Outgoing(c, tb, es, t, rem)), rem') == Reply(t)
  {
    ReplyReturns(c, tb, es, t, rem, rem');
    OrLow(INTERNAL, host, c.numAddr);
  }

  /** Distinct internal endpoints talking to one remote endpoint never share a translation. */
  lemma NoCollision(c: Config, tb: Tables, es: seq<Entry>, t: Flow, t': Flow, h: nat, h': nat, rem: nat, rem': nat)
    requires ConfigOk(c, tb, es) && Permutes(c.cipher, c.numAddr + 16) && FlowOk(t) && FlowOk(t')
    requires h < Pow2(c.numAddr) && t.saddr == Or(INTERNAL, h) && h' < Pow2(c.numAddr) && t'.saddr == Or(INTERNAL, h')
    requires t.daddr == t'.daddr && t.dport == t'.dport
    requires Outgoing(c, tb, es, t, rem) == Outgoing(c, tb, es, t', rem')
    ensures t == t'
  {
    InternalRestored(c, tb, es, t, h, rem, 0);
    InternalRestored(c, tb, es, t', h', rem', 0);
  }

  // ---------------------------------------------------------------- the configured size

  /** With the configured 2^26 addresses the tables work only for a file of /8 blocks. */
  lemma ConfiguredSize(tb: Tables, es: seq<Entry>)
    requires Loaded(tb, es) && Total(es) == Pow2(26)
    ensures (forall idx: nat | idx < Total(es) :: Survives(tb, es, idx)) <==> Disjoint(es) && AllSlash8(es)
  {
    RoundTripIff(tb, es);
    Pow2Values();
  }

  // ---------------------------------------------------------------- rewriting in place

  class Header {
    var saddr: nat
    var daddr: nat
    var sport: nat
    var dport: nat

    ghost function Value(): Flow
      reads this
    {
      Flow(saddr, daddr, sport, dport)
    }

    /** `process_outgoing_pkt` with FF3; `rem` is what the uninitialised block holds above the host. */
    method ProcessOutgoing(f: RoundFn, tw: Tweak, n: nat, intoT: bool, natTbl: NatTables, rem: nat,
        ghost es: seq<Entry>)
      requires Loaded(natTbl.Value(), es) && Total(es) == Pow2(n) && n <= 32
      modifies this`saddr, this`sport
      ensures Value() == Outgoing(Config(Ff3Pair(f, tw, n + 16, intoT), n), natTbl.Value(), es, old(Value()), rem)
    {
      hide Loaded, Disjoint, OneRegime, Encrypt, Decrypt, Xor, Low, Shr, Join, IdxToIp;
      var port := Xor(sport, dport);
      var host := Xor(Low(saddr, n), Low(daddr, n));
      var input := Pack(port, host, rem, n);
      var ct := Ff3Encrypt(f, input, n + 16, tw);
      var idx := HostOf(ct.value, n);
      var ip := natTbl.IdxToIpLookup(idx, es);
      sport := PortOf(ct.value);
      saddr := ip;
    }

    /** `process_incoming_pkt` with FF3, whose decryption is as intended or as written. */
    method ProcessIncoming(f: RoundFn, tw: Tweak, n: nat, intoT: bool, natTbl: NatTables, rem: nat)
      requires n <= 32 && natTbl.prefixTbl.Length == PREFIX_TBL_SIZE && daddr < U32
      modifies this`daddr, this`dport
      ensures Value() == Incoming(Config(Ff3Pair(f, tw, n + 16, intoT), n), natTbl.Value(), old(Value()), rem)
    {
      hide Encrypt, Decrypt, Or, Xor, Low, Shr, Pow2, Join, IpToIdx, Blind;
      var idx := natTbl.IpToIdxLookup(daddr);
      var input := Pack(dport, Low(idx % U32, n), rem, n);
      var pt := Ff3Decrypt(f, input, n + 16, tw, intoT);
      var host := Xor(HostOf(pt.value, n), Low(saddr, n));
      daddr := Or(INTERNAL, host);
      dport := Xor(PortOf(pt.value), sport);
    }
  }
}
