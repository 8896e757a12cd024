/** ChaCha20 streaming (nat_eval/enc_lib/chacha20/chacha.c): the block function of section 2.3
    of RFC 8439 with the original layout of a 64-bit counter in words 12 and 13. */
module ChaCha {
  import opened Basics
  import opened Bits

  const BLOCK: nat := 64

  // ---------------------------------------------------------------- block function

  function Add32(v: nat, w: nat): (r: nat)
    ensures r < U32
  {
    (v + w) % U32
  }

  function Rotate(v: nat, c: nat): nat
    requires c <= 32
  {
    Low(Or(v * Pow2(c), Shr(v, 32 - c)), 32)
  }

  datatype Four = Four(a: nat, b: nat, c: nat, d: nat) {
    function At(k: nat): nat { if k == 0 then a else if k == 1 then b else if k == 2 then c else d }
  }

  /** The quarter round, section 2.1 of RFC 8439. */
  function Quarter(q: Four): Four {
    var a1 := Add32(q.a, q.b);
    var d1 := Rotate(Xor(q.d, a1), 16);
    var c1 := Add32(q.c, d1);
    var b1 := Rotate(Xor(q.b, c1), 12);
    var a2 := Add32(a1, b1);
    var d2 := Rotate(Xor(d1, a2), 8);
    var c2 := Add32(c1, d2);
    Four(a2, Rotate(Xor(b1, c2), 7), c2, d2)
  }

  /** The state as a 4 by 4 matrix, row by row: one of its columns. */
  function Column(x: seq<nat>, j: nat): Four
    requires |x| == 16 && j < 4
  {
    Four(x[j], x[4 + j], x[8 + j], x[12 + j])
  }

  /** A quarter round on every column. */
  function Columns(x: seq<nat>): (y: seq<nat>)
    requires |x| == 16
    ensures |y| == 16
  {
    seq(16, i requires 0 <= i < 16 => Quarter(Column(x, i % 4)).At(i / 4))
  }

  /** Row r turned left by r places, and back: this makes columns of the diagonals. */
  function Skew(x: seq<nat>): (y: seq<nat>)
    requires |x| == 16
    ensures |y| == 16
  {
    seq(16, i requires 0 <= i < 16 => x[i / 4 * 4 + (i % 4 + i / 4) % 4])
  }

  function Unskew(x: seq<nat>): (y: seq<nat>)
    requires |x| == 16
    ensures |y| == 16
  {
    seq(16, i requires 0 <= i < 16 => x[i / 4 * 4 + (i % 4 + 4 - i / 4) % 4])
  }

  /** Column rounds, then diagonal rounds. */
  function DoubleRound(x: seq<nat>): (y: seq<nat>)
    requires |x| == 16
    ensures |y| == 16
  {
    Unskew(Columns(Skew(Columns(x))))
  }

  /** A diagonal: one word of each row, one further right each time. */
  function Diagonal(x: seq<nat>, j: nat): Four
    requires |x| == 16 && j < 4
  {
    Four(x[j], x[4 + (j + 1) % 4], x[8 + (j + 2) % 4], x[12 + (j + 3) % 4])
  }

  lemma DiagonalIsColumn(x: seq<nat>, j: nat)
    requires |x| == 16 && j < 4
    ensures Column(Skew(x), j) == Diagonal(x, j)
  {
  }

  /** A quarter round on every diagonal is one on every column of the skewed matrix. */
  lemma FromDiagonals(x: seq<nat>, y: seq<nat>)
    requires |x| == |y| == 16
    requires forall j :: 0 <= j < 4 ==> Diagonal(y, j) == Quarter(Diagonal(x, j))
    ensures y == Unskew(Columns(Skew(x)))
  {
    hide Quarter, Skew;
    var z := Columns(Skew(x));
    forall i | 0 <= i < 16
      ensures y[i] == Unskew(z)[i]
    {
      var r := i / 4;
      var j := (i % 4 + 4 - r) % 4;
      DiagonalIsColumn(x, j);
      assert Diagonal(y, j).At(r) == y[i];
      assert z[4 * r + j] == Quarter(Column(Skew(x), j)).At(r);
    }
  }

  function DoubleRounds(x: seq<nat>, n: nat): (y: seq<nat>)
    requires |x| == 16
    ensures |y| == 16
  {
    if n == 0 then x else DoubleRound(DoubleRounds(x, n - 1))
  }

  /** Byte `k` of a word stored little-endian. */
  function ByteOf(w: nat, k: nat): nat { Shr(w, 8 * k) % 256 }

  /** The input added back, word by word, and stored as bytes. */
  function Serialize(x: seq<nat>, input: seq<nat>): (out: seq<nat>)
    requires |x| == |input| == 16
    ensures |out| == BLOCK
  {
    seq(BLOCK, i requires 0 <= i < BLOCK => ByteOf(Add32(x[i / 4], input[i / 4]), i % 4))
  }

  /** The 64 bytes of key stream for one state. */
  function KeyBlock(input: seq<nat>): (out: seq<nat>)
    requires |input| == 16
    ensures |out| == BLOCK
  {
    Serialize(DoubleRounds(input, 10), input)
  }

  // ---------------------------------------------------------------- key stream

  ghost predicate State(input: seq<nat>) {
    |input| == 16 && input[12] < U32 && input[13] < U32
  }

  /** The 64-bit counter. */
  function BlockCount(input: seq<nat>): nat
    requires |input| == 16
  {
    input[13] * U32 + input[12]
  }

  /** The state `k` blocks on: the counter advanced modulo 2^64. */
  function AtBlock(input: seq<nat>, k: nat): (s: seq<nat>)
    requires |input| == 16
    ensures |s| == 16
  {
    var n := BlockCount(input) + k;
    input[12 := n % U32][13 := n / U32 % U32]
  }

  function KeyByte(input: seq<nat>, i: nat): nat
    requires |input| == 16
  {
    KeyBlock(AtBlock(input, i / BLOCK))[i % BLOCK]
  }

  lemma CounterStarts(input: seq<nat>)
    requires State(input)
    ensures AtBlock(input, 0) == input
  {
    assert AtBlock(input, 0)[12] == input[12] && AtBlock(input, 0)[13] == input[13];
  }

  /** Incrementing word 12 and carrying into word 13 on zero advances the counter by one. */
  lemma CounterCarries(input: seq<nat>, k: nat)
    requires State(input)
    ensures var s := AtBlock(input, k);
      var t := s[12 := Add32(s[12], 1)];
      AtBlock(input, k + 1) == if t[12] == 0 then t[13 := Add32(t[13], 1)] else t
  {
    var n := BlockCount(input) + k;
    var q, r := n / U32, n % U32;
    assert n == q * U32 + r;
    if r + 1 < U32 {
      assert (n + 1) / U32 == q && (n + 1) % U32 == r + 1;
    } else {
      assert n + 1 == (q + 1) * U32;
      assert (n + 1) / U32 == q + 1 && (n + 1) % U32 == 0;
    }
  }

  lemma SplitPosition(k: nat, i: nat)
    requires i < BLOCK
    ensures (BLOCK * k + i) / BLOCK == k && (BLOCK * k + i) % BLOCK == i
  {
  }

  // ---------------------------------------------------------------- the code

  class Ctx {
    const input: array<nat>

    ghost predicate Valid()
      reads this, input
    {
      input.Length == 16 && State(input[..])
    }

    /** QUARTERROUND on four different words. */
    static method QuarterRound(x: array<nat>, a: nat, b: nat, c: nat, d: nat)
      requires x.Length == 16 && a < 16 && b < 16 && c < 16 && d < 16
      requires a != b && a != c && a != d && b != c && b != d && c != d
      modifies x
      ensures Four(x[a], x[b], x[c], x[d]) == Quarter(Four(old(x[a]), old(x[b]), old(x[c]), old(x[d])))
      ensures forall i :: 0 <= i < 16 && i != a && i != b && i != c && i != d ==> x[i] == old(x[i])
    {
      hide Add32, Rotate, Xor;
      x[a] := Add32(x[a], x[b]);
      x[d] := Rotate(Xor(x[d], x[a]), 16);
      x[c] := Add32(x[c], x[d]);
      x[b] := Rotate(Xor(x[b], x[c]), 12);
      x[a] := Add32(x[a], x[b]);
      x[d] := Rotate(Xor(x[d], x[a]), 8);
      x[c] := Add32(x[c], x[d]);
      x[b] := Rotate(Xor(x[b], x[c]), 7);
    }

    /** The first four quarter rounds. */
    static method ColumnRounds(x: array<nat>)
      requires x.Length == 16
      modifies x
      ensures x[..] == Columns(old(x[..]))
    {
      hide Quarter;
      QuarterRound(x, 0, 4, 8, 12);
      QuarterRound(x, 1, 5, 9, 13);
      QuarterRound(x, 2, 6, 10, 14);
      QuarterRound(x, 3, 7, 11, 15);
    }

    /** The last four quarter rounds. */
    static method DiagonalRounds(x: array<nat>)
      requires x.Length == 16
      modifies x
      ensures x[..] == Unskew(Columns(Skew(old(x[..]))))
    {
      hide Quarter, Columns, Skew, Unskew;
      ghost var y := x[..];
      QuarterRound(x, 0, 5, 10, 15);
      QuarterRound(x, 1, 6, 11, 12);
      QuarterRound(x, 2, 7, 8, 13);
      QuarterRound(x, 3, 4, 9, 14);
      FromDiagonals(y, x[..]);
    }

    /** `salsa20_wordtobyte`. */
    method WordToByte(output: array<nat>)
      requires Valid() && output.Length == BLOCK && output != input
      modifies output
      ensures output[..] == KeyBlock(input[..])
    {
      hide Columns, Skew, Unskew, Add32, ByteOf;
      var x := new nat[16];
      forall i | 0 <= i < 16 { x[i] := input[i]; }
      assert x[..] == input[..];
      var i := 20;
      ghost var done := 0;
      while i > 0
        invariant done <= 10 && i == 20 - 2 * done
        invariant x[..] == DoubleRounds(input[..], done)
      {
        ColumnRounds(x);
        DiagonalRounds(x);
        i := i - 2;
        done := done + 1;
      }
      for n := 0 to BLOCK
        invariant x[..] == DoubleRounds(input[..], 10)
        invariant forall j :: 0 <= j < n ==> output[j] == ByteOf(Add32(x[j / 4], input[j / 4]), j % 4)
      {
        output[n] := ByteOf(Add32(x[n / 4], input[n / 4]), n % 4);
      }
    }

    /** One chunk: c[at..at + n] := m[at..at + n] xor output[..n]. */
    method XorChunk(m: array<nat>, c: array<nat>, output: array<nat>, at: nat, n: nat)
      requires at + n <= m.Length && at + n <= c.Length && n <= output.Length && c != output
      modifies c
      ensures forall i :: at <= i < at + n ==> c[i] == Xor(old(m[i]), output[i - at])
      ensures forall i :: 0 <= i < c.Length && !(at <= i < at + n) ==> c[i] == old(c[i])
    {
      hide Xor;
      var i := 0;
      while i < n
        invariant 0 <= i <= n
        invariant forall j :: at <= j < at + i ==> c[j] == Xor(old(m[j]), output[j - at])
        invariant forall j :: 0 <= j < c.Length && !(at <= j < at + i) ==> c[j] == old(c[j])
      {
        c[at + i] := Xor(m[at + i], output[i]);
        i := i + 1;
      }
    }

    /** The carried increment after each block. */
    method NextBlock(ghost start: seq<nat>, ghost k: nat)
      requires Valid() && State(start) && input[..] == AtBlock(start, k)
      modifies input
      ensures Valid() && input[..] == AtBlock(start, k + 1)
    {
      CounterCarries(start, k);
      input[12] := Add32(input[12], 1);
      if input[12] == 0 {
        input[13] := Add32(input[13], 1);
      }
    }

    /** One pass of the loop: block `k` of the key stream over `n` bytes, counter advanced. */
    method StreamChunk(m: array<nat>, c: array<nat>, output: array<nat>, at: nat, n: nat, ghost start: seq<nat>,
        ghost k: nat)
      requires Valid() && m != input && c != input && output.Length == BLOCK && output != input && output != c
          && output != m
      requires State(start) && input[..] == AtBlock(start, k) && at == BLOCK * k && n <= BLOCK
      requires at + n <= m.Length && at + n <= c.Length
      modifies c, input, output
      ensures Valid() && input[..] == AtBlock(start, k + 1)
      ensures forall i :: at <= i < at + n ==> c[i] == Xor(old(m[i]), KeyByte(start, i))
      ensures forall i :: 0 <= i < c.Length && !(at <= i < at + n) ==> c[i] == old(c[i])
    {
      hide Xor, KeyBlock, AtBlock, KeyByte;
      WordToByte(output);
      NextBlock(start, k);
      ChunkIsStream(start, k, output[..]);
      XorChunk(m, c, output, at, n);
    }

    /** `ECRYPT_encrypt_bytes`, also in place (c and m the same array): every byte is xored with
        the key stream byte of its position, and the context is as it was. */
    method EncryptBytes(m: array<nat>, c: array<nat>, bytes0: nat)
      requires Valid() && m != input && c != input
      requires bytes0 <= m.Length && bytes0 <= c.Length
      modifies c, input
      ensures Valid() && input[..] == old(input[..])
      ensures forall i :: 0 <= i < bytes0 ==> c[i] == Xor(old(m[i]), KeyByte(old(input[..]), i))
      ensures forall i :: bytes0 <= i < c.Length ==> c[i] == old(c[i])
    {
      hide Xor, KeyBlock, AtBlock, KeyByte;
      var output := new nat[BLOCK];
      var x12, x13 := input[12], input[13];
      ghost var start, k := input[..], 0;
      if bytes0 == 0 {
        return;
      }
      CounterStarts(start);
      var bytes, at := bytes0, 0;
      while true
        invariant at == BLOCK * k && 0 < bytes == bytes0 - at
        invariant Valid() && input[..] == AtBlock(start, k)
        invariant forall i :: 0 <= i < at ==> c[i] == Xor(old(m[i]), KeyByte(start, i))
        invariant forall i :: at <= i < c.Length ==> c[i] == old(c[i])
        invariant forall i :: at <= i < m.Length ==> m[i] == old(m[i])
        decreases bytes
      {
        if bytes <= BLOCK {
          StreamChunk(m, c, output, at, bytes, start, k);
          break;
        }
        StreamChunk(m, c, output, at, BLOCK, start, k);
        bytes := bytes - BLOCK;
        at := at + BLOCK;
        k := k + 1;
      }
      RestoreCounter(start, k + 1, input[..]);
      input[12], input[13] := x12, x13;
    }

    static lemma ChunkIsStream(start: seq<nat>, k: nat, out: seq<nat>)
      requires State(start) && out == KeyBlock(AtBlock(start, k))
      ensures forall i :: BLOCK * k <= i < BLOCK * k + BLOCK ==> KeyByte(start, i) == out[i - BLOCK * k]
    {
      hide KeyBlock, AtBlock;
      forall i | BLOCK * k <= i < BLOCK * k + BLOCK
        ensures KeyByte(start, i) == out[i - BLOCK * k]
      {
        SplitPosition(k, i - BLOCK * k);
      }
    }

    static lemma RestoreCounter(start: seq<nat>, k: nat, now: seq<nat>)
      requires State(start) && now == AtBlock(start, k)
      ensures now[12 := start[12]][13 := start[13]] == start
    {
    }

    /** Encrypting in place and decrypting in place with the same context returns the message,
        for every length. */
    method EncryptThenDecrypt(m: array<nat>, bytes: nat)
      requires Valid() && m != input && bytes <= m.Length
      modifies m, input
      ensures Valid() && input[..] == old(input[..]) && m[..] == old(m[..])
    {
      hide KeyByte, Xor;
      ghost var start, msg := input[..], m[..];
      EncryptBytes(m, m, bytes);
      EncryptBytes(m, m, bytes);
      forall i | 0 <= i < bytes
        ensures Xor(Xor(msg[i], KeyByte(start, i)), KeyByte(start, i)) == msg[i]
      {
        XorCancel(msg[i], KeyByte(start, i));
      }
    }

    /** From buffer to buffer: `m` enciphered into `c`, that deciphered into `d`. */
    method EncryptThenDecryptApart(m: array<nat>, c: array<nat>, d: array<nat>, bytes: nat)
      requires Valid() && m != input && c != input && d != input && c != m
      requires bytes <= m.Length && bytes <= c.Length && bytes <= d.Length
      modifies c, d, input
      ensures Valid() && input[..] == old(input[..])
      ensures d[..bytes] == old(m[..bytes])
      ensures d != m && c != d ==> forall i :: 0 <= i < bytes ==> c[i] == Xor(m[i], KeyByte(input[..], i))
    {
      hide KeyByte, Xor;
      ghost var start, msg := input[..], m[..];
      EncryptBytes(m, c, bytes);
      EncryptBytes(c, d, bytes);
      forall i | 0 <= i < bytes
        ensures Xor(Xor(msg[i], KeyByte(start, i)), KeyByte(start, i)) == msg[i]
      {
        XorCancel(msg[i], KeyByte(start, i));
      }
    }
  }
}
