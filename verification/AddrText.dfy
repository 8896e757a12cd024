/** Textual IPv4 and IPv6 addresses: the grammar that `inet_pton4` and `inet_pton6` accept
    (ipsec_eval/parser.c:83-234), after section 2.2 of RFC 4291, and the two parsers as state
    machines over the characters, proved to accept exactly that grammar. */
module AddrText {
  import opened Basics

  // ---------------------------------------------------------------- characters

  predicate IsDigit(c: char) { '0' <= c <= '9' }

  function DigitOf(c: char): (d: nat)
    ensures d < 10
  {
    if IsDigit(c) then c as nat - '0' as nat else 0
  }

  predicate IsHex(c: char) { IsDigit(c) || 'a' <= c <= 'f' || 'A' <= c <= 'F' }

  function HexOf(c: char): (d: nat)
    ensures d < 16
  {
    if IsDigit(c) then DigitOf(c)
    else if 'a' <= c <= 'f' then c as nat - 'a' as nat + 10
    else if 'A' <= c <= 'F' then c as nat - 'A' as nat + 10
    else 0
  }

  function DecVal(s: string): nat {
    if s == "" then 0 else DecVal(s[..|s| - 1]) * 10 + DigitOf(s[|s| - 1])
  }

  function HexVal(s: string): nat {
    if s == "" then 0 else HexVal(s[..|s| - 1]) * 16 + HexOf(s[|s| - 1])
  }

  // ---------------------------------------------------------------- dotted quads: grammar

  /** A decimal number of any length with a value that fits an octet. */
  ghost predicate IsNumber(n: string) {
    n != "" && (forall i :: 0 <= i < |n| ==> IsDigit(n[i])) && DecVal(n) <= 255
  }

  ghost predicate Numbers(q: seq<string>) { forall i :: 0 <= i < |q| ==> IsNumber(q[i]) }

  /** Texts with a separator between them. */
  function Joined(ts: seq<string>, sep: char): string {
    if ts == [] then "" else if |ts| == 1 then ts[0] else ts[0] + [sep] + Joined(ts[1..], sep)
  }

  function Values(q: seq<string>): (b: seq<Byte>)
    requires Numbers(q)
    ensures |b| == |q|
  {
    if q == [] then [] else [DecVal(q[0])] + Values(q[1..])
  }

  lemma ValuesUnfold(q: seq<string>)
    requires Numbers(q) && q != []
    ensures Values(q) == [DecVal(q[0])] + Values(q[1..]) && (|q| == 1 ==> Values(q) == [DecVal(q[0])])
  {
    hide DecVal;
    if |q| == 1 { assert q[1..] == []; }
  }

  lemma NoDigits()
    ensures DecVal("") == 0 && HexVal("") == 0
  {
  }

  // ---------------------------------------------------------------- dotted quads: machine

  /** Octets complete so far, and the digits of the one being read. */
  datatype QuadState = QuadState(octets: seq<Byte>, tok: string)

  function QuadRun(st: QuadState, rest: string): Option<seq<Byte>>
    decreases |rest|
  {
    if rest == "" then
      if |st.octets| == 3 && st.tok != "" && DecVal(st.tok) <= 255 then Some(st.octets + [DecVal(st.tok)]) else None
    else if IsDigit(rest[0]) then
      if DecVal(st.tok + [rest[0]]) > 255 then None else QuadRun(st.(tok := st.tok + [rest[0]]), rest[1..])
    else if rest[0] == '.' && st.tok != "" && DecVal(st.tok) <= 255 then
      if |st.octets| >= 3 then None else QuadRun(QuadState(st.octets + [DecVal(st.tok)], ""), rest[1..])
    else None
  }

  /** `inet_pton4`: the four octets, or None for any other text. */
  function Quad(s: string): Option<seq<Byte>> { QuadRun(QuadState([], ""), s) }

  lemma {:induction false} QuadLength(st: QuadState, rest: string)
    ensures QuadRun(st, rest).Some? ==> |QuadRun(st, rest).value| == 4
    decreases |rest|
  {
    if rest != "" {
      QuadLength(st.(tok := st.tok + [rest[0]]), rest[1..]);
      if DecVal(st.tok) <= 255 { QuadLength(QuadState(st.octets + [DecVal(st.tok)], ""), rest[1..]); }
    }
  }

  lemma QuadIsFour(s: string)
    ensures Quad(s).Some? ==> |Quad(s).value| == 4
  {
    QuadLength(QuadState([], ""), s);
  }

  /** What the machine accepts is a quad. */
  lemma {:induction false} QuadSound(st: QuadState, rest: string) returns (q: seq<string>)
    requires QuadRun(st, rest).Some? && |st.octets| <= 3 && DecVal(st.tok) <= 255
    requires forall i :: 0 <= i < |st.tok| ==> IsDigit(st.tok[i])
    ensures Numbers(q) && |st.octets| + |q| == 4 && Joined(q, '.') == st.tok + rest
    ensures QuadRun(st, rest) == Some(st.octets + Values(q))
    decreases |rest|
  {
    hide DecVal, DigitOf, Values;
    NoDigits();
    if rest == "" {
      q := [st.tok];
      assert st.tok + rest == st.tok;
      ValuesUnfold(q);
    } else if IsDigit(rest[0]) {
      q := QuadSound(st.(tok := st.tok + [rest[0]]), rest[1..]);
      assert st.tok + [rest[0]] + rest[1..] == st.tok + rest;
    } else {
      var r := QuadSound(QuadState(st.octets + [DecVal(st.tok)], ""), rest[1..]);
      q := [st.tok] + r;
      assert q[1..] == r;
      ValuesUnfold(q);
      assert "" + rest[1..] == rest[1..];
      assert st.tok + ['.'] + rest[1..] == st.tok + rest;
      assert st.octets + [DecVal(st.tok)] + Values(r) == st.octets + Values(q);
    }
  }

  lemma {:induction false} DecPrefix(s: string, t: string)
    ensures DecVal(s) <= DecVal(s + t)
  {
    if t == "" {
      assert s + t == s;
    } else {
      assert (s + t)[..|s + t| - 1] == s + t[..|t| - 1];
      DecPrefix(s, t[..|t| - 1]);
    }
  }

  /** Reading the digits of a number. */
  lemma {:induction false} QuadReads(octets: seq<Byte>, tok: string, n: string, rest: string)
    requires DecVal(tok + n) <= 255 && forall i :: 0 <= i < |n| ==> IsDigit(n[i])
    ensures QuadRun(QuadState(octets, tok), n + rest) == QuadRun(QuadState(octets, tok + n), rest)
    decreases |n|
  {
    hide DecVal;
    if n == "" {
      assert n + rest == rest && tok + n == tok;
    } else {
      var c, t := n[0], n[1..];
      assert (n + rest)[0] == c && (n + rest)[1..] == t + rest;
      assert tok + [c] + t == tok + n;
      DecPrefix(tok + [c], t);
      QuadReads(octets, tok + [c], t, rest);
    }
  }

  /** Every quad is accepted. */
  lemma {:induction false} QuadComplete(octets: seq<Byte>, q: seq<string>)
    requires Numbers(q) && q != [] && |octets| + |q| == 4
    ensures QuadRun(QuadState(octets, ""), Joined(q, '.')) == Some(octets + Values(q))
    decreases |q|
  {
    hide DecVal, Values;
    var n := q[0];
    assert "" + n == n;
    ValuesUnfold(q);
    if |q| == 1 {
      assert n + "" == n;
      QuadReads(octets, "", n, "");
    } else {
      var t := Joined(q[1..], '.');
      QuadReads(octets, "", n, ['.'] + t);
      assert n + (['.'] + t) == n + ['.'] + t;
      assert (['.'] + t)[0] == '.' && (['.'] + t)[1..] == t;
      QuadComplete(octets + [DecVal(n)], q[1..]);
      assert octets + [DecVal(n)] + Values(q[1..]) == octets + Values(q);
    }
  }

  /** Exactly the texts of four numbers with dots between them are accepted, with their values. */
  lemma QuadIff(s: string, b: seq<Byte>)
    ensures Quad(s) == Some(b) <==>
        exists q: seq<string> :: |q| == 4 && Numbers(q) && Joined(q, '.') == s && Values(q) == b
  {
    if Quad(s) == Some(b) {
      assert DecVal("") == 0;
      var q := QuadSound(QuadState([], ""), s);
      assert "" + s == s && [] + Values(q) == Values(q);
    }
    if q: seq<string> :| |q| == 4 && Numbers(q) && Joined(q, '.') == s && Values(q) == b {
      QuadComplete([], q);
      assert [] + Values(q) == Values(q);
    }
  }
}
