/** `inet_pton4` and `inet_pton6` with their buffers and pointers (ipsec_eval/parser.c:83-234), and
    the address printer of ipsec_eval/sa.c:519-542. */
module AddrCode {
  import opened Basics
  import opened AddrText
  import opened AddrText6

  // inet_pton4 on the text from `from` on; 1 and the four octets stored, or 0 and nothing touched.
  method InetPton4(src: string, from: nat, dst: array<Byte>, at: nat) returns (r: nat)
    requires from <= |src| && at + 4 <= dst.Length
    modifies dst
    ensures match Quad(src[from..])
      case None => r == 0 && dst[..] == old(dst[..])
      case Some(b) => r == 1 && |b| == 4 && dst[..] == old(dst[..at]) + b + old(dst[at + 4..])
  {
    hide QuadRun, DecVal;
    var tmp := new Byte[4];
    var sawDigit, octets, tp, k := false, 0, 0, from;
    tmp[0] := 0;
    ghost var tok := "";
    NoDigits();
    assert tmp[..0] == [];
    while k < |src|
      invariant from <= k <= |src| && tp <= 3 && octets == tp + (if sawDigit then 1 else 0)
      invariant sawDigit == (tok != "") && tmp[tp] == DecVal(tok) && dst[..] == old(dst[..])
      invariant Quad(src[from..]) == QuadRun(QuadState(tmp[..tp], tok), src[k..])
    {
      var ch := src[k];
      QuadStep(QuadState(tmp[..tp], tok), src[k..]);
      assert src[k..][1..] == src[k + 1..];
      k := k + 1;
      if IsDigit(ch) {
        MoreDigits(tok, ch);
        var cur: nat := tmp[tp];
        var new_: nat := cur * 10 + DigitOf(ch);
        if new_ > 255 { return 0; }
        if !sawDigit {
          octets := octets + 1;
          assert octets <= 4; // the code's test for more never fires: a dot after four is refused
          sawDigit := true;
        }
        ghost var done := tmp[..tp];
        tmp[tp] := new_;
        tok := tok + [ch];
        assert tmp[..tp] == done;
      } else if ch == '.' && sawDigit {
        if octets == 4 { return 0; }
        ghost var done := tmp[..tp];
        assert tmp[..tp + 1] == done + [DecVal(tok)];
        tp := tp + 1;
        tmp[tp] := 0;
        assert tmp[..tp] == done + [DecVal(tok)];
        sawDigit, tok := false, "";
      } else {
        return 0;
      }
    }
    assert src[k..] == "";
    QuadEnd(QuadState(tmp[..tp], tok));
    if octets < 4 { return 0; }
    assert tp == 3 && tmp[..4] == tmp[..3] + [DecVal(tok)];
    CopyInto(tmp, dst, at, 4);
    r := 1;
  }

  lemma QuadStep(st: QuadState, rest: string)
    requires rest != "" && DecVal(st.tok) <= 255
    ensures QuadRun(st, rest) ==
      if IsDigit(rest[0]) then
        if DecVal(st.tok + [rest[0]]) > 255 then None else QuadRun(st.(tok := st.tok + [rest[0]]), rest[1..])
      else if rest[0] == '.' && st.tok != "" then
        if |st.octets| >= 3 then None else QuadRun(QuadState(st.octets + [DecVal(st.tok)], ""), rest[1..])
      else None
  {
    hide DecVal;
  }

  lemma QuadEnd(st: QuadState)
    requires DecVal(st.tok) <= 255
    ensures QuadRun(st, "") == if |st.octets| == 3 && st.tok != "" then Some(st.octets + [DecVal(st.tok)]) else None
  {
    hide DecVal;
  }

  lemma MoreDigits(tok: string, c: char)
    ensures DecVal(tok + [c]) == DecVal(tok) * 10 + DigitOf(c) && HexVal(tok + [c]) == HexVal(tok) * 16 + HexOf(c)
  {
    assert (tok + [c])[..|tok|] == tok;
  }

  // memcpy.
  method CopyInto(tmp: array<Byte>, dst: array<Byte>, at: nat, n: nat)
    requires tmp != dst && n <= tmp.Length && at + n <= dst.Length
    modifies dst
    ensures dst[..] == old(dst[..at]) + tmp[..n] + old(dst[at + n..])
  {
    forall i | 0 <= i < n { dst[at + i] := tmp[i]; }
  }

  // ---------------------------------------------------------------- inet_pton6

  function Pointer(p: int): Option<nat> { if p < 0 then None else Some(p) }

  lemma RunStep(st: State, rest: string)
    requires StateOk(st) && rest != ""
    ensures IsHex(rest[0]) ==>
      var h := st.(tok := st.tok + [rest[0]]);
      if |st.tok| >= 4 then Run(st, rest) == None else StateOk(h) && Run(st, rest) == Run(h, rest[1..])
    ensures !IsHex(rest[0]) && rest[0] == ':' && st.tok == "" ==>
      Run(st, rest) == if st.colon.Some? then None else Run(st.(colon := Some(|st.out|)), rest[1..])
    ensures !IsHex(rest[0]) && rest[0] == ':' && st.tok != "" ==>
      if |rest| == 1 || |st.out| + 2 > 16 then Run(st, rest) == None
      else StateOk(Pushed(st)) && Run(st, rest) == Run(Pushed(st), rest[1..])
    ensures !IsHex(rest[0]) && rest[0] != ':' ==>
      var q := Quad(st.tok + rest);
      if rest[0] == '.' && |st.out| + 4 <= 16 && q.Some? then
        |q.value| == 4 && Run(st, rest) == Finish(st.out + q.value, st.colon)
      else Run(st, rest) == None
  {
    hide Finish, Quad, HexVal, Word, IsHex;
    QuadIsFour(st.tok + rest);
  }

  /** What is left to do after the last character. */
  function Ending(out: seq<Byte>, colon: Option<nat>, sawXdigit: bool, val: nat): Option<seq<Byte>>
    requires |out| <= 16 && (colon.Some? ==> colon.value <= |out|)
  {
    if !sawXdigit then Finish(out, colon) else if |out| + 2 > 16 then None else Finish(out + Word(val), colon)
  }

  lemma RunEnd(st: State)
    requires StateOk(st)
    ensures Run(st, "") == Ending(st.out, st.colon, st.tok != "", HexVal(st.tok))
  {
    hide Finish, HexVal, Word;
  }

  lemma HexBound(s: string)
    requires |s| <= 4
    ensures HexVal(s) < 0x1_0000
  {
    if s != "" {
      var a := s[..|s| - 1];
      if a != "" {
        var b := a[..|a| - 1];
        if b != "" {
          var c := b[..|b| - 1];
          assert HexVal(c) < 16;
          assert HexVal(b) < 256;
        }
        assert HexVal(a) < 4096;
      }
    }
  }

  lemma NothingPending(out: seq<Byte>, colon: Option<nat>, val: nat)
    requires |out| <= 16 && (colon.Some? ==> colon.value <= |out|)
    ensures Ending(out, colon, false, val) == Finish(out, colon)
  {
  }

  /** The variables of the loop before character `k`: buffer `t`, filled up to `tp`, the double
      colon, start and value of the current token; parsing from here on decides the result. */
  ghost predicate Reads(src: string, k: nat, t: seq<Byte>, tp: nat, colonp: int, curtok: nat, val: nat) {
    && |t| == 16 && curtok <= k <= |src| && tp <= 16 && tp % 2 == 0 && -1 <= colonp <= tp
    && (forall i :: tp <= i < 16 ==> t[i] == 0)
    && k - curtok <= 4 && (forall i :: curtok <= i < k ==> IsHex(src[i]))
    && val == HexVal(src[curtok..k])
    && StateOk(State(t[..tp], Pointer(colonp), src[curtok..k]))
    && Parse(src) == Run(State(t[..tp], Pointer(colonp), src[curtok..k]), src[k..])
  }

  lemma ReadsStart(src: string, t: seq<Byte>, k: nat)
    requires k <= |src| && t == Zeros(16)
    requires Parse(src) == Run(State([], None, ""), src[k..])
    ensures Reads(src, k, t, 0, -1, k, 0)
  {
    hide Run, Parse;
    NoDigits();
    assert t[..0] == [] && src[k..k] == "";
  }

  lemma ReadsHex(src: string, k: nat, t: seq<Byte>, tp: nat, colonp: int, curtok: nat, val: nat)
    requires Reads(src, k, t, tp, colonp, curtok, val) && k < |src| && IsHex(src[k])
    ensures if k - curtok >= 4 then Parse(src) == None
      else Reads(src, k + 1, t, tp, colonp, curtok, val * 16 + HexOf(src[k])) && val * 16 + HexOf(src[k]) <= 0xffff
  {
    hide Run, Parse, HexVal, HexOf, IsHex;
    RunStep(State(t[..tp], Pointer(colonp), src[curtok..k]), src[k..]);
    assert src[k..][1..] == src[k + 1..] && src[curtok..k + 1] == src[curtok..k] + [src[k]];
    if k - curtok < 4 {
      MoreDigits(src[curtok..k], src[k]);
      HexBound(src[curtok..k + 1]);
    }
  }

  lemma ReadsColon(src: string, k: nat, t: seq<Byte>, tp: nat, colonp: int, curtok: nat, val: nat, u: seq<Byte>)
    requires Reads(src, k, t, tp, colonp, curtok, val) && k < |src| && src[k] == ':'
    ensures k == curtok ==> if colonp >= 0 then Parse(src) == None else Reads(src, k + 1, t, tp, tp, k + 1, val)
    ensures k != curtok && (k + 1 == |src| || tp + 2 > 16) ==> Parse(src) == None
    ensures k != curtok && k + 1 < |src| && tp + 2 <= 16 && |u| == 16 && u[..tp + 2] == t[..tp] + Word(val)
        && u[tp + 2..] == t[tp + 2..]
      ==> Reads(src, k + 1, u, tp + 2, colonp, k + 1, 0)
  {
    hide Run, Parse, HexOf, Word, Finish;
    NoDigits();
    RunStep(State(t[..tp], Pointer(colonp), src[curtok..k]), src[k..]);
    assert src[k..][1..] == src[k + 1..] && src[k + 1..k + 1] == "" && !IsHex(':');
    if k == curtok { assert src[k..k] == ""; }
    if k != curtok && k + 1 < |src| && tp + 2 <= 16 && |u| == 16 && u[..tp + 2] == t[..tp] + Word(val) &&
        u[tp + 2..] == t[tp + 2..] {
      assert forall i :: tp + 2 <= i < 16 ==> u[i] == u[tp + 2..][i - tp - 2] == t[i];
    }
  }

  lemma ReadsOther(src: string, k: nat, t: seq<Byte>, tp: nat, colonp: int, curtok: nat, val: nat)
    requires Reads(src, k, t, tp, colonp, curtok, val) && k < |src| && !IsHex(src[k]) && src[k] != ':'
    ensures Parse(src) == if src[k] == '.' && tp + 4 <= 16 && Quad(src[curtok..]).Some?
      then (QuadIsFour(src[curtok..]); Finish(t[..tp] + Quad(src[curtok..]).value, Pointer(colonp))) else None
    ensures forall i :: tp <= i < 16 ==> t[i] == 0
  {
    hide Run, Parse, HexOf, Finish, IsHex, Quad;
    RunStep(State(t[..tp], Pointer(colonp), src[curtok..k]), src[k..]);
    assert src[curtok..k] + src[k..] == src[curtok..];
    QuadIsFour(src[curtok..]);
  }

  lemma ReadsEnd(src: string, t: seq<Byte>, tp: nat, colonp: int, curtok: nat, val: nat)
    requires Reads(src, |src|, t, tp, colonp, curtok, val)
    ensures tp <= 16 && -1 <= colonp <= tp
    ensures Parse(src) == Ending(t[..tp], Pointer(colonp), curtok < |src|, val) &&
        forall i :: tp <= i < 16 ==> t[i] == 0
  {
    hide Run, Parse, HexOf, Ending;
    assert src[|src|..] == "";
    RunEnd(State(t[..tp], Pointer(colonp), src[curtok..]));
    assert src[curtok..|src|] == src[curtok..];
  }

  // The character loop.  On success what is left to store is the value of the last token, if any.
  method Scan(src: string, tmp: array<Byte>) returns (ok: bool, tp: nat, colonp: int, sawXdigit: bool, val: nat,
      dbloct: nat)
    requires tmp.Length == 16 && tmp[..] == Zeros(16)
    modifies tmp
    ensures !ok ==> Parse(src) == None
    ensures ok ==> tp <= 16 && tp == 2 * dbloct && -1 <= colonp <= tp && (forall i :: tp <= i < 16 ==> tmp[i] == 0)
    ensures ok ==> Parse(src) == Ending(tmp[..tp], Pointer(colonp), sawXdigit, val)
  {
    hide Run, Finish, Quad, HexVal, HexOf, Zeros, IsHex, Ending, Word, Reads;
    var k := 0;
    ok, tp, colonp, sawXdigit, val, dbloct := false, 0, -1, false, 0, 0;
    if src != "" && src[0] == ':' {
      k := 1;
      if |src| < 2 || src[1] != ':' { return; }
    }
    assert k == 0 ==> src[k..] == src;
    ReadsStart(src, tmp[..], k);
    var curtok, countXdigit := k, 0;
    while k < |src|
      invariant curtok <= k <= |src| && tp == 2 * dbloct && tp <= 16 && -1 <= colonp <= tp
      invariant countXdigit == k - curtok && sawXdigit == (countXdigit > 0)
      invariant Reads(src, k, tmp[..], tp, colonp, curtok, val)
    {
      var ch := src[k];
      ghost var t := tmp[..];
      k := k + 1;
      if IsHex(ch) {
        ReadsHex(src, k - 1, t, tp, colonp, curtok, val);
        if countXdigit >= 4 { return; }
        val := val * 16 + HexOf(ch);
        if val > 0xffff { return; }
        sawXdigit, countXdigit := true, countXdigit + 1;
      } else if ch == ':' {
        ghost var token := curtok;
        curtok := k;
        if !sawXdigit {
          ReadsColon(src, k - 1, t, tp, colonp, token, val, t);
          countXdigit := 0;
          if colonp >= 0 { return; }
          colonp := tp;
        } else {
          ReadsColon(src, k - 1, t, tp, colonp, token, val, t);
          if k == |src| || tp + 2 > 16 { return; }
          PutWord(tmp, tp, val);
          ReadsColon(src, k - 1, t, tp, colonp, token, val, tmp[..]);
          tp, sawXdigit, countXdigit, val, dbloct := tp + 2, false, 0, 0, dbloct + 1;
        }
      } else {
        ReadsOther(src, k - 1, t, tp, colonp, curtok, val);
        if ch == '.' && tp + 4 <= 16 {
          var four := InetPton4(src, curtok, tmp, tp);
          if four > 0 {
            assert tmp[..tp + 4] == t[..tp] + Quad(src[curtok..]).value;
            assert forall i :: tp + 4 <= i < 16 ==> tmp[..][i] == t[i];
            ok, tp, sawXdigit, dbloct := true, tp + 4, false, dbloct + 2;
            NothingPending(tmp[..tp], Pointer(colonp), val);
          }
        }
        return;
      }
    }
    ReadsEnd(src, tmp[..], tp, colonp, curtok, val);
    assert tmp[..][..tp] == tmp[..tp];
    ok := true;
  }

  method PutWord(tmp: array<Byte>, tp: nat, val: nat)
    requires tp + 2 <= tmp.Length
    modifies tmp
    ensures tmp[..tp + 2] == old(tmp[..tp]) + Word(val) && tmp[tp + 2..] == old(tmp[tp + 2..])
  {
    tmp[tp] := val / 256 % 256;
    tmp[tp + 1] := val % 256;
  }

  /** The buffer when the last `n` of the `tp` bytes have moved to the end. */
  ghost predicate Shifted(s: seq<Byte>, was: seq<Byte>, tp: nat, n: nat)
    requires |s| == |was| == 16 && n <= tp < 16
  {
    && (forall k :: 0 <= k < tp - n ==> s[k] == was[k])
    && (forall k :: tp - n <= k < 16 - n ==> s[k] == 0)
    && (forall k :: 16 - n <= k < 16 ==> s[k] == was[k - 16 + tp])
  }

  // The overlapping shift: the bytes from `c` to `tp` move to the end of the buffer, zeros behind.
  method ShiftRight(tmp: array<Byte>, c: nat, tp: nat)
    requires tmp.Length == 16 && c <= tp < 16 && forall i :: tp <= i < 16 ==> tmp[i] == 0
    modifies tmp
    ensures tmp[..] == old(tmp[..c]) + Zeros(16 - tp) + old(tmp[c..tp])
  {
    ghost var was := tmp[..];
    var n, i := tp - c, 1;
    while i <= n
      invariant 1 <= i <= n + 1 && Shifted(tmp[..], was, tp, i - 1)
    {
      ghost var s := tmp[..];
      tmp[16 - i] := tmp[c + n - i];
      tmp[c + n - i] := 0;
      assert tmp[..] == s[16 - i := s[tp - i]][tp - i := 0];
      i := i + 1;
    }
    ghost var s := tmp[..];
    ShiftedAll(s, was, c, tp);
  }

  lemma ShiftedAll(s: seq<Byte>, was: seq<Byte>, c: nat, tp: nat)
    requires |s| == |was| == 16 && c <= tp < 16 && Shifted(s, was, tp, tp - c)
    ensures s == was[..c] + Zeros(16 - tp) + was[c..tp]
  {
    assert s[..c] == was[..c];
    assert s[c..c + 16 - tp] == Zeros(16 - tp);
    assert s[c + 16 - tp..] == was[c..tp];
    assert s == s[..c] + s[c..c + 16 - tp] + s[c + 16 - tp..];
  }

  // inet_pton6: 1 and the sixteen bytes stored, or 0 and nothing touched.
  method InetPton6(src: string, dst: array<Byte>) returns (r: nat)
    requires dst.Length >= 16
    modifies dst
    ensures match Parse(src)
      case None => r == 0 && dst[..] == old(dst[..])
      case Some(b) => r == 1 && |b| == 16 && dst[..] == b + old(dst[16..])
  {
    hide Parse, Zeros, Word;
    var tmp := new Byte[16](_ => 0);
    assert tmp[..] == Zeros(16);
    var ok, tp, colonp, sawXdigit, val, dbloct := Scan(src, tmp);
    if !ok { return 0; }
    if sawXdigit {
      if tp + 2 > 16 { return 0; }
      PutWord(tmp, tp, val);
      tp, dbloct := tp + 2, dbloct + 1;
    }
    assert Parse(src) == Finish(tmp[..tp], Pointer(colonp));
    if colonp >= 0 {
      if dbloct == 8 { return 0; }
      ghost var out := tmp[..tp];
      assert tmp[..colonp] == out[..colonp] && tmp[colonp..tp] == out[colonp..];
      ShiftRight(tmp, colonp, tp);
      tp := 16;
    }
    if tp != 16 { return 0; }
    assert tmp[..16] == tmp[..] && Parse(src) == Some(tmp[..]);
    CopyInto(tmp, dst, 0, 16);
    assert dst[..] == tmp[..] + old(dst[16..]);
    r := 1;
  }

  // ---------------------------------------------------------------- printing

  /** %hhu. */
  function Dec(x: Byte): string {
    if x < 10 then [Digit(x)]
    else if x < 100 then [Digit(x / 10), Digit(x % 10)]
    else [Digit(x / 100), Digit(x / 10 % 10), Digit(x % 10)]
  }

  function Digit(d: nat): char
    requires d < 10
  {
    (d + '0' as nat) as char
  }

  lemma DecIsNumber(x: Byte)
    ensures IsNumber(Dec(x)) && DecVal(Dec(x)) == x
  {
    var s := Dec(x);
    assert s[..|s| - 1] == if x < 10 then "" else Dec(x / 10);
    NoDigits();
    if x >= 10 { DecIsNumber(x / 10); }
  }

  /** An IPv4 address of an SA as it is printed. */
  function Printed4(b: seq<Byte>): string
    requires |b| == 4
  {
    Dec(b[0]) + "." + Dec(b[1]) + "." + Dec(b[2]) + "." + Dec(b[3])
  }

  /** A printed IPv4 address is parsed back to its octets. */
  lemma Print4Parses(b: seq<Byte>)
    requires |b| == 4
    ensures Quad(Printed4(b)) == Some(b)
  {
    hide Dec, DecVal, Quad, Values, Joined;
    forall i | 0 <= i < 4 ensures IsNumber(Dec(b[i])) && DecVal(Dec(b[i])) == b[i] { DecIsNumber(b[i]); }
    var q := [Dec(b[3])];
    ValuesUnfold(q);
    OneText(q);
    q := OneMore(Dec(b[2]), q);
    q := OneMore(Dec(b[1]), q);
    q := OneMore(Dec(b[0]), q);
    assert Values(q) == b;
    assert Joined(q, '.') == Printed4(b);
    QuadIff(Printed4(b), b);
  }

  lemma OneText(q: seq<string>)
    requires |q| == 1
    ensures Joined(q, '.') == q[0]
  {
  }

  lemma OneMore(x: string, q: seq<string>) returns (r: seq<string>)
    requires IsNumber(x) && Numbers(q) && q != []
    ensures r == [x] + q && Numbers(r) && Joined(r, '.') == x + "." + Joined(q, '.')
        && Values(r) == [DecVal(x)] + Values(q)
  {
    hide DecVal;
    r := [x] + q;
    assert r[1..] == q;
  }

  /** %.2x. */
  function Hex2(x: Byte): (s: string)
    ensures |s| == 2
  {
    [HexChar(x / 16), HexChar(x % 16)]
  }

  function HexChar(d: nat): (c: char)
    requires d < 16
    ensures IsHex(c) && HexOf(c) == d
  {
    if d < 10 then (d + '0' as nat) as char else (d - 10 + 'a' as nat) as char
  }

  /** Two bytes to a field. */
  function Groups(b: seq<Byte>): (fs: seq<Field>)
    requires |b| % 2 == 0
    ensures |fs| == |b| / 2
  {
    if b == [] then [] else [Hex(Hex2(b[0]) + Hex2(b[1]))] + Groups(b[2..])
  }

  lemma Nibbles(x: Byte, y: Byte)
    ensures ((x / 16 * 16 + x % 16) * 16 + y / 16) * 16 + y % 16 == x * 256 + y
    ensures Word(x * 256 + y) == [x, y]
  {
    assert (x * 256 + y) / 256 == x && (x * 256 + y) % 256 == y;
  }

  lemma Hex4(x: Byte, y: Byte)
    ensures FieldOk(Hex(Hex2(x) + Hex2(y))) && Word(HexVal(Hex2(x) + Hex2(y))) == [x, y]
  {
    hide HexVal, HexOf, HexChar, IsHex, DecVal, DigitOf, Word;
    var c, d, e, f := HexChar(x / 16), HexChar(x % 16), HexChar(y / 16), HexChar(y % 16);
    NoDigits();
    assert "" + [c] == [c] && [c] + [d] == [c, d] && [c, d] + [e] == [c, d, e] && [c, d, e] + [f] == Hex2(x) + Hex2(y);
    MoreDigits("", c);
    MoreDigits([c], d);
    MoreDigits([c, d], e);
    MoreDigits([c, d, e], f);
    Nibbles(x, y);
  }

  lemma {:induction false} GroupsSpell(b: seq<Byte>)
    requires |b| % 2 == 0
    ensures FieldsOk(Groups(b)) && Bytes(Groups(b)) == b
  {
    hide Hex2, HexVal, Word;
    if b != [] {
      GroupsSpell(b[2..]);
      Hex4(b[0], b[1]);
      assert Groups(b)[1..] == Groups(b[2..]);
      BytesUnfold(Groups(b));
      assert b == [b[0], b[1]] + b[2..];
    }
  }

  /** What is printed from byte `i` on: no colon after the last byte. */
  function PrintedFrom(b: seq<Byte>, i: nat): string
    requires i <= |b| == 16
    decreases 16 - i
  {
    if i == 16 then "" else Hex2(b[i]) + (if i % 2 != 0 && i != 15 then ":" else "") + PrintedFrom(b, i + 1)
  }

  // The printing loop for an IPv6 address.
  method Print6(b: seq<Byte>) returns (text: string)
    requires |b| == 16
    ensures text == Text(Groups(b))
  {
    hide Hex2, Groups, Text;
    text := "";
    var i := 0;
    while i < 16
      invariant i <= 16 && text + PrintedFrom(b, i) == PrintedFrom(b, 0)
    {
      AppendParts(text, Hex2(b[i]), if i % 2 != 0 && i != 15 then ":" else "", PrintedFrom(b, i + 1));
      text := text + Hex2(b[i]);
      if i % 2 != 0 && i != 15 { text := text + ":"; }
      i := i + 1;
    }
    assert text + "" == text;
    PrintedIsText(b, 0);
    assert b[0..] == b;
  }

  lemma AppendParts(s: string, x: string, c: string, t: string)
    ensures s + (x + c + t) == s + x + c + t && s + x + "" == s + x
  {
  }

  lemma {:induction false} PrintedIsText(b: seq<Byte>, i: nat)
    requires i <= |b| == 16 && i % 2 == 0
    ensures PrintedFrom(b, i) == Text(Groups(b[i..]))
    decreases 16 - i
  {
    hide Hex2, Groups, Text, PrintedFrom;
    if i < 16 {
      PrintedIsText(b, i + 2);
      PrintedTwo(b, i);
      TextTwo(b, i);
    } else {
      PrintedEnd(b);
    }
  }

  lemma PrintedEnd(b: seq<Byte>)
    requires |b| == 16
    ensures PrintedFrom(b, 16) == "" == Text(Groups(b[16..]))
  {
    assert b[16..] == [];
  }

  lemma PrintedTwo(b: seq<Byte>, i: nat)
    requires i < |b| == 16 && i % 2 == 0
    ensures PrintedFrom(b, i) == Hex2(b[i]) + Hex2(b[i + 1]) + (if i == 14 then "" else ":") + PrintedFrom(b, i + 2)
  {
    hide Hex2;
    var x, y, c, t := Hex2(b[i]), Hex2(b[i + 1]), if i + 1 != 15 then ":" else "", PrintedFrom(b, i + 2);
    assert PrintedFrom(b, i + 1) == y + c + t;
    assert PrintedFrom(b, i) == x + "" + (y + c + t);
    assert x + "" == x && x + (y + c + t) == x + y + c + t;
  }

  lemma TextTwo(b: seq<Byte>, i: nat)
    requires i < |b| == 16 && i % 2 == 0
    ensures Text(Groups(b[i..])) ==
        Hex2(b[i]) + Hex2(b[i + 1]) + (if i == 14 then "" else ":") + Text(Groups(b[i + 2..]))
  {
    hide Hex2;
    var s, more := b[i..], Groups(b[i + 2..]);
    var g := Hex2(b[i]) + Hex2(b[i + 1]);
    assert s[2..] == b[i + 2..] && s[0] == b[i] && s[1] == b[i + 1];
    assert Groups(s) == [Hex(g)] + more;
    assert Groups(s)[1..] == more;
    if i == 14 { assert more == [] && Text(more) == "" && g + "" + "" == g; }
  }

  /** The full-form text of any address is parsed back to its sixteen bytes. */
  lemma Print6Parses(b: seq<Byte>)
    requires |b| == 16
    ensures Parse(Text(Groups(b))) == Some(b)
  {
    GroupsSpell(b);
    Complete(Full(Groups(b)));
  }
}
