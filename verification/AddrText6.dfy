/** Textual IPv6 addresses (ipsec_eval/parser.c:136-234): the grammar of section 2.2 of RFC 4291
    as the code accepts it, and the parser as a state machine that accepts exactly that. */
module AddrText6 {
  import opened Basics
  import opened AddrText

  // ---------------------------------------------------------------- grammar

  /** Up to four hex digits, or a dotted quad.  The digits before the first dot are first read as
      hex digits, so there are at most four of them. */
  datatype Field = Hex(digits: string) | Dotted(quad: seq<string>)

  ghost predicate FieldOk(f: Field) {
    match f
    case Hex(g) => 1 <= |g| <= 4 && forall i :: 0 <= i < |g| ==> IsHex(g[i])
    case Dotted(q) => |q| == 4 && Numbers(q) && |q[0]| <= 4
  }

  /** Only the last field may be a dotted quad. */
  ghost predicate FieldsOk(fs: seq<Field>) {
    && (forall i :: 0 <= i < |fs| ==> FieldOk(fs[i]))
    && (forall i :: 0 <= i < |fs| - 1 ==> fs[i].Hex?)
  }

  ghost predicate AllHex(fs: seq<Field>) { forall i :: 0 <= i < |fs| ==> FieldOk(fs[i]) && fs[i].Hex? }

  function FieldText(f: Field): string {
    match f
    case Hex(g) => g
    case Dotted(q) => Joined(q, '.')
  }

  function Word(v: nat): (b: seq<Byte>)
    ensures |b| == 2
  {
    [v / 256 % 256, v % 256]
  }

  function FieldBytes(f: Field): (b: seq<Byte>)
    requires FieldOk(f)
    ensures |b| == 2 || |b| == 4
  {
    match f
    case Hex(g) => Word(HexVal(g))
    case Dotted(q) => Values(q)
  }

  /** Fields with colons between them. */
  function Text(fs: seq<Field>): string {
    if fs == [] then "" else if |fs| == 1 then FieldText(fs[0]) else FieldText(fs[0]) + ":" + Text(fs[1..])
  }

  lemma FieldsTail(fs: seq<Field>)
    requires FieldsOk(fs) && fs != []
    ensures FieldOk(fs[0]) && FieldsOk(fs[1..])
  {
    hide FieldOk;
  }

  function Bytes(fs: seq<Field>): (b: seq<Byte>)
    requires FieldsOk(fs)
    ensures |b| % 2 == 0
  {
    if fs == [] then []
    else
      FieldsTail(fs);
      FieldBytes(fs[0]) + Bytes(fs[1..])
  }

  /** All sixteen bytes spelled out, or a double colon for a gap of at least two. */
  datatype Form = Full(fields: seq<Field>) | Gap(left: seq<Field>, right: seq<Field>)

  ghost predicate FormOk(f: Form) {
    match f
    case Full(fs) => FieldsOk(fs) && |Bytes(fs)| == 16
    case Gap(l, r) => FieldsOk(l) && AllHex(l) && FieldsOk(r) && |Bytes(l)| + |Bytes(r)| <= 14
  }

  function FormText(f: Form): string {
    match f
    case Full(fs) => Text(fs)
    case Gap(l, r) => Text(l) + "::" + Text(r)
  }

  function FormBytes(f: Form): (b: seq<Byte>)
    requires FormOk(f)
    ensures |b| == 16
  {
    match f
    case Full(fs) => Bytes(fs)
    case Gap(l, r) => Bytes(l) + Zeros(16 - |Bytes(l)| - |Bytes(r)|) + Bytes(r)
  }

  // ---------------------------------------------------------------- machine

  /** Bytes so far, where a double colon was seen, and the hex digits of the current token. */
  datatype State = State(out: seq<Byte>, colon: Option<nat>, tok: string)

  function Finish(out: seq<Byte>, colon: Option<nat>): Option<seq<Byte>>
    requires |out| <= 16 && (colon.Some? ==> colon.value <= |out|)
  {
    match colon
    case None => if |out| == 16 then Some(out) else None
    case Some(c) => if |out| == 16 then None else Some(out[..c] + Zeros(16 - |out|) + out[c..])
  }

  ghost predicate StateOk(st: State) {
    && |st.out| <= 16 && |st.out| % 2 == 0 && (st.colon.Some? ==> st.colon.value <= |st.out|)
    && |st.tok| <= 4 && forall i :: 0 <= i < |st.tok| ==> IsHex(st.tok[i])
  }

  function Pushed(st: State): State { State(st.out + Word(HexVal(st.tok)), st.colon, "") }

  function Run(st: State, rest: string): Option<seq<Byte>>
    requires StateOk(st)
    decreases |rest|
  {
    if rest == "" then
      if st.tok == "" then Finish(st.out, st.colon)
      else if |st.out| + 2 > 16 then None
      else Finish(Pushed(st).out, st.colon)
    else if IsHex(rest[0]) then
      if |st.tok| >= 4 then None else Run(st.(tok := st.tok + [rest[0]]), rest[1..])
    else if rest[0] == ':' then
      if st.tok == "" then
        if st.colon.Some? then None else Run(st.(colon := Some(|st.out|)), rest[1..])
      else if |rest| == 1 || |st.out| + 2 > 16 then None
      else Run(Pushed(st), rest[1..])
    else if rest[0] == '.' && |st.out| + 4 <= 16 && Quad(st.tok + rest).Some? then
      QuadIsFour(st.tok + rest);
      Finish(st.out + Quad(st.tok + rest).value, st.colon)
    else None
  }

  /** `inet_pton6`: a leading colon must be the first of two and is skipped. */
  function Parse(s: string): Option<seq<Byte>> {
    var st := State([], None, "");
    if s != "" && s[0] == ':' then
      if |s| < 2 || s[1] != ':' then None else Run(st, s[1..])
    else Run(st, s)
  }

  // ---------------------------------------------------------------- reading fields

  lemma {:induction false} HexReads(st: State, g: string, rest: string)
    requires StateOk(st) && |st.tok| + |g| <= 4 && forall i :: 0 <= i < |g| ==> IsHex(g[i])
    ensures StateOk(st.(tok := st.tok + g)) && Run(st, g + rest) == Run(st.(tok := st.tok + g), rest)
    decreases |g|
  {
    hide Finish, Pushed, Quad, IsHex;
    if g == "" {
      assert g + rest == rest && st.tok + g == st.tok;
    } else {
      var c, t := g[0], g[1..];
      assert (g + rest)[0] == c && (g + rest)[1..] == t + rest;
      assert st.tok + [c] + t == st.tok + g;
      HexReads(st.(tok := st.tok + [c]), t, rest);
    }
  }

  lemma TextStarts(fs: seq<Field>)
    requires FieldsOk(fs) && fs != []
    ensures Text(fs) != "" && IsHex(Text(fs)[0])
  {
    if fs[0].Dotted? {
      var q := fs[0].quad;
      assert IsNumber(q[0]);
      assert Joined(q, '.') == q[0] + ['.'] + Joined(q[1..], '.');
    }
  }

  lemma BytesUnfold(fs: seq<Field>)
    requires FieldsOk(fs) && fs != []
    ensures FieldsOk(fs[1..]) && Bytes(fs) == FieldBytes(fs[0]) + Bytes(fs[1..]) &&
        (|fs| == 1 ==> Bytes(fs) == FieldBytes(fs[0]))
  {
    if |fs| == 1 { assert fs[1..] == []; }
  }

  /** A dotted quad is read up to its first dot as hex digits, then as a whole. */
  lemma DottedReads(out: seq<Byte>, colon: Option<nat>, q: seq<string>)
    requires StateOk(State(out, colon, "")) && FieldOk(Dotted(q)) && |out| + 4 <= 16
    ensures Run(State(out, colon, ""), Joined(q, '.')) == Finish(out + Values(q), colon)
  {
    hide Finish, Pushed, DecVal, Values;
    var rest := ['.'] + Joined(q[1..], '.');
    var st := State(out, colon, "");
    assert IsNumber(q[0]);
    assert Joined(q, '.') == q[0] + rest;
    assert "" + q[0] == q[0];
    HexReads(st, q[0], rest);
    QuadComplete([], q);
    assert [] + Values(q) == Values(q);
    assert rest[0] == '.';
  }

  /** A list of fields is read to the end. */
  lemma {:induction false} FieldsRun(out: seq<Byte>, colon: Option<nat>, fs: seq<Field>)
    requires StateOk(State(out, colon, "")) && FieldsOk(fs) && fs != [] && |out| + |Bytes(fs)| <= 16
    ensures Run(State(out, colon, ""), Text(fs)) == Finish(out + Bytes(fs), colon)
    decreases |fs|
  {
    hide Finish, Bytes, Quad, HexVal, Word, IsHex;
    var st := State(out, colon, "");
    BytesUnfold(fs);
    if fs[0].Dotted? {
      DottedReads(out, colon, fs[0].quad);
    } else {
      var g := fs[0].digits;
      assert "" + g == g;
      if |fs| == 1 {
        assert g + "" == g;
        HexReads(st, g, "");
      } else {
        var t := Text(fs[1..]);
        HexReads(st, g, ":" + t);
        assert g + (":" + t) == Text(fs);
        TextStarts(fs[1..]);
        ColonReads(st.(tok := g), t);
        FieldsRun(out + FieldBytes(fs[0]), colon, fs[1..]);
        assert out + FieldBytes(fs[0]) + Bytes(fs[1..]) == out + Bytes(fs);
      }
    }
  }

  /** A colon after hex digits stores them. */
  lemma ColonReads(st: State, t: string)
    requires StateOk(st) && st.tok != "" && t != "" && |st.out| + 2 <= 16
    ensures StateOk(Pushed(st)) && Run(st, ":" + t) == Run(Pushed(st), t)
  {
    hide HexVal, Word, Quad, Finish;
    var r := ":" + t;
    assert r[0] == ':' && r[1..] == t && |r| > 1;
  }

  /** The fields in front of a double colon. */
  lemma {:induction false} LeftRun(out: seq<Byte>, fs: seq<Field>, t: string)
    requires StateOk(State(out, None, "")) && FieldsOk(fs) && AllHex(fs) && fs != [] && |out| + |Bytes(fs)| <= 16
        && t != ""
    ensures StateOk(State(out + Bytes(fs), None, ""))
    ensures Run(State(out, None, ""), Text(fs) + ":" + t) == Run(State(out + Bytes(fs), None, ""), t)
    decreases |fs|
  {
    hide Finish, Bytes, Quad, HexVal, Word, IsHex, Run, Text;
    var st := State(out, None, "");
    BytesUnfold(fs);
    var g := fs[0].digits;
    assert "" + g == g;
    var rest := LeftText(fs, t);
    HexReads(st, g, ":" + rest);
    ColonReads(st.(tok := g), rest);
    if |fs| > 1 {
      LeftRun(out + FieldBytes(fs[0]), fs[1..], t);
      assert out + FieldBytes(fs[0]) + Bytes(fs[1..]) == out + Bytes(fs);
    }
  }

  lemma LeftText(fs: seq<Field>, t: string) returns (rest: string)
    requires fs != [] && fs[0].Hex? && t != ""
    ensures rest != "" && rest == if |fs| == 1 then t else Text(fs[1..]) + ":" + t
    ensures Text(fs) + ":" + t == fs[0].digits + (":" + rest)
  {
    rest := if |fs| == 1 then t else Text(fs[1..]) + ":" + t;
  }

  /** Every well-formed text is accepted, with its bytes. */
  lemma Complete(f: Form)
    requires FormOk(f)
    ensures Parse(FormText(f)) == Some(FormBytes(f))
  {
    hide Bytes, IsHex, Text;
    var st := State([], None, "");
    match f
    case Full(fs) =>
      NoFields();
      TextStarts(fs);
      FieldsRun([], None, fs);
      assert [] + Bytes(fs) == Bytes(fs);
    case Gap(l, r) =>
      var s := FormText(f);
      NoFields();
      assert [] + Bytes(l) == Bytes(l);
      if l == [] {
        assert s == "::" + Text(r) && s[1..] == ":" + Text(r);
      } else {
        TextStarts(l);
        assert s == Text(l) + ":" + (":" + Text(r));
        LeftRun([], l, ":" + Text(r));
      }
      GapReads(Bytes(l), r);
  }

  lemma NoFields()
    ensures Text([]) == "" && Bytes([]) == [] && !IsHex(':')
  {
  }

  /** The second colon, and what follows it. */
  lemma GapReads(out: seq<Byte>, r: seq<Field>)
    requires StateOk(State(out, None, "")) && FieldsOk(r) && |out| + |Bytes(r)| <= 14
    ensures Run(State(out, None, ""), ":" + Text(r)) == Some(out + Zeros(16 - |out| - |Bytes(r)|) + Bytes(r))
  {
    hide Bytes, Text, Zeros, HexVal;
    NoFields();
    var t := ":" + Text(r);
    assert t[0] == ':' && t[1..] == Text(r);
    assert Run(State(out, None, ""), t) == Run(State(out, Some(|out|), ""), Text(r));
    var o := out + Bytes(r);
    if r != [] {
      FieldsRun(out, Some(|out|), r);
    } else {
      assert o == out && Text(r) == "";
    }
    assert Run(State(out, Some(|out|), ""), Text(r)) == Finish(o, Some(|out|));
    assert o[..|out|] == out && o[|out|..] == Bytes(r);
    assert 16 - |o| == 16 - |out| - |Bytes(r)|;
  }

  // ---------------------------------------------------------------- soundness

  /** The number before the first dot. */
  lemma FirstNumber(tok: string, rest: string, q: seq<string>)
    requires Numbers(q) && |q| == 4 && Joined(q, '.') == tok + rest && rest != "" && rest[0] == '.'
    requires forall i :: 0 <= i < |tok| ==> IsHex(tok[i])
    ensures q[0] == tok
  {
    var j := Joined(q, '.');
    assert IsNumber(q[0]);
    assert j == q[0] + ['.'] + Joined(q[1..], '.');
    assert j[|q[0]|] == '.' && j[|tok|] == '.';
    assert forall i :: 0 <= i < |q[0]| ==> j[i] == q[0][i];
    assert forall i :: 0 <= i < |tok| ==> j[i] == tok[i];
    assert !IsHex('.') && !IsDigit('.');
    assert |q[0]| == |tok|;
    assert q[0] == j[..|tok|] == tok;
  }

  lemma DottedSound(tok: string, rest: string) returns (f: Field)
    requires Quad(tok + rest).Some? && rest != "" && rest[0] == '.' && |tok| <= 4
    requires forall i :: 0 <= i < |tok| ==> IsHex(tok[i])
    ensures FieldOk(f) && FieldText(f) == tok + rest && Quad(tok + rest) == Some(FieldBytes(f))
  {
    QuadIff(tok + rest, Quad(tok + rest).value);
    var q: seq<string> :| |q| == 4 && Numbers(q) && Joined(q, '.') == tok + rest && Values(q) == Quad(tok + rest).value;
    FirstNumber(tok, rest, q);
    f := Dotted(q);
  }

  lemma OneField(f: Field)
    requires FieldOk(f)
    ensures FieldsOk([f]) && Text([f]) == FieldText(f) && Bytes([f]) == FieldBytes(f)
  {
    BytesUnfold([f]);
  }

  /** A hex field in front of a non-empty list. */
  lemma MoreFields(g: string, fs: seq<Field>)
    requires FieldOk(Hex(g)) && FieldsOk(fs) && fs != []
    ensures var more := [Hex(g)] + fs;
      FieldsOk(more) && Text(more) == g + ":" + Text(fs) && Bytes(more) == Word(HexVal(g)) + Bytes(fs) &&
          (AllHex(fs) ==> AllHex(more))
  {
    var more := [Hex(g)] + fs;
    assert more[1..] == fs;
    BytesUnfold(more);
  }

  /** What an accepting step means, character by character. */
  lemma Accepts(st: State, rest: string)
    requires StateOk(st) && Run(st, rest).Some?
    ensures rest == "" && st.tok == "" ==> Run(st, rest) == Finish(st.out, st.colon)
    ensures rest == "" && st.tok != "" ==>
        |st.out| + 2 <= 16 && Run(st, rest) == Finish(st.out + Word(HexVal(st.tok)), st.colon)
    ensures rest != "" && IsHex(rest[0]) ==> var h := st.(tok := st.tok + [rest[0]]);
        StateOk(h) && Run(st, rest) == Run(h, rest[1..])
    ensures rest != "" && !IsHex(rest[0]) && rest[0] == ':' && st.tok == "" ==>
      st.colon.None? && Run(st, rest) == Run(st.(colon := Some(|st.out|)), rest[1..])
    ensures rest != "" && !IsHex(rest[0]) && rest[0] == ':' && st.tok != "" ==>
      |rest| > 1 && StateOk(Pushed(st)) && Run(st, rest) == Run(Pushed(st), rest[1..])
    ensures rest != "" && !IsHex(rest[0]) && rest[0] != ':' ==>
      rest[0] == '.' && |st.out| + 4 <= 16 && Quad(st.tok + rest).Some? && |Quad(st.tok + rest).value| == 4
      && Run(st, rest) == Finish(st.out + Quad(st.tok + rest).value, st.colon)
  {
    hide Finish, Quad, HexVal, Word, IsHex;
    QuadIsFour(st.tok + rest);
  }

  lemma FinishedGap(out: seq<Byte>, colon: Option<nat>)
    requires |out| <= 16 && |out| % 2 == 0 && colon.Some? && colon.value <= |out| && Finish(out, colon).Some?
    ensures |out| <= 14
  {
  }

  lemma FinishedFull(out: seq<Byte>)
    requires |out| <= 16 && Finish(out, None).Some?
    ensures |out| == 16 && Finish(out, None) == Some(out)
  {
  }

  /** After the double colon: what is accepted is a list of fields that leaves a gap. */
  lemma {:induction false} TailSound(st: State, rest: string) returns (fs: seq<Field>)
    requires StateOk(st) && st.colon.Some? && Run(st, rest).Some?
    ensures FieldsOk(fs) && Text(fs) == st.tok + rest && |st.out| + |Bytes(fs)| <= 14
    ensures Run(st, rest) == Finish(st.out + Bytes(fs), st.colon)
    decreases |rest|
  {
    hide Bytes, Text, HexVal, IsHex, Quad, FieldBytes, FieldText, FieldsOk, Run, Finish, Word;
    Accepts(st, rest);
    NoFields();
    EmptyOk();
    if rest == "" {
      assert st.tok + rest == st.tok;
      if st.tok == "" {
        fs := [];
        assert st.out + Bytes(fs) == st.out;
      } else {
        fs := [Hex(st.tok)];
        OneField(Hex(st.tok));
        HexField(st.tok);
      }
      FinishedGap(st.out + Bytes(fs), st.colon);
    } else if IsHex(rest[0]) {
      fs := TailSound(st.(tok := st.tok + [rest[0]]), rest[1..]);
      assert st.tok + [rest[0]] + rest[1..] == st.tok + rest;
    } else if rest[0] == ':' {
      var more := TailSound(Pushed(st), rest[1..]);
      fs := TailColon(st, rest, more);
    } else {
      var f := DottedSound(st.tok, rest);
      OneField(f);
      fs := [f];
      FinishedGap(st.out + Bytes(fs), st.colon);
    }
  }

  lemma TailColon(st: State, rest: string, more: seq<Field>) returns (fs: seq<Field>)
    requires StateOk(st) && st.tok != "" && |rest| > 1 && rest[0] == ':' && FieldsOk(more)
        && Text(more) == "" + rest[1..]
    ensures FieldsOk(fs) && Text(fs) == st.tok + rest && st.out + Bytes(fs) == Pushed(st).out + Bytes(more)
  {
    hide Bytes, Text, HexVal, IsHex, FieldsOk, Word;
    assert "" + rest[1..] == rest[1..] && rest == ":" + rest[1..];
    NoFields();
    MoreFields(st.tok, more);
    fs := [Hex(st.tok)] + more;
    assert st.out + Word(HexVal(st.tok)) + Bytes(more) == st.out + (Word(HexVal(st.tok)) + Bytes(more));
    assert st.tok + rest == st.tok + ":" + rest[1..];
  }

  lemma EmptyOk()
    ensures FieldsOk([])
  {
  }

  lemma HexField(g: string)
    requires FieldOk(Hex(g))
    ensures FieldText(Hex(g)) == g && FieldBytes(Hex(g)) == Word(HexVal(g)) && AllHex([Hex(g)])
  {
  }

  /** Before any double colon: a full list of fields, or the rest of a form with a gap. */
  lemma {:induction false} StartSound(st: State, rest: string) returns (f: Form)
    requires StateOk(st) && st.colon.None? && Run(st, rest).Some?
    ensures f.Full? ==> FieldsOk(f.fields) && Text(f.fields) == st.tok + rest && |st.out| + |Bytes(f.fields)| == 16
                        && Run(st, rest) == Some(st.out + Bytes(f.fields))
    ensures f.Gap? ==> FormOk(f) && |st.out| + |Bytes(f.left)| + |Bytes(f.right)| <= 14
                       && st.tok + rest == (if f.left == [] then ":" else Text(f.left) + "::") + Text(f.right)
                       && Run(st, rest) == Some(st.out + Bytes(f.left) +
                           Zeros(16 - |st.out| - |Bytes(f.left)| - |Bytes(f.right)|) + Bytes(f.right))
    decreases |rest|
  {
    hide Bytes, Text, HexVal, IsHex, Quad, FieldBytes, FieldText, FieldsOk, Zeros, Run, Finish, Word;
    Accepts(st, rest);
    NoFields();
    EmptyOk();
    if rest == "" {
      assert st.tok + rest == st.tok;
      if st.tok == "" {
        f := Full([]);
        assert st.out + Bytes([]) == st.out;
      } else {
        f := Full([Hex(st.tok)]);
        OneField(Hex(st.tok));
        HexField(st.tok);
      }
      FinishedFull(st.out + Bytes(f.fields));
    } else if IsHex(rest[0]) {
      f := StartSound(st.(tok := st.tok + [rest[0]]), rest[1..]);
      assert st.tok + [rest[0]] + rest[1..] == st.tok + rest;
    } else if rest[0] == ':' && st.tok == "" {
      var r := TailSound(st.(colon := Some(|st.out|)), rest[1..]);
      f := GapFound(st, rest, r);
    } else if rest[0] == ':' {
      f := StartSound(Pushed(st), rest[1..]);
      assert "" + rest[1..] == rest[1..];
      f := AddField(st.tok, f, rest[1..]);
      assert st.tok + rest == st.tok + ":" + rest[1..];
      assert forall b: seq<Byte> :: st.out + Word(HexVal(st.tok)) + b == st.out + (Word(HexVal(st.tok)) + b);
    } else {
      var d := DottedSound(st.tok, rest);
      OneField(d);
      f := Full([d]);
      FinishedFull(st.out + Bytes(f.fields));
    }
  }

  lemma GapFound(st: State, rest: string, r: seq<Field>) returns (f: Form)
    requires StateOk(st) && st.tok == "" && rest != "" && rest[0] == ':'
    requires FieldsOk(r) && Text(r) == "" + rest[1..] && |st.out| + |Bytes(r)| <= 14
    ensures f == Gap([], r) && FormOk(f) && Bytes([]) == [] && st.tok + rest == ":" + Text(r)
    ensures Finish(st.out + Bytes(r), Some(|st.out|)) ==
        Some(st.out + Bytes([]) + Zeros(16 - |st.out| - |Bytes([])| - |Bytes(r)|) + Bytes(r))
  {
    hide Bytes, Text, FieldsOk, Zeros, IsHex;
    NoFields();
    EmptyOk();
    f := Gap([], r);
    var o := st.out + Bytes(r);
    assert o[..|st.out|] == st.out && o[|st.out|..] == Bytes(r);
    assert st.out + [] == st.out;
  }

  /** A hex field and a colon in front of the rest of a form. */
  lemma AddField(g: string, f: Form, rest: string) returns (h: Form)
    requires FieldOk(Hex(g)) && rest != ""
    requires f.Full? ==> FieldsOk(f.fields) && Text(f.fields) == rest
    requires f.Gap? ==> FormOk(f) && |Bytes(f.left)| + |Bytes(f.right)| <= 12
                        && rest == (if f.left == [] then ":" else Text(f.left) + "::") + Text(f.right)
    ensures f.Full? ==>
        h.Full? && FieldsOk(h.fields) && Text(h.fields) == g + ":" + rest &&
        Bytes(h.fields) == Word(HexVal(g)) + Bytes(f.fields)
    ensures f.Gap? ==>
        h.Gap? && FormOk(h) && h.right == f.right && h.left != [] &&
        g + ":" + rest == Text(h.left) + "::" + Text(h.right) &&
        Bytes(h.left) == Word(HexVal(g)) + Bytes(f.left)
  {
    hide Bytes, Text, HexVal, IsHex, FieldBytes, FieldText, FieldsOk;
    NoFields();
    EmptyOk();
    HexField(g);
    OneField(Hex(g));
    match f
    case Full(fs) =>
      MoreFields(g, fs);
      h := Full([Hex(g)] + fs);
    case Gap(l, r) =>
      if l == [] {
        h := Gap([Hex(g)], r);
        assert Word(HexVal(g)) + Bytes([]) == Word(HexVal(g));
        assert g + ":" + (":" + Text(r)) == g + "::" + Text(r);
      } else {
        MoreFields(g, l);
        h := Gap([Hex(g)] + l, r);
        assert g + ":" + (Text(l) + "::" + Text(r)) == g + ":" + Text(l) + "::" + Text(r);
      }
  }

  /** What is accepted is well-formed. */
  lemma Sound(s: string) returns (f: Form)
    requires Parse(s).Some?
    ensures FormOk(f) && FormText(f) == s && FormBytes(f) == Parse(s).value
  {
    hide Bytes, Text, IsHex, Zeros, Run, FieldsOk, AllHex;
    var st := State([], None, "");
    NoFields();
    EmptyRefused();
    if s != "" && s[0] == ':' {
      assert "" + s[1..] == s[1..] && s == ":" + s[1..];
      f := StartSound(st, s[1..]);
      StartsWith(f, s[1..]);
      assert "::" + Text(f.right) == s;
    } else {
      assert "" + s == s;
      f := StartSound(st, s);
      StartsWith(f, s);
    }
    assert [] + (if f.Full? then Bytes(f.fields) else Bytes(f.left)) ==
        if f.Full? then Bytes(f.fields) else Bytes(f.left);
  }

  lemma EmptyRefused()
    ensures Parse("") == None
  {
  }

  /** Fields begin with a hex digit, so a colon comes first exactly if nothing is in front. */
  lemma StartsWith(f: Form, s: string)
    requires s != ""
    requires f.Full? ==> FieldsOk(f.fields) && Text(f.fields) == s
    requires f.Gap? ==> FormOk(f) && s == (if f.left == [] then ":" else Text(f.left) + "::") + Text(f.right)
    ensures s[0] == ':' <==> f.Gap? && f.left == []
  {
    NoFields();
    match f
    case Full(fs) => if fs != [] { TextStarts(fs); }
    case Gap(l, r) => if l != [] { TextStarts(l); }
  }

  /** Exactly the well-formed texts are accepted, each with its bytes: the fields on the left, zeros
      for the gap, the fields on the right. */
  lemma ParseIff(s: string, b: seq<Byte>)
    ensures Parse(s) == Some(b) <==> exists f :: FormOk(f) && FormText(f) == s && FormBytes(f) == b
  {
    hide Run, FormOk, FormText, FormBytes;
    if Parse(s) == Some(b) {
      var f := Sound(s);
    }
    if f :| FormOk(f) && FormText(f) == s && FormBytes(f) == b {
      Complete(f);
    }
  }
}
