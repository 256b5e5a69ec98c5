/** Locating the embedded event in an indexing diagnostic: RejectionEvidence.ObjectEnd and EventJson of
    deploy/agents/discovery-native.cs.

    The scanner knows only quotes, escapes and brackets.  JSON texts are given by their derivations
    under sections 2 to 7 of RFC 8259, whitespace included; the scanner is shown to stop exactly at the
    closing brace of every one of them. */
module Diagnostic {
  import opened Wrappers

  datatype Error = UnsupportedDiagnostic | PartialDiagnostic | DiagnosticSuffix | InvalidMeta
  datatype Result<+T> = Ok(value: T) | Err(error: Error)

  // ----- The scanner -----

  datatype Scan = Scan(quoted: bool, escaped: bool, depth: int)

  predicate Stops(s: Scan, c: char) {
    !s.escaped && !s.quoted && (c == '}' || c == ']') && s.depth == 1
  }

  function Read(s: Scan, c: char): Scan {
    if s.escaped then s.(escaped := false)
    else if s.quoted && c == '\\' then s.(escaped := true)
    else if c == '"' then s.(quoted := !s.quoted)
    else if s.quoted then s
    else if c == '{' || c == '[' then s.(depth := s.depth + 1)
    else if c == '}' || c == ']' then s.(depth := s.depth - 1)
    else s
  }

  /** The state after reading a text, or None when the scanner stops inside it. */
  function Walk(s: Scan, text: string): Option<Scan>
    decreases |text|
  {
    if text == "" then Some(s)
    else if Stops(s, text[0]) then None
    else Walk(Read(s, text[0]), text[1..])
  }

  /** The offset at which the scanner stops. */
  function StopAt(s: Scan, text: string): (n: Option<nat>)
    ensures n.Some? ==> n.value < |text|
    decreases |text|
  {
    if text == "" then None
    else if Stops(s, text[0]) then Some(0)
    else
      var rest := StopAt(Read(s, text[0]), text[1..]);
      if rest.None? then None else Some(rest.value + 1)
  }

  const START := Scan(false, false, 0)

  function EndOfObject(message: string, start: int): (r: Result<nat>)
    ensures r.Ok? ==> 0 <= start < r.value < |message|
  {
    if start < 0 || start >= |message| || message[start] != '{' then Err(UnsupportedDiagnostic)
    else
      var n := StopAt(START, message[start..]);
      if n.None? then Err(PartialDiagnostic)
      else
        assert n.value != 0;
        Ok(start + n.value)
  }

  method ObjectEnd(message: string, start: int) returns (r: Result<nat>)
    ensures r == EndOfObject(message, start)
  {
    if start < 0 || start >= |message| || message[start] != '{' { return Err(UnsupportedDiagnostic); }
    var quoted, escaped, depth := false, false, 0;
    ghost var goal := StopAt(START, message[start..]);
    for n := start to |message|
      invariant depth >= 0 && (n == start ==> depth == 0 && !quoted && !escaped) && (n > start ==> depth >= 1)
      invariant var here := StopAt(Scan(quoted, escaped, depth), message[n..]);
                goal == if here.None? then None else Some(here.value + (n - start))
    {
      var c := message[n];
      assert message[n..][0] == c && message[n..][1..] == message[n + 1..];
      if escaped { escaped := false; continue; }
      if quoted && c == '\\' { escaped := true; continue; }
      if c == '"' { quoted := !quoted; continue; }
      if quoted { continue; }
      if c == '{' || c == '[' { depth := depth + 1; }
      if c == '}' || c == ']' {
        depth := depth - 1;
        if depth == 0 { return Ok(n); }
      }
    }
    return Err(PartialDiagnostic);
  }

  // ----- JSON texts (RFC 8259) -----

  datatype Unit = Plain(c: char) | Escape(c: char) | Hex4(a: char, b: char, c: char, d: char)

  datatype Json =
    | Literal(name: string)
    | Number(minus: bool, whole: string, frac: string, exp: string)
    | Text(units: seq<Unit>)
    | Array(blank: string, elems: Elems)
    | Object(blank: string, members: Members)

  datatype Elems = NoElem | Elem(before: string, value: Json, after: string, rest: Elems)

  datatype Members =
    | NoMember
    | Member(before: string, name: seq<Unit>, afterName: string, beforeValue: string, value: Json, after: string,
             rest: Members)

  predicate Blank(s: string) {
    forall i :: 0 <= i < |s| ==> s[i] in {' ', '\t', '\n', '\r'}
  }

  predicate Digits(s: string) {
    forall i :: 0 <= i < |s| ==> '0' <= s[i] <= '9'
  }

  predicate HexDigit(c: char) {
    '0' <= c <= '9' || 'a' <= c <= 'f' || 'A' <= c <= 'F'
  }

  /** Section 7: unescaped characters, two-character escapes, and four-digit escapes. */
  predicate UnitOk(u: Unit) {
    match u
    case Plain(c) => ' ' <= c && c != '"' && c != '\\'
    case Escape(c) => c in {'"', '\\', '/', 'b', 'f', 'n', 'r', 't'}
    case Hex4(a, b, c, d) => HexDigit(a) && HexDigit(b) && HexDigit(c) && HexDigit(d)
  }

  predicate UnitsOk(us: seq<Unit>) {
    forall i :: 0 <= i < |us| ==> UnitOk(us[i])
  }

  /** Section 6: the fraction and exponent, when present, with their marks. */
  predicate FracOk(s: string) {
    s == "" || (|s| > 1 && s[0] == '.' && Digits(s[1..]))
  }

  predicate ExpOk(s: string) {
    s == "" || (|s| > 1 && s[0] in {'e', 'E'} &&
                if s[1] in {'+', '-'} then |s| > 2 && Digits(s[2..]) else Digits(s[1..]))
  }

  predicate ValueOk(j: Json) {
    match j
    case Literal(name) => name in {"true", "false", "null"}
    case Number(_, n, frac, exp) => n != "" && Digits(n) && (n[0] == '0' ==> |n| == 1) && FracOk(frac) && ExpOk(exp)
    case Text(us) => UnitsOk(us)
    case Array(blank, es) => Blank(blank) && ElemsOk(es)
    case Object(blank, ms) => Blank(blank) && MembersOk(ms)
  }

  predicate ElemsOk(es: Elems) {
    match es
    case NoElem => true
    case Elem(b, v, a, rest) => Blank(b) && ValueOk(v) && Blank(a) && ElemsOk(rest)
  }

  predicate MembersOk(ms: Members) {
    match ms
    case NoMember => true
    case Member(b, n, an, bv, v, a, rest) =>
      Blank(b) && UnitsOk(n) && Blank(an) && Blank(bv) && ValueOk(v) && Blank(a) && MembersOk(rest)
  }

  function ShowUnits(us: seq<Unit>): string {
    if us == [] then ""
    else (match us[0]
          case Plain(c) => [c]
          case Escape(c) => ['\\', c]
          case Hex4(a, b, c, d) => ['\\', 'u', a, b, c, d]) + ShowUnits(us[1..])
  }

  function Quote(us: seq<Unit>): string {
    "\"" + (ShowUnits(us) + "\"")
  }

  function Show(j: Json): string {
    match j
    case Literal(name) => name
    case Number(minus, n, frac, exp) => (if minus then "-" else "") + (n + (frac + exp))
    case Text(us) => Quote(us)
    case Array(blank, es) => "[" + ((if es.NoElem? then blank else ShowElems(es)) + "]")
    case Object(blank, ms) => "{" + ((if ms.NoMember? then blank else ShowMembers(ms)) + "}")
  }

  function ShowElems(es: Elems): string {
    match es
    case NoElem => ""
    case Elem(b, v, a, rest) =>
      b + (Show(v) + (a + (if rest.NoElem? then "" else "," + ShowElems(rest))))
  }

  function ShowMembers(ms: Members): string {
    match ms
    case NoMember => ""
    case Member(b, n, an, bv, v, a, rest) =>
      b + (Quote(n) + (an + (":" + (bv + (Show(v) + (a + (if rest.NoMember? then "" else "," + ShowMembers(rest))))))))
  }

  // ----- The scanner over JSON texts -----

  lemma {:induction false} WalkAppend(s: Scan, a: string, b: string)
    ensures Walk(s, a + b) == var m := Walk(s, a); if m.None? then None else Walk(m.value, b)
    decreases |a|
  {
    if a == "" {
      assert a + b == b;
    } else {
      assert (a + b)[0] == a[0] && (a + b)[1..] == a[1..] + b;
      if !Stops(s, a[0]) { WalkAppend(Read(s, a[0]), a[1..], b); }
    }
  }

  lemma {:induction false} StopAfter(s: Scan, a: string, b: string)
    requires Walk(s, a).Some?
    ensures StopAt(s, a + b) == var n := StopAt(Walk(s, a).value, b); if n.None? then None else Some(n.value + |a|)
    decreases |a|
  {
    if a == "" {
      assert a + b == b;
    } else {
      assert (a + b)[0] == a[0] && (a + b)[1..] == a[1..] + b;
      StopAfter(Read(s, a[0]), a[1..], b);
    }
  }

  predicate Quiet(text: string) {
    forall i :: 0 <= i < |text| ==> text[i] !in {'"', '{', '}', '[', ']'}
  }

  function At(depth: int): Scan { Scan(false, false, depth) }

  /** Reading the text at this depth leaves the scanner where it was. */
  predicate Neutral(depth: int, text: string) {
    Walk(At(depth), text) == Some(At(depth))
  }

  lemma {:induction false} QuietNeutral(depth: int, text: string)
    requires Quiet(text)
    ensures Neutral(depth, text)
  {
    if text != "" { QuietNeutral(depth, text[1..]); }
  }

  lemma NeutralAppend(depth: int, a: string, b: string)
    requires Neutral(depth, a) && Neutral(depth, b)
    ensures Neutral(depth, a + b)
  {
    WalkAppend(At(depth), a, b);
  }

  lemma {:induction false} UnitsInside(depth: int, us: seq<Unit>)
    requires UnitsOk(us)
    ensures Walk(Scan(true, false, depth), ShowUnits(us)) == Some(Scan(true, false, depth))
  {
    if us != [] {
      UnitsInside(depth, us[1..]);
      var s := Scan(true, false, depth);
      match us[0] {
        case Plain(c) =>
          assert Walk(s, [c]) == Walk(s, [c][1..]);
          WalkAppend(s, [c], ShowUnits(us[1..]));
        case Escape(c) =>
          EscapeInside(s, c);
          WalkAppend(s, ['\\', c], ShowUnits(us[1..]));
        case Hex4(a, b, c, d) =>
          var text := ['\\', 'u', a, b, c, d];
          EscapeInside(s, 'u');
          PlainInside(s, [a, b, c, d]);
          assert text == ['\\', 'u'] + [a, b, c, d];
          WalkAppend(s, ['\\', 'u'], [a, b, c, d]);
          WalkAppend(s, text, ShowUnits(us[1..]));
      }
    }
  }

  lemma EscapeInside(s: Scan, c: char)
    requires s.quoted && !s.escaped
    ensures Walk(s, ['\\', c]) == Some(s)
  {
    assert ['\\', c][1..] == [c] && [c][1..] == "";
    assert Walk(s.(escaped := true), [c]) == Walk(s, [c][1..]);
  }

  lemma {:induction false} PlainInside(s: Scan, text: string)
    requires s.quoted && !s.escaped && forall i :: 0 <= i < |text| ==> text[i] != '"' && text[i] != '\\'
    ensures Walk(s, text) == Some(s)
  {
    if text != "" { PlainInside(s, text[1..]); }
  }

  lemma QuoteNeutral(depth: int, us: seq<Unit>)
    requires UnitsOk(us)
    ensures Neutral(depth, Quote(us))
  {
    UnitsInside(depth, us);
    var inside := Scan(true, false, depth);
    assert "\""[1..] == "";
    assert Walk(At(depth), "\"") == Walk(inside, "\""[1..]);
    assert Walk(inside, "\"") == Walk(At(depth), "\""[1..]);
    WalkAppend(inside, ShowUnits(us), "\"");
    WalkAppend(At(depth), "\"", ShowUnits(us) + "\"");
  }

  lemma BracketNeutral(depth: int, open: char, body: string, close: char)
    requires depth >= 1 && open in {'{', '['} && close in {'}', ']'} && Neutral(depth + 1, body)
    ensures Neutral(depth, [open] + (body + [close]))
  {
    assert [open][1..] == "" && [close][1..] == "";
    assert Walk(At(depth), [open]) == Walk(At(depth + 1), [open][1..]);
    assert Walk(At(depth + 1), [close]) == Walk(At(depth), [close][1..]);
    WalkAppend(At(depth + 1), body, [close]);
    WalkAppend(At(depth), [open], body + [close]);
  }

  lemma NumberQuiet(j: Json)
    requires j.Number? && ValueOk(j)
    ensures Quiet(Show(j))
  {
    forall i | 0 <= i < |j.frac| ensures j.frac[i] !in {'"', '{', '}', '[', ']'} {
      assert i > 0 ==> j.frac[i] == j.frac[1..][i - 1];
    }
    forall i | 0 <= i < |j.exp| ensures j.exp[i] !in {'"', '{', '}', '[', ']'} {
      assert i > 0 ==> j.exp[i] == j.exp[1..][i - 1];
      assert i > 1 ==> j.exp[i] == j.exp[2..][i - 2];
    }
  }

  /** Every JSON value is neutral at every depth inside an object. */
  lemma {:induction false} ValueNeutral(depth: int, j: Json)
    requires ValueOk(j) && depth >= 1
    ensures Neutral(depth, Show(j))
    decreases j, 0
  {
    match j
    case Literal(_) => QuietNeutral(depth, Show(j));
    case Number(_, _, _, _) =>
      NumberQuiet(j);
      QuietNeutral(depth, Show(j));
    case Text(us) => QuoteNeutral(depth, us);
    case Array(blank, es) => ArrayNeutral(depth, blank, es);
    case Object(blank, ms) =>
      BodyNeutral(depth + 1, blank, ms);
      BracketNeutral(depth, '{', if ms.NoMember? then blank else ShowMembers(ms), '}');
  }

  lemma {:induction false} ArrayNeutral(depth: int, blank: string, es: Elems)
    requires Blank(blank) && ElemsOk(es) && depth >= 1
    ensures Neutral(depth, Show(Array(blank, es)))
    decreases es, 1
  {
    QuietNeutral(depth + 1, blank);
    ElemsNeutral(depth + 1, es);
    BracketNeutral(depth, '[', if es.NoElem? then blank else ShowElems(es), ']');
  }

  lemma {:induction false} BodyNeutral(depth: int, blank: string, ms: Members)
    requires Blank(blank) && MembersOk(ms) && depth >= 1
    ensures Neutral(depth, if ms.NoMember? then blank else ShowMembers(ms))
    decreases ms, 1
  {
    QuietNeutral(depth, blank);
    MembersNeutral(depth, ms);
  }

  lemma {:induction false} ElemsNeutral(depth: int, es: Elems)
    requires ElemsOk(es) && depth >= 1
    ensures Neutral(depth, ShowElems(es))
    decreases es, 0
  {
    if es.Elem? {
      var Elem(b, v, a, rest) := es;
      ElemsNeutral(depth, rest);
      CommaNeutral(depth, ShowElems(rest));
      var tail := if rest.NoElem? then "" else "," + ShowElems(rest);
      ValueNeutral(depth, v);
      QuietNeutral(depth, b);
      QuietNeutral(depth, a);
      NeutralAppend(depth, a, tail);
      NeutralAppend(depth, Show(v), a + tail);
      NeutralAppend(depth, b, Show(v) + (a + tail));
    }
  }

  lemma CommaNeutral(depth: int, rest: string)
    requires Neutral(depth, rest)
    ensures Neutral(depth, "," + rest) && Neutral(depth, "")
  {
    QuietNeutral(depth, ",");
    NeutralAppend(depth, ",", rest);
  }

  lemma {:induction false} MembersNeutral(depth: int, ms: Members)
    requires MembersOk(ms) && depth >= 1
    ensures Neutral(depth, ShowMembers(ms))
    decreases ms, 0
  {
    if ms.Member? {
      var Member(b, n, an, bv, v, a, rest) := ms;
      MembersNeutral(depth, rest);
      CommaNeutral(depth, ShowMembers(rest));
      var tail := if rest.NoMember? then "" else "," + ShowMembers(rest);
      ValueNeutral(depth, v);
      QuoteNeutral(depth, n);
      QuietNeutral(depth, b);
      QuietNeutral(depth, an);
      QuietNeutral(depth, ":");
      QuietNeutral(depth, bv);
      QuietNeutral(depth, a);
      NeutralAppend(depth, a, tail);
      NeutralAppend(depth, Show(v), a + tail);
      NeutralAppend(depth, bv, Show(v) + (a + tail));
      NeutralAppend(depth, ":", bv + (Show(v) + (a + tail)));
      NeutralAppend(depth, an, ":" + (bv + (Show(v) + (a + tail))));
      NeutralAppend(depth, Quote(n), an + (":" + (bv + (Show(v) + (a + tail)))));
      NeutralAppend(depth, b, Quote(n) + (an + (":" + (bv + (Show(v) + (a + tail))))));
    }
  }

  /** The scanner stops exactly at the closing brace of any JSON object, whatever precedes or follows. */
  lemma ObjectEndExact(prefix: string, j: Json, suffix: string)
    requires j.Object? && ValueOk(j)
    ensures EndOfObject(prefix + (Show(j) + suffix), |prefix|) == Ok(|prefix| + |Show(j)| - 1)
  {
    var body := if j.members.NoMember? then j.blank else ShowMembers(j.members);
    BodyNeutral(1, j.blank, j.members);
    Closing(body, suffix);
    BraceText(body, suffix);
    StopsAt(prefix, Show(j) + suffix, 1 + |body|);
  }

  lemma BraceText(body: string, suffix: string)
    ensures ("{" + (body + "}")) + suffix == "{" + (body + ("}" + suffix))
  {
  }

  /** A stop in a text that starts with a brace is the end of the object there. */
  lemma StopsAt(prefix: string, text: string, n: nat)
    requires text != "" && text[0] == '{' && n > 0 && StopAt(START, text) == Some(n)
    ensures EndOfObject(prefix + text, |prefix|) == Ok(|prefix| + n)
  {
    assert (prefix + text)[|prefix|..] == text && (prefix + text)[|prefix|] == '{';
  }

  lemma Closing(body: string, suffix: string)
    requires Neutral(1, body)
    ensures StopAt(START, "{" + (body + ("}" + suffix))) == Some(1 + |body|)
  {
    var close := "}" + suffix;
    assert "{"[1..] == "";
    assert Walk(START, "{") == Walk(At(1), "{"[1..]);
    StopAfter(At(1), body, close);
    StopAfter(START, "{", body + close);
    assert StopAt(At(1), close) == Some(0);
  }

  // ----- The diagnostic's framing -----

  const MARKER := "Cannot index event '"
  const META_NONE := ", Meta: none"
  const META_OBJECT := ", Meta: {"
  const SUFFIX := "' (status=400):"

  function TrimLines(s: string): (r: string) {
    if s != "" && s[0] in {'\r', '\n'} then TrimLines(s[1..]) else s
  }

  /** What must follow the event; `parses` stands for the JSON library accepting the Meta text. */
  function AfterEvent(tail: string, parses: string -> bool): Result<string> {
    if META_NONE <= tail then Ok(tail[|META_NONE|..])
    else if META_OBJECT <= tail then
      var end := EndOfObject(tail, 8);
      if end.Err? then Err(end.error)
      else if !parses(tail[8..end.value + 1]) then Err(InvalidMeta)
      else Ok(TrimLines(tail[end.value + 1..]))
    else Ok(tail)
  }

  function EventJson(message: string, parses: string -> bool): Result<string> {
    EventAfter(MARKER, message, tail => AfterEvent(TrimLines(tail), parses))
  }

  /** The object right after the marker, when `follow` accepts what comes after it. */
  function EventAfter(marker: string, message: string, follow: string -> Result<string>): Result<string> {
    if !(marker <= message) then Err(UnsupportedDiagnostic)
    else
      var end := EndOfObject(message, |marker|);
      if end.Err? then Err(end.error)
      else
        var rest := follow(message[end.value + 1..]);
        if rest.Err? then Err(rest.error)
        else if !(SUFFIX <= rest.value) then Err(DiagnosticSuffix)
        else Ok(message[|marker|..end.value + 1])
  }

  predicate Lines(s: string) {
    forall i :: 0 <= i < |s| ==> s[i] in {'\r', '\n'}
  }

  lemma {:induction false} TrimExact(lines: string, rest: string)
    requires Lines(lines) && rest != "" && rest[0] !in {'\r', '\n'}
    ensures TrimLines(lines + rest) == rest
  {
    if lines == "" {
      assert lines + rest == rest;
    } else {
      assert (lines + rest)[1..] == lines[1..] + rest;
      TrimExact(lines[1..], rest);
    }
  }

  datatype Meta = NoMeta | MetaNone | MetaObject(content: Json, lines: string)

  predicate MetaOk(m: Meta) {
    m.MetaObject? ==> m.content.Object? && ValueOk(m.content) && Lines(m.lines)
  }

  function ShowMeta(m: Meta): string {
    match m
    case NoMeta => ""
    case MetaNone => META_NONE
    case MetaObject(j, lines) => META_HEAD + (Show(j) + lines)
  }

  lemma Pieces(a: string, b: string, c: string)
    ensures var m := a + (b + c); a <= m && m[|a|..|a| + |b|] == b && m[|a| + |b|..] == c
  {
  }

  /** In all three accepted framings the embedded event is returned exactly, whatever follows. */
  lemma EventJsonExact(event: Json, lines: string, meta: Meta, rest: string, parses: string -> bool)
    requires event.Object? && ValueOk(event) && Lines(lines) && MetaOk(meta)
    requires meta.MetaObject? ==> parses(Show(meta.content))
    ensures EventJson(MARKER + (Show(event) + (lines + (ShowMeta(meta) + (SUFFIX + rest)))), parses) == Ok(Show(event))
  {
    var after := SUFFIX + rest;
    assert SUFFIX <= after && after[0] == '\'';
    var tail := ShowMeta(meta) + after;
    MetaStart(meta, after);
    TrimExact(lines, tail);
    AfterEventExact(meta, after, parses);
    EventBetween(MARKER, event, lines + tail, after, t => AfterEvent(TrimLines(t), parses));
  }

  lemma EventBetween(marker: string, event: Json, tail: string, after: string, follow: string -> Result<string>)
    requires event.Object? && ValueOk(event)
    requires follow(tail) == Ok(after) && SUFFIX <= after
    ensures EventAfter(marker, marker + (Show(event) + tail), follow) == Ok(Show(event))
  {
    ObjectEndExact(marker, event, tail);
    Pieces(marker, Show(event), tail);
  }

  lemma MetaStart(meta: Meta, after: string)
    requires after != "" && after[0] == '\''
    ensures var tail := ShowMeta(meta) + after; tail != "" && tail[0] in {',', '\''}
  {
    match meta
    case NoMeta => assert ShowMeta(meta) + after == after;
    case MetaNone =>
    case MetaObject(_, _) =>
  }

  lemma AfterEventExact(meta: Meta, after: string, parses: string -> bool)
    requires MetaOk(meta) && (meta.MetaObject? ==> parses(Show(meta.content)))
    requires after != "" && after[0] == '\''
    ensures AfterEvent(ShowMeta(meta) + after, parses) == Ok(after)
  {
    match meta {
      case NoMeta =>
        assert ShowMeta(meta) + after == after;
        assert META_NONE[0] == ',' && META_OBJECT[0] == ',';
      case MetaNone =>
        assert (META_NONE + after)[|META_NONE|..] == after;
      case MetaObject(j, lines) =>
        TrimExact(lines, after);
        MetaAssoc(j, lines, after);
        AfterMetaObject(j, lines + after, parses);
    }
  }

  lemma MetaAssoc(j: Json, lines: string, after: string)
    ensures (META_HEAD + (Show(j) + lines)) + after == META_HEAD + (Show(j) + (lines + after))
  {
    Associate(META_HEAD, Show(j), lines, after);
  }

  lemma Associate(a: string, b: string, c: string, d: string)
    ensures (a + (b + c)) + d == a + (b + (c + d))
  {
  }

  const META_HEAD := ", Meta: "

  lemma AfterMetaObject(j: Json, after: string, parses: string -> bool)
    requires j.Object? && ValueOk(j) && parses(Show(j))
    ensures AfterEvent(META_HEAD + (Show(j) + after), parses) == Ok(TrimLines(after))
  {
    ObjectEndExact(META_HEAD, j, after);
    MetaOpens(Show(j), after);
    Pieces(META_HEAD, Show(j), after);
    MetaPassed(META_HEAD + (Show(j) + after), Show(j), after, parses);
  }

  lemma MetaPassed(tail: string, content: string, after: string, parses: string -> bool)
    requires META_OBJECT <= tail && !(META_NONE <= tail) && parses(content)
    requires EndOfObject(tail, 8) == Ok(8 + |content| - 1) && tail[8..8 + |content|] == content && tail[8 + |content|..] == after
    ensures AfterEvent(tail, parses) == Ok(TrimLines(after))
  {
  }

  lemma MetaOpens(content: string, after: string)
    requires content != "" && content[0] == '{'
    ensures var tail := META_HEAD + (content + after); META_OBJECT <= tail && !(META_NONE <= tail)
  {
    var tail := META_HEAD + (content + after);
    assert tail[8] == '{';
    assert tail[..9] == META_HEAD + "{";
    assert META_NONE[8] == 'n';
  }

  /** A returned event is the balanced text right after the marker: it starts with its opening brace
      and the scanner's only stop in it is its last character. */
  lemma EventJsonSound(message: string, parses: string -> bool)
    ensures var r := EventJson(message, parses);
            r.Ok? ==> MARKER + r.value <= message && EndOfObject(r.value, 0) == Ok(|r.value| - 1)
  {
    if EventJson(message, parses).Ok? {
      EventAfterSound(MARKER, message, tail => AfterEvent(TrimLines(tail), parses));
    }
  }

  lemma EventAfterSound(marker: string, message: string, follow: string -> Result<string>)
    requires EventAfter(marker, message, follow).Ok?
    ensures var e := EventAfter(marker, message, follow).value;
            marker + e <= message && EndOfObject(e, 0) == Ok(|e| - 1)
  {
    var end := EndOfObject(message, |marker|).value;
    var e := message[|marker|..end + 1];
    StopPrefix(START, message[|marker|..], end - |marker|);
    assert message[|marker|..][..end - |marker| + 1] == e;
    assert e[0..] == e;
  }

  lemma {:induction false} StopPrefix(s: Scan, text: string, n: nat)
    requires StopAt(s, text) == Some(n)
    ensures StopAt(s, text[..n + 1]) == Some(n)
    decreases n
  {
    if !Stops(s, text[0]) {
      StopPrefix(Read(s, text[0]), text[1..], n - 1);
      assert text[..n + 1][1..] == text[1..][..n];
    }
  }
}
