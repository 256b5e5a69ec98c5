/** The collection policy of deploy/agents/policy.py on Linux: lexical validation (with the POSIX path
    normalisation of Python's PurePosixPath), and its text form. */
module PolicyText {
  import opened Wrappers

  const MAX_PATH := 500
  const MAX_PATHS := 100
  const MAX_VERSION := 999999999
  const MAX_FILE := 131072

  datatype Policy = Policy(roots: seq<string>, exclusions: seq<string>)

  // ----- Paths -----

  /** An absolute path: exactly two leading slashes are kept apart from one or from many. */
  datatype Path = Path(double: bool, names: seq<string>)

  predicate Allowed(c: char) {
    'a' <= c <= 'z' || 'A' <= c <= 'Z' || '0' <= c <= '9' || c in {'-', '_', '.', '/'}
  }

  predicate AllAllowed(s: string) {
    forall i :: 0 <= i < |s| ==> Allowed(s[i])
  }

  predicate NoSlash(s: string) {
    forall i :: 0 <= i < |s| ==> s[i] != '/'
  }

  function FirstSlash(s: string): (n: nat)
    ensures n <= |s| && NoSlash(s[..n]) && (n < |s| ==> s[n] == '/')
  {
    if s == "" || s[0] == '/' then 0 else 1 + FirstSlash(s[1..])
  }

  function Kept(name: string): seq<string> {
    if name == "" || name == "." then [] else [name]
  }

  /** The names between slashes, empty ones and dots dropped. */
  function Names(s: string): seq<string>
    decreases |s|
  {
    var n := FirstSlash(s);
    if n == |s| then Kept(s) else Kept(s[..n]) + Names(s[n + 1..])
  }

  function LeadingSlashes(s: string): nat {
    if s == "" || s[0] != '/' then 0 else 1 + LeadingSlashes(s[1..])
  }

  function Parse(s: string): Path {
    Path(LeadingSlashes(s) == 2, Names(s))
  }

  function Join(names: seq<string>): string {
    if names == [] then "" else if |names| == 1 then names[0] else names[0] + ("/" + Join(names[1..]))
  }

  function ShowPath(p: Path): string {
    (if p.double then "//" else "/") + Join(p.names)
  }

  /** The forbidden directories, name by name: /etc, ..., /opt/cloud-soc-agent, /opt/cloud-soc-network. */
  const TOPS := [["etc"], ["proc"], ["sys"], ["dev"], ["run"], ["home"], ["root"],
                 ["opt", "cloud-soc-agent"], ["opt", "cloud-soc-network"]]

  predicate Within(path: string, top: string) {
    path == top || top + "/" <= path
  }

  predicate WithinAny(path: string, tops: seq<seq<string>>) {
    exists i :: 0 <= i < |tops| && Within(path, "/" + Join(tops[i]))
  }

  /** The canonical form of an approved path, or None when validation refuses it. */
  function Canonical(value: string): Option<string> {
    var p := Parse(value);
    var shown := ShowPath(p);
    if |value| < 2 || |value| > MAX_PATH || value[0] != '/' || !AllAllowed(value) then None
    else if ".." in p.names || |p.names| < 2 then None
    else if WithinAny(shown, TOPS) then None
    else Some(shown)
  }

  function CanonicalAll(values: seq<string>): (r: Option<seq<string>>)
    ensures r.Some? ==> |r.value| == |values|
  {
    if values == [] then Some([])
    else
      var init := CanonicalAll(values[..|values| - 1]);
      var last := Canonical(values[|values| - 1]);
      if init.None? || last.None? || last.value in init.value then None
      else Some(init.value + [last.value])
  }

  predicate RelativeTo(path: Path, top: Path) {
    path.double == top.double && top.names <= path.names
  }

  predicate Covered(p: Policy) {
    forall i :: 0 <= i < |p.exclusions| ==>
                  exists j :: 0 <= j < |p.roots| && RelativeTo(Parse(p.exclusions[i]), Parse(p.roots[j]))
  }

  function Validate(p: Policy): Option<Policy> {
    if p.roots == [] || |p.roots| > MAX_PATHS || |p.exclusions| > MAX_PATHS then None
    else
      var roots, exclusions := CanonicalAll(p.roots), CanonicalAll(p.exclusions);
      if roots.None? || exclusions.None? then None
      else
        var q := Policy(roots.value, exclusions.value);
        if Covered(q) then Some(q) else None
  }

  method NormalizeAll(values: seq<string>) returns (r: Option<seq<string>>)
    ensures r == CanonicalAll(values)
  {
    var result: seq<string> := [];
    for i := 0 to |values|
      invariant CanonicalAll(values[..i]) == Some(result)
    {
      assert values[..i + 1][..i] == values[..i];
      var canonical := Canonical(values[i]);
      if canonical.None? || canonical.value in result {
        NoneStays(values, i + 1);
        return None;
      }
      result := result + [canonical.value];
    }
    assert values[..|values|] == values;
    return Some(result);
  }

  lemma {:induction false} NoneStays(values: seq<string>, n: nat)
    requires n <= |values| && CanonicalAll(values[..n]) == None
    ensures CanonicalAll(values) == None
    decreases |values|
  {
    if n == |values| {
      assert values[..n] == values;
    } else {
      assert values[..|values| - 1][..n] == values[..n];
      NoneStays(values[..|values| - 1], n);
    }
  }

  // ----- Canonical paths are fixed points -----

  predicate GoodName(name: string) {
    name != "" && name != "." && name != ".." && NoSlash(name) && AllAllowed(name)
  }

  predicate GoodNames(names: seq<string>) {
    forall i :: 0 <= i < |names| ==> GoodName(names[i])
  }

  lemma {:induction false} FirstSlashOf(name: string, rest: string)
    requires NoSlash(name)
    ensures FirstSlash(name + ("/" + rest)) == FirstSlash(name) == |name|
  {
    if name == "" {
      assert "" + ("/" + rest) == "/" + rest;
    } else {
      assert (name + ("/" + rest))[1..] == name[1..] + ("/" + rest);
      FirstSlashOf(name[1..], rest);
    }
  }

  lemma NamesStep(name: string, rest: string)
    requires NoSlash(name)
    ensures Names(name + ("/" + rest)) == Kept(name) + Names(rest) && Names(name) == Kept(name)
  {
    FirstSlashOf(name, rest);
    AroundSlash(name, rest);
    SplitNames(name + ("/" + rest), |name|);
  }

  lemma AroundSlash(name: string, rest: string)
    ensures var s := name + ("/" + rest); s[..|name|] == name && s[|name| + 1..] == rest
  {
  }

  lemma {:induction false} SplitNames(s: string, n: nat)
    requires FirstSlash(s) == n < |s|
    ensures Names(s) == Kept(s[..n]) + Names(s[n + 1..])
  {
  }

  lemma {:induction false} NamesOfJoin(names: seq<string>)
    requires GoodNames(names)
    ensures Names(Join(names)) == names
  {
    if |names| == 1 {
      NamesStep(names[0], "");
    } else if |names| > 1 {
      NamesOfJoin(names[1..]);
      NamesStep(names[0], Join(names[1..]));
      assert names == [names[0]] + names[1..];
    } else {
      assert FirstSlash("") == 0;
    }
  }

  /** The names of an allowed text are good, unless one is two dots, and no longer than it. */
  predicate GoodFor(names: seq<string>, length: nat) {
    (".." !in names ==> GoodNames(names)) && |Join(names)| <= length
  }

  lemma {:induction false} NamesGood(s: string)
    requires AllAllowed(s)
    ensures GoodFor(Names(s), |s|)
    decreases |s|
  {
    var n := FirstSlash(s);
    if n == |s| {
      assert s[..n] == s;
      GoodMore(s, [], 0);
      assert Kept(s) + [] == Kept(s);
    } else {
      NamesGood(s[n + 1..]);
      GoodMore(s[..n], Names(s[n + 1..]), |s| - n - 1);
    }
  }

  lemma GoodMore(name: string, rest: seq<string>, length: nat)
    requires AllAllowed(name) && NoSlash(name) && GoodFor(rest, length)
    ensures GoodFor(Kept(name) + rest, |name| + length + if rest == [] then 0 else 1)
  {
    if Kept(name) == [] {
      assert Kept(name) + rest == rest;
    } else {
      assert ([name] + rest)[1..] == rest && ([name] + rest)[0] == name;
      assert ".." !in [name] + rest ==> ".." !in rest;
    }
  }

  lemma {:induction false} JoinShape(names: seq<string>)
    requires GoodNames(names) && names != []
    ensures Join(names) != "" && Join(names)[0] != '/' && AllAllowed(Join(names))
  {
    if |names| > 1 { JoinShape(names[1..]); }
  }

  lemma NamesOfSlash(rest: string)
    ensures Names("/" + rest) == Names(rest)
  {
    NamesStep("", rest);
    assert "" + ("/" + rest) == "/" + rest;
  }

  lemma ParseOfShow(p: Path)
    requires GoodNames(p.names) && p.names != []
    ensures Parse(ShowPath(p)) == p
  {
    JoinShape(p.names);
    NamesOfJoin(p.names);
    var j := Join(p.names);
    assert ("/" + j)[1..] == j;
    assert LeadingSlashes("/" + j) == 1;
    NamesOfSlash(j);
    if p.double {
      assert ("/" + ("/" + j))[1..] == "/" + j && "//" + j == "/" + ("/" + j);
      NamesOfSlash("/" + j);
    }
  }

  lemma ShowNotLonger(value: string)
    requires value != "" && value[0] == '/' && AllAllowed(value)
    ensures |ShowPath(Parse(value))| <= |value|
  {
    var rest := value[1..];
    assert value == "/" + rest;
    NamesOfSlash(rest);
    NamesGood(rest);
    if LeadingSlashes(value) == 2 {
      assert LeadingSlashes(rest) == 1;
      assert rest == "/" + rest[1..];
      NamesOfSlash(rest[1..]);
      NamesGood(rest[1..]);
    }
  }

  /** Normalising a canonical path leaves it alone. */
  lemma CanonicalFixed(value: string)
    requires Canonical(value).Some?
    ensures Canonical(Canonical(value).value) == Canonical(value)
    ensures AllAllowed(Canonical(value).value) && |Canonical(value).value| <= MAX_PATH
    ensures Parse(Canonical(value).value) == Parse(value)
  {
    var p := Parse(value);
    NamesGood(value);
    ParseOfShow(p);
    JoinShape(p.names);
    ShowNotLonger(value);
  }

  ghost predicate IsCanonical(values: seq<string>) {
    CanonicalAll(values) == Some(values)
  }

  // ----- Forbidden directories -----

  lemma TopsGood()
    ensures forall i :: 0 <= i < |TOPS| ==> TOPS[i] != [] && GoodNames(TOPS[i])
  {
  }

  lemma JoinCons(names: seq<string>)
    requires |names| > 1
    ensures Join(names) == names[0] + ("/" + Join(names[1..])) && names == [names[0]] + names[1..]
  {
  }

  lemma {:induction false} JoinAppend(a: seq<string>, b: seq<string>)
    requires a != [] && b != []
    ensures Join(a + b) == Join(a) + ("/" + Join(b))
  {
    assert (a + b)[0] == a[0] && (a + b)[1..] == a[1..] + b;
    JoinCons(a + b);
    if |a| == 1 {
      assert a[1..] + b == b;
    } else {
      JoinCons(a);
      JoinAppend(a[1..], b);
      SlashAssociates(a[0], Join(a[1..]), Join(b));
    }
  }

  lemma SlashAssociates(a: string, b: string, c: string)
    ensures a + ("/" + (b + ("/" + c))) == (a + ("/" + b)) + ("/" + c)
  {
  }

  lemma {:induction false} NamesOfAppend(top: seq<string>, rest: string)
    requires GoodNames(top) && top != []
    ensures Names(Join(top) + ("/" + rest)) == top + Names(rest)
  {
    if |top| == 1 {
      NamesStep(top[0], rest);
      assert top == [top[0]];
    } else {
      JoinCons(top);
      NamesOfAppend(top[1..], rest);
      NamesOfMore(top[0], Join(top[1..]), top[1..], rest);
    }
  }

  lemma NamesOfMore(name: string, joined: string, names: seq<string>, rest: string)
    requires GoodName(name) && Names(joined + ("/" + rest)) == names + Names(rest)
    ensures Names((name + ("/" + joined)) + ("/" + rest)) == ([name] + names) + Names(rest)
  {
    SlashAssociates(name, joined, rest);
    NamesStep(name, joined + ("/" + rest));
    ConsAppend(name, names, Names(rest));
  }

  lemma ConsAppend(name: string, a: seq<string>, b: seq<string>)
    ensures [name] + (a + b) == ([name] + a) + b
  {
  }

  /** What is left of a text inside another one, as texts. */
  lemma RestWithin(path: string, top: string) returns (rest: string)
    requires Within("/" + path, "/" + top)
    ensures path == top || path == top + ("/" + rest)
  {
    rest := "";
    if "/" + path == "/" + top {
      assert ("/" + path)[1..] == path && ("/" + top)[1..] == top;
    } else {
      var shown, head := "/" + path, ("/" + top) + "/";
      rest := shown[|head|..];
      assert shown == head + rest;
      assert path == shown[1..] == top + ("/" + rest);
    }
  }

  lemma WithinRest(top: string, rest: string)
    ensures Within("/" + top, "/" + top) && Within("/" + (top + ("/" + rest)), "/" + top)
  {
    assert "/" + (top + ("/" + rest)) == (("/" + top) + "/") + rest;
  }

  /** As text, a path is a directory or lies in it exactly when its names begin with the directory's names. */
  lemma UnderTop(names: seq<string>, top: seq<string>)
    requires GoodNames(names) && GoodNames(top) && top != []
    ensures Within("/" + Join(names), "/" + Join(top)) <==> top <= names
  {
    if Within("/" + Join(names), "/" + Join(top)) { TopOfText(names, top); }
    if top <= names {
      var more := names[|top|..];
      assert names == top + more;
      if more == [] {
        assert names == top;
      } else {
        JoinAppend(top, more);
        WithinRest(Join(top), Join(more));
      }
    }
  }

  lemma TopOfText(names: seq<string>, top: seq<string>)
    requires GoodNames(names) && GoodNames(top) && top != [] && Within("/" + Join(names), "/" + Join(top))
    ensures top <= names
  {
    var rest := RestWithin(Join(names), Join(top));
    NamesOfJoin(names);
    NamesOfJoin(top);
    if Join(names) != Join(top) { NamesOfAppend(top, rest); }
  }

  lemma DoubleEscapes(names: seq<string>, top: seq<string>)
    requires GoodNames(top) && top != []
    ensures !Within("//" + Join(names), "/" + Join(top))
  {
    JoinShape(top);
    assert ("/" + Join(top))[1] != '/' && ("//" + Join(names))[1] == '/';
  }

  /** The names begin with those of a forbidden directory: on Linux two leading slashes mean what one means. */
  predicate LiesUnderAny(names: seq<string>, tops: seq<seq<string>>) {
    exists i :: 0 <= i < |tops| && tops[i] <= names
  }

  lemma ShownUnder(p: Path, tops: seq<seq<string>>)
    requires GoodNames(p.names) && forall i :: 0 <= i < |tops| ==> tops[i] != [] && GoodNames(tops[i])
    ensures WithinAny(ShowPath(p), tops) <==> !p.double && LiesUnderAny(p.names, tops)
  {
    forall i | 0 <= i < |tops|
      ensures Within(ShowPath(p), "/" + Join(tops[i])) <==> !p.double && tops[i] <= p.names
    {
      if p.double { DoubleEscapes(p.names, tops[i]); } else { UnderTop(p.names, tops[i]); }
    }
  }

  /** A well-formed path is accepted exactly when it lies under no forbidden directory or is written with two
      leading slashes; so an accepted path lies under one only when it is written so. */
  lemma AcceptedPaths(value: string)
    ensures Canonical(value).Some? <==>
            && 2 <= |value| <= MAX_PATH && value[0] == '/' && AllAllowed(value)
            && ".." !in Parse(value).names && |Parse(value).names| >= 2
            && (Parse(value).double || !LiesUnderAny(Parse(value).names, TOPS))
  {
    if AllAllowed(value) && ".." !in Parse(value).names {
      NamesGood(value);
      TopsGood();
      ShownUnder(Parse(value), TOPS);
    }
  }

  /** Written with two slashes, every path of at least two names under a forbidden directory is accepted as it
      stands; written with one, it is not. */
  lemma DoubleSlashAccepted(names: seq<string>)
    requires GoodNames(names) && |names| >= 2 && LiesUnderAny(names, TOPS) && |Join(names)| + 2 <= MAX_PATH
    ensures Canonical("//" + Join(names)) == Some("//" + Join(names))
    ensures Canonical("/" + Join(names)) == None
  {
    var p, q := Path(true, names), Path(false, names);
    JoinShape(names);
    ParseOfShow(p);
    ParseOfShow(q);
    NoDots(names);
    AcceptedPaths(ShowPath(p));
    AcceptedPaths(ShowPath(q));
  }

  lemma NoDots(names: seq<string>)
    requires GoodNames(names)
    ensures ".." !in names
  {
  }

  lemma {:induction false} CanonicalAllFixed(values: seq<string>)
    requires CanonicalAll(values).Some?
    ensures IsCanonical(CanonicalAll(values).value)
    ensures forall i :: 0 <= i < |values| ==> Canonical(CanonicalAll(values).value[i]) == Some(CanonicalAll(values).value[i])
    ensures forall i :: 0 <= i < |values| ==> AllAllowed(CanonicalAll(values).value[i]) && |CanonicalAll(values).value[i]| <= MAX_PATH
  {
    if values != [] {
      var n := |values| - 1;
      CanonicalAllFixed(values[..n]);
      CanonicalFixed(values[n]);
      var out := CanonicalAll(values).value;
      assert out[..n] == CanonicalAll(values[..n]).value;
    }
  }

  /** Validation is idempotent. */
  lemma ValidateFixed(p: Policy)
    requires Validate(p).Some?
    ensures Validate(Validate(p).value) == Validate(p)
  {
    CanonicalAllFixed(p.roots);
    CanonicalAllFixed(p.exclusions);
  }

  // ----- Text form -----

  const VERSION := "version="
  const ROOT := "root="
  const EXCLUDE := "exclude="

  function Digit(n: nat): char
    requires n < 10
  {
    ['0', '1', '2', '3', '4', '5', '6', '7', '8', '9'][n]
  }

  function ToText(n: nat): string {
    if n < 10 then [Digit(n)] else ToText(n / 10) + [Digit(n % 10)]
  }

  predicate Digits(s: string) {
    forall i :: 0 <= i < |s| ==> '0' <= s[i] <= '9'
  }

  function ToNumber(s: string): nat
    requires Digits(s)
  {
    if s == "" then 0 else 10 * ToNumber(s[..|s| - 1]) + (s[|s| - 1] as int - '0' as int)
  }

  function Lines(prefix: string, paths: seq<string>): string {
    if paths == [] then "" else (prefix + (paths[0] + "\n")) + Lines(prefix, paths[1..])
  }

  function Encode(p: Policy, version: nat): string {
    (VERSION + (ToText(version) + "\n")) + (Lines(ROOT, p.roots) + Lines(EXCLUDE, p.exclusions))
  }

  /** The line boundaries of Python's str.splitlines. */
  predicate LineBreak(c: char) {
    c == '\n' || c == '\r' || 0x0b <= c as int <= 0x0c || 0x1c <= c as int <= 0x1e
    || c as int == 0x85 || c as int == 0x2028 || c as int == 0x2029
  }

  predicate OneLine(s: string) {
    forall i :: 0 <= i < |s| ==> !LineBreak(s[i])
  }

  function FirstBreak(s: string): (n: nat)
    ensures n <= |s| && OneLine(s[..n]) && (n < |s| ==> LineBreak(s[n]))
  {
    if s == "" || LineBreak(s[0]) then 0 else 1 + FirstBreak(s[1..])
  }

  function SplitLines(s: string): seq<string>
    decreases |s|
  {
    if s == "" then []
    else
      var n := FirstBreak(s);
      if n == |s| then [s]
      else if s[n] == '\r' && n + 1 < |s| && s[n + 1] == '\n' then [s[..n]] + SplitLines(s[n + 2..])
      else [s[..n]] + SplitLines(s[n + 1..])
  }

  /** The records of the lines after the first: a key, the first equals sign, and a path. */
  function Records(lines: seq<string>): Option<Policy> {
    if lines == [] then Some(Policy([], []))
    else
      var rest := Records(lines[..|lines| - 1]);
      var line := lines[|lines| - 1];
      if rest.None? then None
      else if ROOT <= line then Some(rest.value.(roots := rest.value.roots + [line[|ROOT|..]]))
      else if EXCLUDE <= line then Some(rest.value.(exclusions := rest.value.exclusions + [line[|EXCLUDE|..]]))
      else None
  }

  predicate VersionLine(line: string) {
    VERSION <= line && 1 <= |line| - |VERSION| <= 9 && Digits(line[|VERSION|..])
  }

  function Decode(data: string): Option<(Policy, nat)> {
    var lines := SplitLines(data);
    if lines == [] || !VersionLine(lines[0]) then None
    else
      var records := Records(lines[1..]);
      if records.None? then None
      else
        var policy := Validate(records.value);
        if policy.None? then None else Some((policy.value, ToNumber(lines[0][|VERSION|..])))
  }

  method ReadRecords(lines: seq<string>) returns (r: Option<Policy>)
    ensures r == Records(lines)
  {
    var roots: seq<string>, exclusions: seq<string> := [], [];
    for i := 0 to |lines|
      invariant Records(lines[..i]) == Some(Policy(roots, exclusions))
    {
      assert lines[..i + 1][..i] == lines[..i];
      var line := lines[i];
      if ROOT <= line {
        roots := roots + [line[|ROOT|..]];
      } else if EXCLUDE <= line {
        exclusions := exclusions + [line[|EXCLUDE|..]];
      } else {
        BadRecordStays(lines, i + 1);
        return None;
      }
    }
    assert lines[..|lines|] == lines;
    return Some(Policy(roots, exclusions));
  }

  lemma {:induction false} BadRecordStays(lines: seq<string>, n: nat)
    requires n <= |lines| && Records(lines[..n]) == None
    ensures Records(lines) == None
    decreases |lines|
  {
    if n == |lines| {
      assert lines[..n] == lines;
    } else {
      assert lines[..|lines| - 1][..n] == lines[..n];
      BadRecordStays(lines[..|lines| - 1], n);
    }
  }

  // ----- Reading back what was written -----

  lemma {:induction false} NumberText(n: nat)
    ensures Digits(ToText(n)) && ToNumber(ToText(n)) == n && ToText(n) != ""
  {
    if n >= 10 {
      NumberText(n / 10);
      assert ToText(n)[..|ToText(n)| - 1] == ToText(n / 10);
    } else {
      assert ToText(n)[..0] == "";
    }
  }

  function Pow10(k: nat): nat { if k == 0 then 1 else 10 * Pow10(k - 1) }

  lemma {:induction false} ShortText(n: nat, k: nat)
    requires n < Pow10(k) && k > 0
    ensures |ToText(n)| <= k
  {
    if n >= 10 {
      assert k > 1;
      assert Pow10(k) == 10 * Pow10(k - 1);
      ShortText(n / 10, k - 1);
    }
  }

  lemma {:induction false} FirstBreakAt(line: string, rest: string)
    requires OneLine(line)
    ensures FirstBreak(line + ("\n" + rest)) == |line|
  {
    if line == "" {
      assert "" + ("\n" + rest) == "\n" + rest;
    } else {
      assert (line + ("\n" + rest))[1..] == line[1..] + ("\n" + rest);
      FirstBreakAt(line[1..], rest);
    }
  }

  lemma FirstLine(line: string, rest: string)
    requires OneLine(line)
    ensures SplitLines(line + ("\n" + rest)) == [line] + SplitLines(rest)
  {
    var s := line + ("\n" + rest);
    FirstBreakAt(line, rest);
    assert s[|line|] == '\n' && s[..|line|] == line && s[|line| + 1..] == rest;
  }

  function Tagged(prefix: string, paths: seq<string>): seq<string> {
    seq(|paths|, i requires 0 <= i < |paths| => prefix + paths[i])
  }

  lemma TaggedFirst(prefix: string, paths: seq<string>)
    requires paths != []
    ensures Tagged(prefix, paths) == [prefix + paths[0]] + Tagged(prefix, paths[1..])
  {
  }

  lemma OneLineRecord(prefix: string, path: string)
    requires OneLine(prefix) && AllAllowed(path)
    ensures OneLine(prefix + path)
  {
  }

  lemma Reassociate(a: seq<string>, b: seq<string>, c: seq<string>)
    ensures a + (b + c) == (a + b) + c
  {
  }

  lemma {:induction false} SplitTagged(prefix: string, paths: seq<string>, rest: string)
    requires OneLine(prefix) && forall i :: 0 <= i < |paths| ==> AllAllowed(paths[i])
    ensures SplitLines(Lines(prefix, paths) + rest) == Tagged(prefix, paths) + SplitLines(rest)
    decreases |paths|
  {
    if paths == [] {
      assert Lines(prefix, paths) + rest == rest;
    } else {
      SplitTagged(prefix, paths[1..], rest);
      var line, more := prefix + paths[0], Lines(prefix, paths[1..]);
      OneLineRecord(prefix, paths[0]);
      FirstLine(line, more + rest);
      TaggedFirst(prefix, paths);
      Reassociate([line], Tagged(prefix, paths[1..]), SplitLines(rest));
      calc {
        SplitLines(Lines(prefix, paths) + rest);
        { FirstOfLines(prefix, paths[0], more, rest); }
        SplitLines(line + ("\n" + (more + rest)));
        [line] + SplitLines(more + rest);
        Tagged(prefix, paths) + SplitLines(rest);
      }
    }
  }

  lemma FirstOfLines(prefix: string, path: string, more: string, rest: string)
    ensures ((prefix + (path + "\n")) + more) + rest == (prefix + path) + ("\n" + (more + rest))
  {
  }

  lemma RecordText(prefix: string, path: string)
    ensures prefix <= prefix + path && (prefix + path)[|prefix|..] == path
  {
  }

  lemma {:induction false} RecordsOfRoots(roots: seq<string>)
    ensures Records(Tagged(ROOT, roots)) == Some(Policy(roots, []))
  {
    if roots != [] {
      var n := |roots| - 1;
      RecordsOfRoots(roots[..n]);
      RecordText(ROOT, roots[n]);
      var all := Tagged(ROOT, roots);
      assert all[..n] == Tagged(ROOT, roots[..n]) && all[n] == ROOT + roots[n];
      assert roots == roots[..n] + [roots[n]];
    }
  }

  lemma {:induction false} RecordsOfBoth(roots: seq<string>, exclusions: seq<string>)
    ensures Records(Tagged(ROOT, roots) + Tagged(EXCLUDE, exclusions)) == Some(Policy(roots, exclusions))
    decreases |exclusions|
  {
    var all := Tagged(ROOT, roots) + Tagged(EXCLUDE, exclusions);
    if exclusions == [] {
      RecordsOfRoots(roots);
      assert all == Tagged(ROOT, roots);
    } else {
      var n := |exclusions| - 1;
      var line := EXCLUDE + exclusions[n];
      RecordsOfBoth(roots, exclusions[..n]);
      RecordText(EXCLUDE, exclusions[n]);
      assert all[..|all| - 1] == Tagged(ROOT, roots) + Tagged(EXCLUDE, exclusions[..n]);
      assert all[|all| - 1] == line && line[0] == 'e' && ROOT[0] == 'r';
      assert exclusions == exclusions[..n] + [exclusions[n]];
    }
  }

  ghost predicate CanonicalPolicy(p: Policy) {
    Validate(p) == Some(p)
  }

  lemma CanonicalPolicyText(p: Policy)
    requires CanonicalPolicy(p)
    ensures forall i :: 0 <= i < |p.roots| ==> AllAllowed(p.roots[i]) && |p.roots[i]| <= MAX_PATH
    ensures forall i :: 0 <= i < |p.exclusions| ==> AllAllowed(p.exclusions[i]) && |p.exclusions[i]| <= MAX_PATH
  {
    CanonicalAllFixed(p.roots);
    CanonicalAllFixed(p.exclusions);
  }

  /** Decoding an encoded canonical policy returns it with its version. */
  lemma RoundTrip(p: Policy, version: nat)
    requires CanonicalPolicy(p) && version <= MAX_VERSION
    ensures Decode(Encode(p, version)) == Some((p, version))
  {
    NumberText(version);
    ShortVersion(version);
    EncodedLines(p, version);
    RecordsOfBoth(p.roots, p.exclusions);
    RecordText(VERSION, ToText(version));
    var lines, body := SplitLines(Encode(p, version)), Tagged(ROOT, p.roots) + Tagged(EXCLUDE, p.exclusions);
    assert lines[0] == VERSION + ToText(version) && lines[1..] == body;
  }

  lemma {:induction false} EncodedLines(p: Policy, version: nat)
    requires CanonicalPolicy(p)
    ensures SplitLines(Encode(p, version))
         == [VERSION + ToText(version)] + (Tagged(ROOT, p.roots) + Tagged(EXCLUDE, p.exclusions))
  {
    NumberText(version);
    BodyLines(p);
    VersionFirst(ToText(version), Lines(ROOT, p.roots) + Lines(EXCLUDE, p.exclusions));
    EncodeText(p, version);
  }

  lemma BodyLines(p: Policy)
    requires CanonicalPolicy(p)
    ensures SplitLines(Lines(ROOT, p.roots) + Lines(EXCLUDE, p.exclusions)) == Tagged(ROOT, p.roots) + Tagged(EXCLUDE, p.exclusions)
  {
    CanonicalPolicyText(p);
    SplitTagged(ROOT, p.roots, Lines(EXCLUDE, p.exclusions));
    SplitLast(EXCLUDE, p.exclusions);
  }

  lemma EncodeText(p: Policy, version: nat)
    ensures Encode(p, version) == (VERSION + (ToText(version) + "\n")) + (Lines(ROOT, p.roots) + Lines(EXCLUDE, p.exclusions))
  {
  }

  lemma SplitLast(prefix: string, paths: seq<string>)
    requires OneLine(prefix) && forall i :: 0 <= i < |paths| ==> AllAllowed(paths[i])
    ensures SplitLines(Lines(prefix, paths)) == Tagged(prefix, paths)
  {
    SplitTagged(prefix, paths, "");
    assert Lines(prefix, paths) + "" == Lines(prefix, paths);
    assert Tagged(prefix, paths) + [] == Tagged(prefix, paths);
  }

  lemma VersionFirst(digits: string, rest: string)
    requires Digits(digits)
    ensures SplitLines((VERSION + (digits + "\n")) + rest) == [VERSION + digits] + SplitLines(rest)
  {
    FirstOfLines(VERSION, digits, rest, "");
    assert rest + "" == rest && ((VERSION + (digits + "\n")) + rest) + "" == (VERSION + (digits + "\n")) + rest;
    FirstLine(VERSION + digits, rest);
  }

  lemma ShortVersion(version: nat)
    requires version <= MAX_VERSION
    ensures |ToText(version)| <= 9
  {
    assert Pow10(3) == 1000;
    assert Pow10(6) == 1000 * Pow10(3);
    assert Pow10(9) == 1000 * Pow10(6);
    ShortText(version, 9);
  }

  /** Different canonical policies or versions never share a text. */
  lemma EncodeInjective(p: Policy, v: nat, q: Policy, w: nat)
    requires CanonicalPolicy(p) && CanonicalPolicy(q) && v <= MAX_VERSION && w <= MAX_VERSION
    requires Encode(p, v) == Encode(q, w)
    ensures p == q && v == w
  {
    RoundTrip(p, v);
    RoundTrip(q, w);
  }

  /** Whatever text is decoded, the policy is canonical and its version has at most nine digits. */
  lemma DecodeSound(data: string)
    requires Decode(data).Some?
    ensures CanonicalPolicy(Decode(data).value.0) && Decode(data).value.1 <= MAX_VERSION
  {
    var lines := SplitLines(data);
    ValidateFixed(Records(lines[1..]).value);
    NumberBound(lines[0][|VERSION|..], 9);
    assert Pow10(3) == 1000 && Pow10(6) == 1000 * Pow10(3) && Pow10(9) == 1000 * Pow10(6);
  }

  lemma {:induction false} NumberBound(s: string, k: nat)
    requires Digits(s) && |s| <= k
    ensures ToNumber(s) < Pow10(k)
  {
    if s != "" { NumberBound(s[..|s| - 1], k - 1); } else { PowPositive(k); }
  }

  lemma {:induction false} PowPositive(k: nat)
    ensures Pow10(k) >= 1
  {
    if k > 0 { PowPositive(k - 1); }
  }

  lemma {:induction false} LinesSize(prefix: string, paths: seq<string>)
    requires forall i :: 0 <= i < |paths| ==> |paths[i]| <= MAX_PATH
    ensures |Lines(prefix, paths)| <= |paths| * (|prefix| + MAX_PATH + 1)
  {
    if paths != [] {
      LinesSize(prefix, paths[1..]);
      assert |paths| * (|prefix| + MAX_PATH + 1) == (|paths| - 1) * (|prefix| + MAX_PATH + 1) + (|prefix| + MAX_PATH + 1);
    }
  }

  /** A written policy is never too large to be read back. */
  lemma EncodedFits(p: Policy, version: nat)
    requires CanonicalPolicy(p) && version <= MAX_VERSION
    ensures |Encode(p, version)| <= MAX_FILE
  {
    CanonicalPolicyText(p);
    ShortVersion(version);
    LinesSize(ROOT, p.roots);
    LinesSize(EXCLUDE, p.exclusions);
    assert |p.roots| * 506 <= 100 * 506;
    assert |p.exclusions| * 509 <= 100 * 509;
  }
}
