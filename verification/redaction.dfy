/** The canonicalising redactor RejectionEvidence.Clean of deploy/agents/discovery-native.cs, whose
    output is the input of the evidence fingerprint.

    The two regular expressions are parameters.  Clean threads a node budget through the recursion;
    the reference separates what the budget sees (Size, Height) from the canonical tree (Canon). */
module Redaction {
  import opened Wrappers

  const MAX_NODES := 4096
  const MAX_DEPTH := 12
  const MAX_TEXT := 8192
  const REDACTED := "[REDACTED]"

  datatype Value =
    | Atom(text: string)            // numbers, booleans, null
    | Str(text: string)
    | Map(fields: seq<Field>)       // in insertion order; keys are distinct
    | List(items: seq<Value>)

  datatype Field = Field(key: string, value: Value)

  datatype Rules = Rules(secretKey: string -> bool, secretText: string -> bool)

  predicate Hidden(r: Rules, key: string) {
    key == "@metadata" || r.secretKey(key) || r.secretText(key)
  }

  function CleanText(r: Rules, text: string): string {
    if |text| > MAX_TEXT || r.secretText(text) then REDACTED else text
  }

  // ----- Ordinal order of keys, and the sorted dictionary -----

  predicate Less(a: string, b: string) {
    b != "" && (a == "" || a[0] < b[0] || (a[0] == b[0] && Less(a[1..], b[1..])))
  }

  lemma {:induction false} LessTrans(a: string, b: string, c: string)
    requires Less(a, b) && Less(b, c)
    ensures Less(a, c)
  {
    if a != "" && a[0] == b[0] == c[0] { LessTrans(a[1..], b[1..], c[1..]); }
  }

  lemma {:induction false} LessTotal(a: string, b: string)
    ensures Less(a, b) || a == b || Less(b, a)
    ensures !(Less(a, b) && Less(b, a))
  {
    if a != "" && b != "" {
      LessTotal(a[1..], b[1..]);
      if a[0] == b[0] && a[1..] == b[1..] {
        assert a == [a[0]] + a[1..] && b == [b[0]] + b[1..];
      }
    }
  }

  function Put(fs: seq<Field>, f: Field): seq<Field> {
    if fs == [] || Less(f.key, fs[0].key) then [f] + fs
    else if f.key == fs[0].key then [f] + fs[1..]
    else [fs[0]] + Put(fs[1..], f)
  }

  ghost predicate Above(key: string, fs: seq<Field>) {
    forall i :: 0 <= i < |fs| ==> Less(key, fs[i].key)
  }

  ghost predicate SortedFields(fs: seq<Field>) {
    fs == [] || (Above(fs[0].key, fs[1..]) && SortedFields(fs[1..]))
  }

  ghost predicate DistinctKeys(fs: seq<Field>) {
    forall i, j :: 0 <= i < j < |fs| ==> fs[i].key != fs[j].key
  }

  // ----- Reference: canonical tree, nodes visited, depth reached -----

  function Canon(r: Rules, v: Value): Value
    decreases v, 1
  {
    match v
    case Atom(_) => v
    case Str(t) => Str(CleanText(r, t))
    case Map(fs) => Map(CanonFields(r, fs))
    case List(vs) => List(CanonItems(r, vs))
  }

  function CanonFields(r: Rules, fs: seq<Field>): seq<Field>
    decreases fs, 0
  {
    if fs == [] then []
    else
      var last := fs[|fs| - 1];
      var init := CanonFields(r, fs[..|fs| - 1]);
      if Hidden(r, last.key) then init else Put(init, Field(last.key, Canon(r, last.value)))
  }

  function CanonItems(r: Rules, vs: seq<Value>): seq<Value>
    decreases vs, 0
  {
    if vs == [] then [] else CanonItems(r, vs[..|vs| - 1]) + [Canon(r, vs[|vs| - 1])]
  }

  function Size(r: Rules, v: Value): nat
    decreases v, 1
  {
    1 + match v
        case Map(fs) => SizeFields(r, fs)
        case List(vs) => SizeItems(r, vs)
        case _ => 0
  }

  function SizeFields(r: Rules, fs: seq<Field>): nat
    decreases fs, 0
  {
    if fs == [] then 0
    else
      var last := fs[|fs| - 1];
      SizeFields(r, fs[..|fs| - 1]) + if Hidden(r, last.key) then 0 else Size(r, last.value)
  }

  function SizeItems(r: Rules, vs: seq<Value>): nat
    decreases vs, 0
  {
    if vs == [] then 0 else SizeItems(r, vs[..|vs| - 1]) + Size(r, vs[|vs| - 1])
  }

  function Max(a: nat, b: nat): nat { if a < b then b else a }

  function Height(r: Rules, v: Value): nat
    decreases v, 1
  {
    match v
    case Map(fs) => HeightFields(r, fs)
    case List(vs) => HeightItems(r, vs)
    case _ => 0
  }

  function HeightFields(r: Rules, fs: seq<Field>): nat
    decreases fs, 0
  {
    if fs == [] then 0
    else
      var last := fs[|fs| - 1];
      Max(HeightFields(r, fs[..|fs| - 1]), if Hidden(r, last.key) then 0 else 1 + Height(r, last.value))
  }

  function HeightItems(r: Rules, vs: seq<Value>): nat
    decreases vs, 0
  {
    if vs == [] then 0 else Max(HeightItems(r, vs[..|vs| - 1]), 1 + Height(r, vs[|vs| - 1]))
  }

  predicate WithinBudget(r: Rules, v: Value, depth: nat, nodes: nat) {
    nodes + Size(r, v) <= MAX_NODES && depth + Height(r, v) <= MAX_DEPTH
  }

  // ----- The source's recursion -----

  lemma {:induction false} FieldsPrefix(r: Rules, fs: seq<Field>, n: nat)
    requires n <= |fs|
    ensures SizeFields(r, fs[..n]) <= SizeFields(r, fs) && HeightFields(r, fs[..n]) <= HeightFields(r, fs)
    decreases |fs|
  {
    if n < |fs| {
      assert fs[..|fs| - 1][..n] == fs[..n];
      FieldsPrefix(r, fs[..|fs| - 1], n);
    } else {
      assert fs[..n] == fs;
    }
  }

  lemma {:induction false} ItemsPrefix(r: Rules, vs: seq<Value>, n: nat)
    requires n <= |vs|
    ensures SizeItems(r, vs[..n]) <= SizeItems(r, vs) && HeightItems(r, vs[..n]) <= HeightItems(r, vs)
    decreases |vs|
  {
    if n < |vs| {
      assert vs[..|vs| - 1][..n] == vs[..n];
      ItemsPrefix(r, vs[..|vs| - 1], n);
    } else {
      assert vs[..n] == vs;
    }
  }

  /** Clean: None stands for the privacy_limit exception. */
  method Clean(r: Rules, value: Value, depth: nat, nodes: nat) returns (result: Option<Value>, total: nat)
    ensures result.Some? <==> WithinBudget(r, value, depth, nodes)
    ensures result.Some? ==> result.value == Canon(r, value) && total == nodes + Size(r, value)
    decreases value, 1
  {
    total := nodes + 1;
    if total > MAX_NODES || depth > MAX_DEPTH { return None, total; }
    match value {
      case Map(fs) =>
        var fields: Option<seq<Field>>;
        fields, total := CleanMap(r, fs, depth, total);
        result := if fields.Some? then Some(Map(fields.value)) else None;
      case List(vs) =>
        var items: Option<seq<Value>>;
        items, total := CleanList(r, vs, depth, total);
        result := if items.Some? then Some(List(items.value)) else None;
      case Str(t) => result := Some(Str(CleanText(r, t)));
      case Atom(_) => result := Some(value);
    }
  }

  method CleanMap(r: Rules, fs: seq<Field>, depth: nat, nodes: nat) returns (result: Option<seq<Field>>, total: nat)
    requires nodes <= MAX_NODES && depth <= MAX_DEPTH
    ensures result.Some? <==> nodes + SizeFields(r, fs) <= MAX_NODES && depth + HeightFields(r, fs) <= MAX_DEPTH
    ensures result.Some? ==> result.value == CanonFields(r, fs) && total == nodes + SizeFields(r, fs)
    decreases fs, 0
  {
    var clean: seq<Field> := [];
    total := nodes;
    for i := 0 to |fs|
      invariant clean == CanonFields(r, fs[..i]) && total == nodes + SizeFields(r, fs[..i]) <= MAX_NODES
      invariant depth + HeightFields(r, fs[..i]) <= MAX_DEPTH
    {
      assert fs[..i + 1][..i] == fs[..i];
      FieldsPrefix(r, fs, i + 1);
      if Hidden(r, fs[i].key) { continue; }
      var c: Option<Value>;
      c, total := Clean(r, fs[i].value, depth + 1, total);
      if c.None? { return None, total; }
      clean := Put(clean, Field(fs[i].key, c.value));
    }
    assert fs[..|fs|] == fs;
    result := Some(clean);
  }

  method CleanList(r: Rules, vs: seq<Value>, depth: nat, nodes: nat) returns (result: Option<seq<Value>>, total: nat)
    requires nodes <= MAX_NODES && depth <= MAX_DEPTH
    ensures result.Some? <==> nodes + SizeItems(r, vs) <= MAX_NODES && depth + HeightItems(r, vs) <= MAX_DEPTH
    ensures result.Some? ==> result.value == CanonItems(r, vs) && total == nodes + SizeItems(r, vs)
    decreases vs, 0
  {
    var clean: seq<Value> := [];
    total := nodes;
    for i := 0 to |vs|
      invariant clean == CanonItems(r, vs[..i]) && total == nodes + SizeItems(r, vs[..i]) <= MAX_NODES
      invariant depth + HeightItems(r, vs[..i]) <= MAX_DEPTH
    {
      assert vs[..i + 1][..i] == vs[..i];
      ItemsPrefix(r, vs, i + 1);
      var c: Option<Value>;
      c, total := Clean(r, vs[i], depth + 1, total);
      if c.None? { return None, total; }
      clean := clean + [c.value];
    }
    assert vs[..|vs|] == vs;
    result := Some(clean);
  }

  // ----- The canonical tree -----

  /** Dictionaries have distinct keys at every depth. */
  ghost predicate WellFormed(v: Value)
    decreases v
  {
    match v
    case Map(fs) => DistinctKeys(fs) && forall i :: 0 <= i < |fs| ==> WellFormed(fs[i].value)
    case List(vs) => forall i :: 0 <= i < |vs| ==> WellFormed(vs[i])
    case _ => true
  }

  /** Nothing the rules forbid, and every dictionary in key order. */
  ghost predicate Safe(r: Rules, v: Value)
    decreases v
  {
    match v
    case Atom(_) => true
    case Str(t) => |t| <= MAX_TEXT && !r.secretText(t)
    case Map(fs) => SafeFields(r, fs)
    case List(vs) => forall i :: 0 <= i < |vs| ==> Safe(r, vs[i])
  }

  ghost predicate SafeFields(r: Rules, fs: seq<Field>)
    decreases fs
  {
    SortedFields(fs) && forall i :: 0 <= i < |fs| ==> !Hidden(r, fs[i].key) && Safe(r, fs[i].value)
  }

  lemma {:induction false} PutMembers(fs: seq<Field>, f: Field)
    ensures forall x :: x in Put(fs, f) ==> x == f || x in fs
    ensures f in Put(fs, f)
    ensures forall x :: x in fs && x.key != f.key ==> x in Put(fs, f)
  {
    if fs != [] && !Less(f.key, fs[0].key) && f.key != fs[0].key {
      PutMembers(fs[1..], f);
    }
  }

  lemma {:induction false} PutSorted(fs: seq<Field>, f: Field)
    requires SortedFields(fs)
    ensures SortedFields(Put(fs, f))
  {
    if fs != [] {
      LessTotal(f.key, fs[0].key);
      if Less(f.key, fs[0].key) {
        assert ([f] + fs)[1..] == fs;
        forall i | 0 <= i < |fs| ensures Less(f.key, fs[i].key) {
          if i > 0 { assert fs[i] == fs[1..][i - 1]; LessTrans(f.key, fs[0].key, fs[i].key); }
        }
      } else if f.key == fs[0].key {
        assert ([f] + fs[1..])[1..] == fs[1..];
      } else {
        PutSorted(fs[1..], f);
        PutMembers(fs[1..], f);
        var tail := Put(fs[1..], f);
        assert ([fs[0]] + tail)[1..] == tail;
        forall i | 0 <= i < |tail| ensures Less(fs[0].key, tail[i].key) {
          assert tail[i] in tail;
        }
      }
    }
  }

  /** The output holds no secret key, no secret text, no over-long string, and is sorted throughout. */
  lemma {:induction false} CanonSafe(r: Rules, v: Value)
    requires !r.secretText(REDACTED)
    ensures Safe(r, Canon(r, v))
    decreases v, 1
  {
    match v
    case Map(fs) => CanonFieldsSafe(r, fs);
    case List(vs) => CanonItemsSafe(r, vs);
    case _ =>
  }

  lemma {:induction false} CanonFieldsSafe(r: Rules, fs: seq<Field>)
    requires !r.secretText(REDACTED)
    ensures SafeFields(r, CanonFields(r, fs))
    decreases fs, 0
  {
    if fs != [] {
      var last := fs[|fs| - 1];
      var init := CanonFields(r, fs[..|fs| - 1]);
      CanonFieldsSafe(r, fs[..|fs| - 1]);
      if !Hidden(r, last.key) {
        var f := Field(last.key, Canon(r, last.value));
        CanonSafe(r, last.value);
        PutSorted(init, f);
        PutMembers(init, f);
        forall i | 0 <= i < |Put(init, f)|
          ensures !Hidden(r, Put(init, f)[i].key) && Safe(r, Put(init, f)[i].value)
        {
          assert Put(init, f)[i] in Put(init, f);
        }
      }
    }
  }

  lemma {:induction false} CanonItemsSafe(r: Rules, vs: seq<Value>)
    requires !r.secretText(REDACTED)
    ensures |CanonItems(r, vs)| == |vs|
    ensures forall i :: 0 <= i < |vs| ==> Safe(r, CanonItems(r, vs)[i])
    decreases vs, 0
  {
    if vs != [] {
      CanonItemsSafe(r, vs[..|vs| - 1]);
      CanonSafe(r, vs[|vs| - 1]);
    }
  }

  // ----- Idempotence, budget included -----

  lemma {:induction false} PutLast(fs: seq<Field>, f: Field)
    requires forall i :: 0 <= i < |fs| ==> Less(fs[i].key, f.key)
    ensures Put(fs, f) == fs + [f]
  {
    if fs != [] {
      LessTotal(f.key, fs[0].key);
      PutLast(fs[1..], f);
    }
  }

  lemma {:induction false} SortedPairs(fs: seq<Field>, i: nat, j: nat)
    requires SortedFields(fs) && i < j < |fs|
    ensures Less(fs[i].key, fs[j].key)
  {
    if i == 0 { assert fs[j] == fs[1..][j - 1]; } else { SortedPairs(fs[1..], i - 1, j - 1); }
  }

  lemma {:induction false} SortedInit(fs: seq<Field>, n: nat)
    requires SortedFields(fs) && n <= |fs|
    ensures SortedFields(fs[..n])
  {
    if n > 0 {
      SortedInit(fs[1..], n - 1);
      assert fs[..n][1..] == fs[1..][..n - 1];
    }
  }

  /** A safe tree is its own canonical form: cleaning twice is cleaning once. */
  lemma {:induction false} SafeIsCanonical(r: Rules, v: Value)
    requires Safe(r, v)
    ensures Canon(r, v) == v
    decreases v, 1
  {
    match v
    case Map(fs) => SafeFieldsCanonical(r, fs);
    case List(vs) => SafeItemsCanonical(r, vs);
    case _ =>
  }

  lemma {:induction false} SafeFieldsCanonical(r: Rules, fs: seq<Field>)
    requires SafeFields(r, fs)
    ensures CanonFields(r, fs) == fs
    decreases fs, 0
  {
    if fs != [] {
      var n := |fs| - 1;
      SortedInit(fs, n);
      SafeFieldsCanonical(r, fs[..n]);
      SafeIsCanonical(r, fs[n].value);
      LastInPlace(fs);
    }
  }

  lemma LastInPlace(fs: seq<Field>)
    requires SortedFields(fs) && fs != []
    ensures Put(fs[..|fs| - 1], fs[|fs| - 1]) == fs
  {
    var n := |fs| - 1;
    forall i | 0 <= i < n ensures Less(fs[i].key, fs[n].key) { SortedPairs(fs, i, n); }
    PutLast(fs[..n], fs[n]);
    assert fs == fs[..n] + [fs[n]];
  }

  lemma {:induction false} SafeItemsCanonical(r: Rules, vs: seq<Value>)
    requires forall i :: 0 <= i < |vs| ==> Safe(r, vs[i])
    ensures CanonItems(r, vs) == vs
    decreases vs, 0
  {
    if vs != [] {
      SafeItemsCanonical(r, vs[..|vs| - 1]);
      SafeIsCanonical(r, vs[|vs| - 1]);
    }
  }

  // ----- The budget sees the same tree before and after -----

  function FieldSize(r: Rules, f: Field): nat {
    if Hidden(r, f.key) then 0 else Size(r, f.value)
  }

  function FieldHeight(r: Rules, f: Field): nat {
    if Hidden(r, f.key) then 0 else 1 + Height(r, f.value)
  }

  lemma {:induction false} BudgetCons(r: Rules, f: Field, fs: seq<Field>)
    ensures SizeFields(r, [f] + fs) == FieldSize(r, f) + SizeFields(r, fs)
    ensures HeightFields(r, [f] + fs) == Max(FieldHeight(r, f), HeightFields(r, fs))
    decreases |fs|
  {
    var all := [f] + fs;
    if fs == [] {
      assert all[..0] == [];
    } else {
      assert all[..|fs|] == [f] + fs[..|fs| - 1];
      BudgetCons(r, f, fs[..|fs| - 1]);
    }
  }

  lemma {:induction false} BudgetPut(r: Rules, fs: seq<Field>, f: Field)
    requires forall i :: 0 <= i < |fs| ==> fs[i].key != f.key
    ensures SizeFields(r, Put(fs, f)) == FieldSize(r, f) + SizeFields(r, fs)
    ensures HeightFields(r, Put(fs, f)) == Max(FieldHeight(r, f), HeightFields(r, fs))
  {
    BudgetCons(r, f, fs);
    if fs != [] {
      assert fs == [fs[0]] + fs[1..];
      BudgetCons(r, fs[0], fs[1..]);
      if !Less(f.key, fs[0].key) {
        BudgetPut(r, fs[1..], f);
        BudgetCons(r, fs[0], Put(fs[1..], f));
      }
    }
  }

  lemma {:induction false} CanonKeys(r: Rules, fs: seq<Field>, x: Field)
    requires x in CanonFields(r, fs)
    ensures exists i :: 0 <= i < |fs| && fs[i].key == x.key
  {
    var n := |fs| - 1;
    var init := CanonFields(r, fs[..n]);
    if !Hidden(r, fs[n].key) {
      PutMembers(init, Field(fs[n].key, Canon(r, fs[n].value)));
    }
    if x in init {
      CanonKeys(r, fs[..n], x);
      var i :| 0 <= i < n && fs[..n][i].key == x.key;
      assert fs[i].key == x.key;
    }
  }

  /** A cleaned tree has as many nodes and levels as the budget counted while cleaning. */
  lemma {:induction false} CanonBudget(r: Rules, v: Value)
    requires WellFormed(v)
    ensures Size(r, Canon(r, v)) == Size(r, v) && Height(r, Canon(r, v)) == Height(r, v)
    decreases v, 1
  {
    match v
    case Map(fs) => CanonFieldsBudget(r, fs);
    case List(vs) => CanonItemsBudget(r, vs);
    case _ =>
  }

  lemma {:induction false} CanonFieldsBudget(r: Rules, fs: seq<Field>)
    requires DistinctKeys(fs) && forall i :: 0 <= i < |fs| ==> WellFormed(fs[i].value)
    ensures SizeFields(r, CanonFields(r, fs)) == SizeFields(r, fs)
    ensures HeightFields(r, CanonFields(r, fs)) == HeightFields(r, fs)
    decreases fs, 0
  {
    if fs != [] {
      var n := |fs| - 1;
      CanonFieldsBudget(r, fs[..n]);
      if !Hidden(r, fs[n].key) {
        var init, f := CanonFields(r, fs[..n]), Field(fs[n].key, Canon(r, fs[n].value));
        CanonBudget(r, fs[n].value);
        forall i | 0 <= i < |init| ensures init[i].key != f.key { CanonKeys(r, fs[..n], init[i]); }
        BudgetPut(r, init, f);
      }
    }
  }

  lemma {:induction false} CanonItemsBudget(r: Rules, vs: seq<Value>)
    requires forall i :: 0 <= i < |vs| ==> WellFormed(vs[i])
    ensures SizeItems(r, CanonItems(r, vs)) == SizeItems(r, vs)
    ensures HeightItems(r, CanonItems(r, vs)) == HeightItems(r, vs)
    decreases vs, 0
  {
    if vs != [] {
      var n := |vs| - 1;
      CanonItemsBudget(r, vs[..n]);
      CanonBudget(r, vs[n]);
      assert CanonItems(r, vs)[..|CanonItems(r, vs)| - 1] == CanonItems(r, vs[..n]);
    }
  }

  /** Cleaning a cleaned tree, from the same depth and node count, returns it and counts the same. */
  lemma CleanTwice(r: Rules, v: Value, depth: nat, nodes: nat)
    requires !r.secretText(REDACTED) && WellFormed(v)
    ensures Canon(r, Canon(r, v)) == Canon(r, v)
    ensures WithinBudget(r, Canon(r, v), depth, nodes) <==> WithinBudget(r, v, depth, nodes)
    ensures nodes + Size(r, Canon(r, v)) == nodes + Size(r, v)
  {
    CanonSafe(r, v);
    SafeIsCanonical(r, Canon(r, v));
    CanonBudget(r, v);
  }

  // ----- Field order does not matter -----

  /** A tree without field order. */
  datatype Norm = NAtom(text: string) | NStr(text: string) | NMap(fields: map<string, Norm>) | NList(items: seq<Norm>)

  function Meaning(v: Value): Norm
    decreases v, 1
  {
    match v
    case Atom(t) => NAtom(t)
    case Str(t) => NStr(t)
    case Map(fs) => NMap(MeaningFields(fs))
    case List(vs) => NList(MeaningItems(vs))
  }

  function MeaningFields(fs: seq<Field>): map<string, Norm>
    decreases fs, 0
  {
    if fs == [] then map[]
    else
      var last := fs[|fs| - 1];
      MeaningFields(fs[..|fs| - 1])[last.key := Meaning(last.value)]
  }

  function MeaningItems(vs: seq<Value>): seq<Norm>
    decreases vs, 0
  {
    if vs == [] then [] else MeaningItems(vs[..|vs| - 1]) + [Meaning(vs[|vs| - 1])]
  }

  /** What cleaning removes, said without order. */
  function Redact(r: Rules, n: Norm): Norm
    decreases n
  {
    match n
    case NAtom(_) => n
    case NStr(t) => NStr(CleanText(r, t))
    case NMap(m) => NMap(map k | k in m && !Hidden(r, k) :: Redact(r, m[k]))
    case NList(ns) => NList(seq(|ns|, i requires 0 <= i < |ns| => Redact(r, ns[i])))
  }

  lemma {:induction false} MeaningCons(f: Field, fs: seq<Field>)
    ensures MeaningFields([f] + fs) == map[f.key := Meaning(f.value)] + MeaningFields(fs)
    decreases |fs|
  {
    var all := [f] + fs;
    if fs == [] {
      assert all[..0] == [];
    } else {
      assert all[..|fs|] == [f] + fs[..|fs| - 1];
      MeaningCons(f, fs[..|fs| - 1]);
    }
  }

  lemma OverrideNew(m: map<string, Norm>, k: string, x: Norm)
    requires k !in m
    ensures map[k := x] + m == m[k := x]
  {
  }

  lemma OverrideTail(a: string, x: Norm, m: map<string, Norm>, k: string, y: Norm)
    ensures map[a := x] + m[k := y] == (map[a := x] + m)[k := y]
    ensures (map[k := x] + m)[k := y] == m[k := y]
  {
  }

  lemma {:induction false} MeaningPut(fs: seq<Field>, f: Field)
    requires SortedFields(fs)
    ensures MeaningFields(Put(fs, f)) == MeaningFields(fs)[f.key := Meaning(f.value)]
  {
    var y := Meaning(f.value);
    if fs == [] {
      MeaningCons(f, fs);
    } else {
      var a, tail := fs[0], MeaningFields(fs[1..]);
      assert fs == [a] + fs[1..];
      MeaningCons(a, fs[1..]);
      LessTotal(f.key, a.key);
      if Less(f.key, a.key) {
        MeaningCons(f, fs);
        KeyAbsent(fs, f.key);
        OverrideNew(MeaningFields(fs), f.key, y);
      } else if f.key == a.key {
        MeaningCons(f, fs[1..]);
        TailAbsent(fs);
        OverrideNew(tail, f.key, y);
        OverrideTail(a.key, Meaning(a.value), tail, f.key, y);
      } else {
        MeaningPut(fs[1..], f);
        MeaningCons(a, Put(fs[1..], f));
        OverrideTail(a.key, Meaning(a.value), tail, f.key, y);
      }
    }
  }

  lemma {:induction false} MeaningKeys(fs: seq<Field>, k: string)
    ensures k in MeaningFields(fs) <==> exists i :: 0 <= i < |fs| && fs[i].key == k
  {
    if fs != [] {
      var n := |fs| - 1;
      MeaningKeys(fs[..n], k);
      if k in MeaningFields(fs[..n]) {
        var i :| 0 <= i < n && fs[..n][i].key == k;
        assert fs[i].key == k;
      }
      if i :| 0 <= i < |fs| && fs[i].key == k {
        assert i < n ==> fs[..n][i].key == k;
      }
    }
  }

  lemma KeyAbsent(fs: seq<Field>, k: string)
    requires SortedFields(fs) && (fs != [] ==> Less(k, fs[0].key))
    ensures k !in MeaningFields(fs)
  {
    MeaningKeys(fs, k);
    forall i | 0 <= i < |fs| ensures fs[i].key != k {
      LessTotal(k, k);
      if i > 0 {
        SortedPairs(fs, 0, i);
        LessTrans(k, fs[0].key, fs[i].key);
      }
    }
  }

  lemma {:induction false} SortedCanon(r: Rules, fs: seq<Field>)
    ensures SortedFields(CanonFields(r, fs))
  {
    if fs != [] {
      SortedCanon(r, fs[..|fs| - 1]);
      PutSorted(CanonFields(r, fs[..|fs| - 1]), Field(fs[|fs| - 1].key, Canon(r, fs[|fs| - 1].value)));
    }
  }

  lemma {:induction false} MeaningCanon(r: Rules, v: Value)
    ensures Meaning(Canon(r, v)) == Redact(r, Meaning(v))
    decreases v, 1
  {
    match v
    case Map(fs) => MeaningCanonFields(r, fs);
    case List(vs) => MeaningCanonItems(r, vs);
    case _ =>
  }

  function RedactMap(r: Rules, m: map<string, Norm>): map<string, Norm> {
    map k | k in m && !Hidden(r, k) :: Redact(r, m[k])
  }

  lemma RedactPut(r: Rules, m: map<string, Norm>, k: string, x: Norm)
    ensures RedactMap(r, m[k := x]) == if Hidden(r, k) then RedactMap(r, m) else RedactMap(r, m)[k := Redact(r, x)]
  {
  }

  lemma {:induction false} MeaningCanonFields(r: Rules, fs: seq<Field>)
    ensures MeaningFields(CanonFields(r, fs)) == RedactMap(r, MeaningFields(fs))
    decreases fs, 0
  {
    if fs != [] {
      var n := |fs| - 1;
      MeaningCanonFields(r, fs[..n]);
      RedactPut(r, MeaningFields(fs[..n]), fs[n].key, Meaning(fs[n].value));
      if !Hidden(r, fs[n].key) {
        MeaningCanon(r, fs[n].value);
        SortedCanon(r, fs[..n]);
        MeaningPut(CanonFields(r, fs[..n]), Field(fs[n].key, Canon(r, fs[n].value)));
      }
    }
  }

  lemma {:induction false} MeaningCanonItems(r: Rules, vs: seq<Value>)
    ensures NList(MeaningItems(CanonItems(r, vs))) == Redact(r, NList(MeaningItems(vs)))
    ensures |MeaningItems(vs)| == |vs| == |CanonItems(r, vs)|
    decreases vs, 0
  {
    if vs != [] {
      var n := |vs| - 1;
      MeaningCanonItems(r, vs[..n]);
      MeaningCanon(r, vs[n]);
      assert CanonItems(r, vs)[..n] == CanonItems(r, vs[..n]);
    }
  }

  /** Two sorted trees with the same content are the same tree. */
  lemma {:induction false} SortedUnique(r: Rules, v: Value, w: Value)
    requires Safe(r, v) && Safe(r, w) && Meaning(v) == Meaning(w)
    ensures v == w
    decreases v, 1
  {
    match v
    case Map(fs) => SortedFieldsUnique(r, fs, w.fields);
    case List(vs) => SortedItemsUnique(r, vs, w.items);
    case _ =>
  }

  lemma SmallestKey(fs: seq<Field>, gs: seq<Field>)
    requires SortedFields(fs) && SortedFields(gs) && fs != [] && gs != []
    requires MeaningFields(fs).Keys == MeaningFields(gs).Keys
    ensures fs[0].key == gs[0].key
  {
    MeaningKeys(fs, fs[0].key);
    MeaningKeys(gs, fs[0].key);
    MeaningKeys(gs, gs[0].key);
    MeaningKeys(fs, gs[0].key);
    var j :| 0 <= j < |gs| && gs[j].key == fs[0].key;
    var i :| 0 <= i < |fs| && fs[i].key == gs[0].key;
    if j > 0 { SortedPairs(gs, 0, j); }
    if i > 0 { SortedPairs(fs, 0, i); }
    LessTotal(fs[0].key, gs[0].key);
  }

  lemma {:induction false} SortedFieldsUnique(r: Rules, fs: seq<Field>, gs: seq<Field>)
    requires SafeFields(r, fs) && SafeFields(r, gs) && MeaningFields(fs) == MeaningFields(gs)
    ensures fs == gs
    decreases fs, 0
  {
    if fs == [] || gs == [] {
      NoFields(fs);
      NoFields(gs);
    } else {
      SmallestKey(fs, gs);
      FirstMeaning(fs);
      FirstMeaning(gs);
      assert fs == [fs[0]] + fs[1..] && gs == [gs[0]] + gs[1..];
      SortedUnique(r, fs[0].value, gs[0].value);
      SortedFieldsUnique(r, fs[1..], gs[1..]);
    }
  }

  lemma FirstMeaning(fs: seq<Field>)
    requires SortedFields(fs) && fs != []
    ensures fs[0].key in MeaningFields(fs) && MeaningFields(fs)[fs[0].key] == Meaning(fs[0].value)
    ensures MeaningFields(fs[1..]) == MeaningFields(fs) - {fs[0].key}
  {
    assert fs == [fs[0]] + fs[1..];
    MeaningCons(fs[0], fs[1..]);
    TailAbsent(fs);
    var m, k := MeaningFields(fs[1..]), fs[0].key;
    assert map[k := Meaning(fs[0].value)] + m - {k} == m;
  }

  lemma NoFields(fs: seq<Field>)
    ensures MeaningFields(fs) == map[] <==> fs == []
  {
    if fs != [] { MeaningKeys(fs, fs[0].key); }
  }

  lemma TailAbsent(fs: seq<Field>)
    requires SortedFields(fs) && fs != []
    ensures fs[0].key !in MeaningFields(fs[1..])
  {
    if |fs| > 1 { SortedPairs(fs, 0, 1); }
    KeyAbsent(fs[1..], fs[0].key);
  }

  lemma {:induction false} SortedItemsUnique(r: Rules, vs: seq<Value>, ws: seq<Value>)
    requires forall i :: 0 <= i < |vs| ==> Safe(r, vs[i])
    requires forall i :: 0 <= i < |ws| ==> Safe(r, ws[i])
    requires MeaningItems(vs) == MeaningItems(ws)
    ensures vs == ws
    decreases vs, 0
  {
    MeaningLength(vs);
    MeaningLength(ws);
    if vs != [] {
      var n := |vs| - 1;
      assert MeaningItems(vs)[..n] == MeaningItems(vs[..n]);
      assert MeaningItems(ws)[..n] == MeaningItems(ws[..n]);
      assert MeaningItems(vs)[n] == MeaningItems(ws)[n];
      SortedItemsUnique(r, vs[..n], ws[..n]);
      SortedUnique(r, vs[n], ws[n]);
      assert vs == vs[..n] + [vs[n]] && ws == ws[..n] + [ws[n]];
    }
  }

  lemma {:induction false} MeaningLength(vs: seq<Value>)
    ensures |MeaningItems(vs)| == |vs|
    ensures vs != [] ==> |MeaningItems(vs[..|vs| - 1])| == |vs| - 1
  {
    if vs != [] { MeaningLength(vs[..|vs| - 1]); }
  }

  /** The fingerprint input is canonical: two events get the same cleaned tree exactly when they hold
      the same content once redacted, whatever the order of their fields. */
  lemma CanonicalIffSameContent(r: Rules, v: Value, w: Value)
    requires !r.secretText(REDACTED)
    ensures Canon(r, v) == Canon(r, w) <==> Redact(r, Meaning(v)) == Redact(r, Meaning(w))
  {
    MeaningCanon(r, v);
    MeaningCanon(r, w);
    CanonSafe(r, v);
    CanonSafe(r, w);
    if Redact(r, Meaning(v)) == Redact(r, Meaning(w)) { SortedUnique(r, Canon(r, v), Canon(r, w)); }
  }

  /** Reordering fields changes neither the result nor whether the budget refuses it. */
  lemma FieldOrderIrrelevant(r: Rules, v: Value, w: Value, depth: nat, nodes: nat)
    requires !r.secretText(REDACTED) && WellFormed(v) && WellFormed(w) && Meaning(v) == Meaning(w)
    ensures Canon(r, v) == Canon(r, w)
    ensures WithinBudget(r, v, depth, nodes) <==> WithinBudget(r, w, depth, nodes)
  {
    CanonicalIffSameContent(r, v, w);
    CanonBudget(r, v);
    CanonBudget(r, w);
  }
}
