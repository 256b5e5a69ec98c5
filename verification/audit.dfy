/** Grouping of audit records by serial in deploy/security-scenarios/collect.py: a group is finished by its
    end record, by a quiet input, or because more than 256 groups are pending; then the oldest goes. */
module AuditGroups {
  import opened Wrappers

  const MAX_PENDING := 256
  const END := "EOE"

  /** A matched audit line; `serial` includes the epoch. */
  datatype Record = Record(serial: string, kind: string, body: string)

  datatype Group = Group(serial: string, rows: seq<Record>)

  /** What the parsing library decides: an epoch can be represented, a group's text can be decoded. */
  datatype Parser = Parser(stampOk: string -> bool, decodes: Group -> bool)

  function Find(groups: seq<Group>, serial: string): (k: Option<nat>)
    ensures k.Some? ==> k.value < |groups| && groups[k.value].serial == serial
    ensures k.None? ==> forall i :: 0 <= i < |groups| ==> groups[i].serial != serial
  {
    if groups == [] then None
    else if groups[0].serial == serial then Some(0)
    else
      var rest := Find(groups[1..], serial);
      if rest.None? then
        assert forall i :: 0 < i < |groups| ==> groups[i] == groups[1..][i - 1];
        None
      else Some(rest.value + 1)
  }

  /** The matched records that entered a group: all but those opening a group with an impossible time. */
  predicate Accepted(p: Parser, pending: seq<Group>, r: Record) {
    Find(pending, r.serial).Some? || p.stampOk(r.serial)
  }

  function Added(pending: seq<Group>, r: Record): seq<Group> {
    var k := Find(pending, r.serial);
    if k.None? then pending + [Group(r.serial, [r])]
    else pending[k.value := Group(r.serial, pending[k.value].rows + [r])]
  }

  function RemoveAt(groups: seq<Group>, k: nat): seq<Group>
    requires k < |groups|
  {
    groups[..k] + groups[k + 1..]
  }

  class Table {
    const parser: Parser
    var pending: seq<Group>
    var finished: seq<Group>          // in the order they left the table
    ghost var accepted: seq<Record>

    ghost predicate Valid()
      reads this
    {
      Consistent(pending, finished, accepted)
    }

    constructor (parser: Parser)
      ensures Valid() && pending == [] && finished == [] && accepted == [] && this.parser == parser
    {
      this.parser := parser;
      pending, finished, accepted := [], [], [];
    }

    /** finish: the group leaves the table before its events are emitted, so it is gone even when
        decoding its text raises. */
    method Finish(k: nat) returns (raised: bool)
      requires Valid() && k < |pending|
      modifies this`pending, this`finished
      ensures Valid() && raised == !parser.decodes(old(pending)[k])
      ensures pending == RemoveAt(old(pending), k) && finished == old(finished) + [old(pending)[k]]
    {
      var g := pending[k];
      Moved(pending, finished, accepted, k);
      pending := RemoveAt(pending, k);
      finished := finished + [g];
      raised := !parser.decodes(g);
    }

    /** One matched line. */
    method OnRecord(r: Record)
      requires Valid() && |pending| <= MAX_PENDING
      modifies this
      ensures Valid() && |pending| <= MAX_PENDING
      ensures accepted == old(accepted) + if Accepted(parser, old(pending), r) then [r] else []
      ensures !Accepted(parser, old(pending), r) ==> pending == old(pending) && finished == old(finished)
      ensures Accepted(parser, old(pending), r) ==> Outcome(Added(old(pending), r), r, old(finished), pending, finished)
    {
      var known := Find(pending, r.serial);
      if known.None? && !parser.stampOk(r.serial) { return; }
      AddedConsistent(pending, finished, accepted, r);
      pending := Added(pending, r);
      accepted := accepted + [r];
      if r.kind == END {
        var k := Find(pending, r.serial);
        var raised := Finish(k.value);
        if raised { return; }
      }
      if |pending| > MAX_PENDING {
        var _ := Finish(0);
      }
    }

    /** A quiet input: everything pending is finished, oldest first, unless decoding one raises. */
    method OnQuiet() returns (raised: bool)
      requires Valid()
      modifies this
      ensures Valid() && accepted == old(accepted)
      ensures finished + pending == old(finished) + old(pending)
      ensures raised || pending == []
    {
      while pending != []
        invariant Valid() && accepted == old(accepted)
        invariant finished + pending == old(finished) + old(pending)
        decreases |pending|
      {
        raised := Finish(0);
        if raised { return; }
      }
      raised := false;
    }
  }

  /** A record either completes its group, which leaves; or makes the table too full, and then the oldest
      group leaves; or just joins. */
  ghost predicate Outcome(full: seq<Group>, r: Record, before: seq<Group>, pending: seq<Group>, finished: seq<Group>) {
    if r.kind == END then
      exists k :: 0 <= k < |full| && full[k].serial == r.serial &&
                  pending == RemoveAt(full, k) && finished == before + [full[k]]
    else if |full| > MAX_PENDING then pending == full[1..] && finished == before + [full[0]]
    else pending == full && finished == before
  }

  // ----- No record is lost, duplicated or reordered within its serial -----

  /** The records of one serial, in order. */
  function Of(records: seq<Record>, serial: string): seq<Record> {
    if records == [] then []
    else Of(records[..|records| - 1], serial) + if records[|records| - 1].serial == serial then [records[|records| - 1]] else []
  }

  function RowsOf(groups: seq<Group>, serial: string): seq<Record> {
    if groups == [] then []
    else RowsOf(groups[..|groups| - 1], serial) + if groups[|groups| - 1].serial == serial then groups[|groups| - 1].rows else []
  }

  ghost predicate UniqueSerials(groups: seq<Group>) {
    forall i, j :: 0 <= i < j < |groups| ==> groups[i].serial != groups[j].serial
  }

  /** For every serial, the finished groups followed by the pending one hold exactly the accepted records
      of that serial, in the order they arrived. */
  ghost predicate Consistent(pending: seq<Group>, finished: seq<Group>, accepted: seq<Record>) {
    && UniqueSerials(pending)
    && forall s :: RowsOf(finished, s) + RowsOf(pending, s) == Of(accepted, s)
  }

  lemma {:induction false} RowsAppend(a: seq<Group>, b: seq<Group>, s: string)
    ensures RowsOf(a + b, s) == RowsOf(a, s) + RowsOf(b, s)
    decreases |b|
  {
    if b == [] {
      assert a + b == a;
    } else {
      var n := |b| - 1;
      assert (a + b)[..|a| + n] == a + b[..n];
      RowsAppend(a, b[..n], s);
    }
  }

  lemma RowsOne(g: Group, s: string)
    ensures RowsOf([g], s) == if g.serial == s then g.rows else []
  {
    assert [g][..0] == [];
  }

  lemma {:induction false} RowsNone(groups: seq<Group>, s: string)
    requires forall i :: 0 <= i < |groups| ==> groups[i].serial != s
    ensures RowsOf(groups, s) == []
  {
    if groups != [] { RowsNone(groups[..|groups| - 1], s); }
  }

  /** Splitting a table at one group. */
  lemma RowsSplit(groups: seq<Group>, k: nat, s: string)
    requires k < |groups|
    ensures RowsOf(groups, s)
         == RowsOf(groups[..k], s) + ((if groups[k].serial == s then groups[k].rows else []) + RowsOf(groups[k + 1..], s))
    ensures RowsOf(RemoveAt(groups, k), s) == RowsOf(groups[..k], s) + RowsOf(groups[k + 1..], s)
  {
    assert groups == groups[..k] + ([groups[k]] + groups[k + 1..]);
    RowsAppend(groups[..k], [groups[k]] + groups[k + 1..], s);
    RowsAppend([groups[k]], groups[k + 1..], s);
    RowsOne(groups[k], s);
    RowsAppend(groups[..k], groups[k + 1..], s);
  }

  lemma OthersEmpty(groups: seq<Group>, k: nat)
    requires UniqueSerials(groups) && k < |groups|
    ensures RowsOf(groups[..k], groups[k].serial) == [] && RowsOf(groups[k + 1..], groups[k].serial) == []
  {
    RowsNone(groups[..k], groups[k].serial);
    RowsNone(groups[k + 1..], groups[k].serial);
  }

  lemma MovedRows(pending: seq<Group>, finished: seq<Group>, k: nat, s: string)
    requires UniqueSerials(pending) && k < |pending|
    ensures RowsOf(finished + [pending[k]], s) + RowsOf(RemoveAt(pending, k), s) == RowsOf(finished, s) + RowsOf(pending, s)
  {
    RowsAppend(finished, [pending[k]], s);
    RowsOne(pending[k], s);
    RowsSplit(pending, k, s);
    if pending[k].serial == s { OthersEmpty(pending, k); }
    var g := if pending[k].serial == s then pending[k].rows else [];
    Regroup(RowsOf(finished, s), g, RowsOf(pending[..k], s), RowsOf(pending[k + 1..], s));
  }

  lemma Regroup(f: seq<Record>, g: seq<Record>, a: seq<Record>, b: seq<Record>)
    requires g == [] || a == []
    ensures (f + g) + (a + b) == f + (a + (g + b))
  {
  }

  lemma Moved(pending: seq<Group>, finished: seq<Group>, accepted: seq<Record>, k: nat)
    requires Consistent(pending, finished, accepted) && k < |pending|
    ensures Consistent(RemoveAt(pending, k), finished + [pending[k]], accepted)
  {
    forall s ensures RowsOf(finished + [pending[k]], s) + RowsOf(RemoveAt(pending, k), s) == Of(accepted, s) {
      MovedRows(pending, finished, k, s);
    }
  }

  lemma AddedRows(pending: seq<Group>, r: Record, s: string)
    requires UniqueSerials(pending)
    ensures RowsOf(Added(pending, r), s) == RowsOf(pending, s) + if r.serial == s then [r] else []
  {
    var k := Find(pending, r.serial);
    if k.None? {
      RowsAppend(pending, [Group(r.serial, [r])], s);
      RowsOne(Group(r.serial, [r]), s);
    } else {
      JoinedRows(pending, r, k.value, s);
    }
  }

  /** A record joins the pending group at k. */
  lemma JoinedRows(pending: seq<Group>, r: Record, k: nat, s: string)
    requires UniqueSerials(pending) && k < |pending| && pending[k].serial == r.serial
    ensures RowsOf(pending[k := Group(r.serial, pending[k].rows + [r])], s) == RowsOf(pending, s) + if r.serial == s then [r] else []
  {
    var g := Group(r.serial, pending[k].rows + [r]);
    var next := pending[k := g];
    assert next[..k] == pending[..k] && next[k + 1..] == pending[k + 1..];
    RowsSplit(pending, k, s);
    RowsSplit(next, k, s);
    if r.serial == s {
      OthersEmpty(pending, k);
      Amid(RowsOf(pending[..k], s), pending[k].rows, RowsOf(pending[k + 1..], s));
      Amid(RowsOf(pending[..k], s), g.rows, RowsOf(pending[k + 1..], s));
    } else {
      Ended(RowsOf(pending, s));
    }
  }

  lemma Amid(a: seq<Record>, g: seq<Record>, b: seq<Record>)
    requires a == [] && b == []
    ensures a + (g + b) == g
  {
  }

  lemma Ended(a: seq<Record>)
    ensures a + [] == a
  {
  }

  lemma OfSnoc(accepted: seq<Record>, r: Record, s: string)
    ensures Of(accepted + [r], s) == Of(accepted, s) + if r.serial == s then [r] else []
  {
    assert (accepted + [r])[..|accepted|] == accepted;
  }

  lemma AddedUnique(pending: seq<Group>, r: Record)
    requires UniqueSerials(pending)
    ensures UniqueSerials(Added(pending, r))
    ensures |pending| <= |Added(pending, r)| <= |pending| + 1 && Find(Added(pending, r), r.serial).Some?
  {
    var next, k := Added(pending, r), Find(pending, r.serial);
    var at := if k.Some? then k.value else |pending|;
    assert next[at].serial == r.serial;
    forall i, j | 0 <= i < j < |next| ensures next[i].serial != next[j].serial {
      assert i != at ==> next[i].serial == pending[i].serial;
      assert j != at ==> next[j].serial == pending[j].serial;
    }
  }

  lemma AddedOf(pending: seq<Group>, finished: seq<Group>, accepted: seq<Record>, r: Record, s: string)
    requires UniqueSerials(pending) && RowsOf(finished, s) + RowsOf(pending, s) == Of(accepted, s)
    ensures RowsOf(finished, s) + RowsOf(Added(pending, r), s) == Of(accepted + [r], s)
  {
    var one := if r.serial == s then [r] else [];
    AddedRows(pending, r, s);
    OfSnoc(accepted, r, s);
    Together(RowsOf(finished, s), RowsOf(pending, s), one);
  }

  lemma Together(a: seq<Record>, b: seq<Record>, c: seq<Record>)
    ensures a + (b + c) == (a + b) + c
  {
  }

  lemma AddedConsistent(pending: seq<Group>, finished: seq<Group>, accepted: seq<Record>, r: Record)
    requires Consistent(pending, finished, accepted)
    ensures Consistent(Added(pending, r), finished, accepted + [r])
    ensures |pending| <= |Added(pending, r)| <= |pending| + 1 && Find(Added(pending, r), r.serial).Some?
  {
    AddedUnique(pending, r);
    forall s ensures RowsOf(finished, s) + RowsOf(Added(pending, r), s) == Of(accepted + [r], s) {
      AddedOf(pending, finished, accepted, r, s);
    }
  }

  /** Every accepted record is in exactly one group, counted with multiplicity. */
  lemma {:induction false} InExactlyOneGroup(pending: seq<Group>, finished: seq<Group>, accepted: seq<Record>, r: Record)
    requires Consistent(pending, finished, accepted)
    ensures multiset(accepted)[r] == multiset(RowsOf(finished, r.serial))[r] + multiset(RowsOf(pending, r.serial))[r]
  {
    OfCounts(accepted, r);
    assert RowsOf(finished, r.serial) + RowsOf(pending, r.serial) == Of(accepted, r.serial);
  }

  lemma {:induction false} OfCounts(records: seq<Record>, r: Record)
    ensures multiset(Of(records, r.serial))[r] == multiset(records)[r]
  {
    if records != [] {
      var n := |records| - 1;
      OfCounts(records[..n], r);
      assert records == records[..n] + [records[n]];
    }
  }
}
