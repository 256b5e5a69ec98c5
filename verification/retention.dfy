/** The bounded evidence store of RejectionEvidence.Collect (deploy/agents/discovery-native.cs): at most
    MAX_RECORDS diagnostics, the newest ones, by the time of their rejection. */
module Retention {
  import opened Wrappers
  import Redaction

  const MAX_RECORDS := 2000

  datatype Evidence = Evidence(id: string, rejectedAt: int, body: string)

  type Records = map<string, Evidence>

  ghost predicate Keyed(m: Records) {
    forall id :: id in m ==> m[id].id == id
  }

  /** Ordered by time, then by id. */
  predicate Earlier(a: Evidence, b: Evidence) {
    a.rejectedAt < b.rejectedAt || (a.rejectedAt == b.rejectedAt && Redaction.Less(a.id, b.id))
  }

  ghost predicate IsOldest(m: Records, o: Evidence) {
    o.id in m && m[o.id] == o && forall id :: id in m && id != o.id ==> Earlier(o, m[id])
  }

  /** One record offered to the store: `lost` is the record refused or evicted, if any. */
  ghost predicate Admits(m: Records, rec: Evidence, next: Records, lost: Option<Evidence>) {
    if rec.id in m then next == m && lost == None
    else if |m| < MAX_RECORDS then next == m[rec.id := rec] && lost == None
    else
      exists o :: IsOldest(m, o) &&
                  if rec.rejectedAt <= o.rejectedAt then next == m && lost == Some(rec)
                  else next == (m - {o.id})[rec.id := rec] && lost == Some(o)
  }

  /** A whole scan: the store before each record and at the end, and the record lost at each step. */
  ghost predicate Scan(run: seq<Records>, incoming: seq<Evidence>, lost: seq<Option<Evidence>>) {
    && |run| == |incoming| + 1 && |lost| == |incoming|
    && forall i :: 0 <= i < |incoming| ==> Admits(run[i], incoming[i], run[i + 1], lost[i])
  }

  ghost predicate DistinctIds(list: seq<Evidence>) {
    forall i, j :: 0 <= i < j < |list| ==> list[i].id != list[j].id
  }

  /** The records of a manifest that are not yet expired. */
  function Recent(list: seq<Evidence>, cutoff: int): (r: seq<Evidence>)
    ensures |r| <= |list|
  {
    if list == [] then []
    else
      var last := list[|list| - 1];
      Recent(list[..|list| - 1], cutoff) + if last.rejectedAt >= cutoff then [last] else []
  }

  /** The map holds exactly the listed records. */
  ghost predicate Holds(m: Records, list: seq<Evidence>) {
    && Keyed(m) && |m| == |list|
    && (forall i :: 0 <= i < |list| ==> list[i].id in m && m[list[i].id] == list[i])
    && (forall id :: id in m ==> m[id] in list)
  }

  lemma {:induction false} RecentPrefix(list: seq<Evidence>, cutoff: int, n: nat)
    requires n <= |list|
    ensures DistinctIds(Recent(list, cutoff)) ==> DistinctIds(Recent(list[..n], cutoff))
    decreases |list|
  {
    if n == |list| {
      assert list[..n] == list;
    } else if DistinctIds(Recent(list, cutoff)) {
      var init := list[..|list| - 1];
      var r, p := Recent(list, cutoff), Recent(init, cutoff);
      assert r[..|p|] == p;
      forall i, j | 0 <= i < j < |p| ensures p[i].id != p[j].id { assert r[i] == p[i] && r[j] == p[j]; }
      assert init[..n] == list[..n];
      RecentPrefix(init, cutoff, n);
    }
  }

  lemma RecentStep(list: seq<Evidence>, cutoff: int, n: nat)
    requires n < |list|
    ensures Recent(list[..n + 1], cutoff) ==
            Recent(list[..n], cutoff) + if list[n].rejectedAt >= cutoff then [list[n]] else []
  {
    assert list[..n + 1][..n] == list[..n];
  }

  lemma HoldsMore(m: Records, held: seq<Evidence>, r: Evidence)
    requires Holds(m, held) && DistinctIds(held)
    ensures DistinctIds(held + [r]) <==> r.id !in m
    ensures r.id !in m ==> Holds(m[r.id := r], held + [r])
  {
    if r.id in m {
      var i :| 0 <= i < |held| && held[i] == m[r.id];
      assert (held + [r])[i].id == (held + [r])[|held|].id;
    } else {
      AddOne(m, r);
      assert forall i :: 0 <= i < |held| ==> (held + [r])[i] == held[i];
      assert (held + [r])[|held|] == r;
    }
  }

  /** One more record of the manifest: an expired one changes nothing, a repeated id spoils it. */
  lemma LoadStep(list: seq<Evidence>, cutoff: int, n: nat, m: Records)
    requires n < |list| && DistinctIds(Recent(list[..n], cutoff)) && Holds(m, Recent(list[..n], cutoff))
    ensures list[n].rejectedAt < cutoff ==> Recent(list[..n + 1], cutoff) == Recent(list[..n], cutoff)
    ensures list[n].rejectedAt >= cutoff && list[n].id in m ==> !DistinctIds(Recent(list, cutoff))
    ensures list[n].rejectedAt >= cutoff && list[n].id !in m ==>
              DistinctIds(Recent(list[..n + 1], cutoff)) && Holds(m[list[n].id := list[n]], Recent(list[..n + 1], cutoff))
    ensures |Recent(list[..n + 1], cutoff)| <= |Recent(list[..n], cutoff)| + 1
  {
    RecentStep(list, cutoff, n);
    HoldsMore(m, Recent(list[..n], cutoff), list[n]);
    if list[n].rejectedAt >= cutoff && list[n].id in m { RecentPrefix(list, cutoff, n + 1); }
  }

  lemma AddOne(m: Records, r: Evidence)
    requires r.id !in m
    ensures |m[r.id := r]| == |m| + 1
  {
    assert m[r.id := r].Keys == m.Keys + {r.id};
  }

  ghost predicate NewestFirst(list: seq<Evidence>) {
    forall i, j :: 0 <= i < j < |list| ==> list[i].rejectedAt >= list[j].rejectedAt
  }

  lemma {:induction false} InsertKeepsOrder(list: seq<Evidence>, r: Evidence)
    requires NewestFirst(list)
    ensures NewestFirst(InsertNewest(list, r))
  {
    if list != [] {
      InsertKeepsOrder(list[1..], r);
      var tail := InsertNewest(list[1..], r);
      forall i | 0 <= i < |tail| ensures tail[i] in tail && (tail[i] == r || tail[i] in list[1..]) {}
    }
  }

  lemma EarlierTrans(a: Evidence, b: Evidence, c: Evidence)
    requires Earlier(a, b) && Earlier(b, c)
    ensures Earlier(a, c)
  {
    if a.rejectedAt == b.rejectedAt == c.rejectedAt { Redaction.LessTrans(a.id, b.id, c.id); }
  }

  lemma RemoveOne(m: Records, id: string)
    requires id in m
    ensures |m - {id}| == |m| - 1
  {
    assert (m - {id}).Keys == m.Keys - {id};
    assert |(m - {id}).Keys| == |m - {id}| && |m.Keys| == |m|;
  }

  class Store {
    var records: Records
    var scanned: nat
    var duplicates: nat
    var partial: bool

    constructor ()
      ensures records == map[] && scanned == duplicates == 0 && !partial
    {
      records, scanned, duplicates, partial := map[], 0, 0, false;
    }

    /** Reading the previous manifest: too many records or a repeated id is an error, expired ones go. */
    method Load(list: seq<Evidence>, cutoff: int) returns (ok: bool)
      requires records == map[]
      modifies this`records
      ensures ok <==> |list| <= MAX_RECORDS && DistinctIds(Recent(list, cutoff))
      ensures ok ==> Holds(records, Recent(list, cutoff)) && |records| <= MAX_RECORDS
    {
      if |list| > MAX_RECORDS { return false; }
      for n := 0 to |list|
        invariant DistinctIds(Recent(list[..n], cutoff)) && Holds(records, Recent(list[..n], cutoff))
        invariant |Recent(list[..n], cutoff)| <= n
      {
        var r := list[n];
        LoadStep(list, cutoff, n, records);
        if r.rejectedAt >= cutoff {
          if r.id in records { return false; }
          records := records[r.id := r];
        }
      }
      assert list[..|list|] == list;
      return true;
    }

    method FindOldest() returns (o: Evidence)
      requires Keyed(records) && records != map[]
      ensures IsOldest(records, o)
    {
      var first :| first in records;
      o := records[first];
      var todo := records.Keys - {first};
      while todo != {}
        invariant todo <= records.Keys && o.id in records && records[o.id] == o && o.id !in todo
        invariant forall id :: id in records && id !in todo && id != o.id ==> Earlier(o, records[id])
        decreases |todo|
      {
        var id :| id in todo;
        todo := todo - {id};
        Redaction.LessTotal(id, o.id);
        if Earlier(records[id], o) {
          forall k | k in records && k !in todo && k != id ensures Earlier(records[id], records[k]) {
            if k != o.id { EarlierTrans(records[id], o, records[k]); }
          }
          o := records[id];
        }
      }
    }

    /** The body of the scan loop for one parsed diagnostic. */
    method Admit(rec: Evidence) returns (ghost lost: Option<Evidence>)
      requires Keyed(records) && |records| <= MAX_RECORDS
      modifies this
      ensures Keyed(records) && |records| <= MAX_RECORDS
      ensures Admits(old(records), rec, records, lost)
      ensures scanned == old(scanned) + 1
      ensures duplicates == old(duplicates) + if rec.id in old(records) then 1 else 0
      ensures partial == (old(partial) || (rec.id !in old(records) && |old(records)| == MAX_RECORDS))
    {
      lost := None;
      scanned := scanned + 1;
      if rec.id in records {
        duplicates := duplicates + 1;
        return;
      }
      if |records| >= MAX_RECORDS {
        partial := true;
        var oldest := FindOldest();
        if rec.rejectedAt <= oldest.rejectedAt {
          lost := Some(rec);
          return;
        }
        lost := Some(oldest);
        RemoveOne(records, oldest.id);
        records := records - {oldest.id};
      }
      records := records[rec.id := rec];
    }

    /** The scan over all parsed diagnostics; the states passed through and the losses are recorded. */
    method Collect(incoming: seq<Evidence>) returns (ghost run: seq<Records>, ghost lost: seq<Option<Evidence>>)
      requires Keyed(records) && |records| <= MAX_RECORDS
      modifies this
      ensures Keyed(records) && |records| <= MAX_RECORDS
      ensures Scan(run, incoming, lost) && run[0] == old(records) && run[|incoming|] == records
    {
      run, lost := [records], [];
      for n := 0 to |incoming|
        invariant Keyed(records) && |records| <= MAX_RECORDS
        invariant Scan(run, incoming[..n], lost) && run[0] == old(records) && run[n] == records
      {
        ghost var out := Admit(incoming[n]);
        run, lost := run + [records], lost + [out];
        assert incoming[..n + 1][n] == incoming[n];
        assert forall i :: 0 <= i < n ==> incoming[..n + 1][i] == incoming[..n][i];
      }
      assert incoming[..|incoming|] == incoming;
    }

    /** The list written to the manifest: newest first; taking at most MAX_RECORDS drops nothing. */
    method Manifest() returns (kept: seq<Evidence>)
      requires Keyed(records) && |records| <= MAX_RECORDS
      ensures |kept| == |records| && forall r :: r in kept <==> r in records.Values
      ensures NewestFirst(kept)
    {
      var sorted: seq<Evidence> := [];
      var todo := records.Keys;
      while todo != {}
        invariant todo <= records.Keys && |sorted| == |records| - |todo|
        invariant forall x :: x in sorted ==> x.id in records && records[x.id] == x
        invariant forall id :: id in records && id !in todo ==> records[id] in sorted
        invariant NewestFirst(sorted)
        decreases |todo|
      {
        var id :| id in todo;
        todo := todo - {id};
        InsertKeepsOrder(sorted, records[id]);
        sorted := InsertNewest(sorted, records[id]);
      }
      kept := Take(sorted, MAX_RECORDS);
    }
  }

  function Take(list: seq<Evidence>, n: nat): seq<Evidence> {
    if |list| > n then list[..n] else list
  }

  function InsertNewest(list: seq<Evidence>, r: Evidence): (out: seq<Evidence>)
    ensures |out| == |list| + 1 && forall x :: x in out <==> x == r || x in list
  {
    if list == [] then [r]
    else if list[0].rejectedAt < r.rejectedAt || (list[0].rejectedAt == r.rejectedAt && Redaction.Less(r.id, list[0].id))
    then [r] + list
    else [list[0]] + InsertNewest(list[1..], r)
  }

  // ----- What a scan retains -----

  lemma Replaced(m: Records, o: Evidence, rec: Evidence)
    requires Keyed(m) && o.id in m && rec.id !in m
    ensures var next := (m - {o.id})[rec.id := rec]; Keyed(next) && |next| == |m|
  {
    RemoveOne(m, o.id);
    AddOne(m - {o.id}, rec);
  }

  lemma AdmitsBounded(m: Records, rec: Evidence, next: Records, lost: Option<Evidence>)
    requires Keyed(m) && |m| <= MAX_RECORDS && Admits(m, rec, next, lost)
    ensures Keyed(next) && |m| <= |next| <= MAX_RECORDS
    ensures lost.Some? ==> |m| == |next| == MAX_RECORDS
  {
    if rec.id !in m {
      AddOne(m, rec);
      if |m| == MAX_RECORDS && next != m {
        var o :| IsOldest(m, o) && next == (m - {o.id})[rec.id := rec];
        Replaced(m, o, rec);
      }
    }
  }

  /** The store never exceeds its limit and never shrinks during a scan. */
  lemma {:induction false} ScanBounded(run: seq<Records>, incoming: seq<Evidence>, lost: seq<Option<Evidence>>, i: nat)
    requires Scan(run, incoming, lost) && Keyed(run[0]) && |run[0]| <= MAX_RECORDS && i <= |incoming|
    ensures Keyed(run[i]) && |run[i]| <= MAX_RECORDS
    ensures i > 0 ==> |run[i - 1]| <= |run[i]|
  {
    if i > 0 {
      ScanBounded(run, incoming, lost, i - 1);
      AdmitsBounded(run[i - 1], incoming[i - 1], run[i], lost[i - 1]);
    }
  }

  /** All held records were rejected at or after the given time. */
  ghost predicate NotBefore(m: Records, time: int) {
    forall id :: id in m ==> time <= m[id].rejectedAt
  }

  /** On a full store one step never lets an older record in, and what it loses is no newer than any
      record it keeps. */
  lemma FullStep(m: Records, rec: Evidence, next: Records, lost: Option<Evidence>, floor: int)
    requires Keyed(m) && |m| == MAX_RECORDS && Admits(m, rec, next, lost) && NotBefore(m, floor)
    ensures NotBefore(next, floor)
    ensures lost.Some? ==> NotBefore(next, lost.value.rejectedAt)
  {
  }

  /** Once the store is full, its oldest time never decreases. */
  lemma {:induction false} OldestNeverDecreases(run: seq<Records>, incoming: seq<Evidence>, lost: seq<Option<Evidence>>,
                                                i: nat, j: nat, floor: int)
    requires Scan(run, incoming, lost) && Keyed(run[0]) && |run[0]| <= MAX_RECORDS && i <= j <= |incoming|
    requires |run[i]| == MAX_RECORDS && NotBefore(run[i], floor)
    ensures |run[j]| == MAX_RECORDS && NotBefore(run[j], floor)
    decreases j
  {
    if i < j {
      OldestNeverDecreases(run, incoming, lost, i, j - 1, floor);
      ScanBounded(run, incoming, lost, j);
      ScanBounded(run, incoming, lost, j - 1);
      FullStep(run[j - 1], incoming[j - 1], run[j], lost[j - 1], floor);
    }
  }

  /** Whatever a scan refuses or evicts is no newer than anything retained at any later point: the
      store holds the newest diagnostics. */
  lemma NewestRetained(run: seq<Records>, incoming: seq<Evidence>, lost: seq<Option<Evidence>>, i: nat, j: nat)
    requires Scan(run, incoming, lost) && Keyed(run[0]) && |run[0]| <= MAX_RECORDS && i < j <= |incoming|
    requires lost[i].Some?
    ensures NotBefore(run[j], lost[i].value.rejectedAt) && |run[j]| == MAX_RECORDS
  {
    ScanBounded(run, incoming, lost, i);
    AdmitsBounded(run[i], incoming[i], run[i + 1], lost[i]);
    var o :| IsOldest(run[i], o);
    FullStep(run[i], incoming[i], run[i + 1], lost[i], o.rejectedAt);
    OldestNeverDecreases(run, incoming, lost, i + 1, j, lost[i].value.rejectedAt);
  }

  /** Every record ever held is still held at the end, or is listed among the lost ones. */
  lemma {:induction false} NoSilentLoss(run: seq<Records>, incoming: seq<Evidence>, lost: seq<Option<Evidence>>,
                                        i: nat, j: nat, r: Evidence)
    requires Scan(run, incoming, lost) && i <= j <= |incoming| && Keyed(run[0]) && |run[0]| <= MAX_RECORDS
    requires r.id in run[i] && run[i][r.id] == r
    ensures (r.id in run[j] && run[j][r.id] == r) || exists k :: i <= k < j && lost[k] == Some(r)
    decreases j
  {
    if i < j {
      NoSilentLoss(run, incoming, lost, i, j - 1, r);
      if r.id in run[j - 1] && run[j - 1][r.id] == r {
        ScanBounded(run, incoming, lost, j - 1);
        assert Admits(run[j - 1], incoming[j - 1], run[j], lost[j - 1]);
      }
    }
  }

  /** Every scanned diagnostic is retained under its id, was a duplicate of a held id, or is lost. */
  lemma EveryRecordAccounted(run: seq<Records>, incoming: seq<Evidence>, lost: seq<Option<Evidence>>, i: nat)
    requires Scan(run, incoming, lost) && Keyed(run[0]) && |run[0]| <= MAX_RECORDS && i < |incoming|
    ensures var r, end := incoming[i], run[|incoming|];
            r.id in run[i] || (r.id in end && end[r.id] == r) || exists k :: 0 <= k < |lost| && lost[k] == Some(r)
  {
    var r := incoming[i];
    assert Admits(run[i], r, run[i + 1], lost[i]);
    if r.id !in run[i] && lost[i] != Some(r) {
      assert r.id in run[i + 1] && run[i + 1][r.id] == r;
      NoSilentLoss(run, incoming, lost, i + 1, |incoming|, r);
    }
  }
}
