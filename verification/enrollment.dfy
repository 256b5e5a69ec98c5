/** Installation and re-enrollment of a collector: deploy/agents/enrollment-linux.py
    (`retire_removed_receipts`, `validate_failed`, `execute`).

    All commands run under one lock.  What a command does on a disk is its plan; an exception inside the
    guarded part of `execute` cuts the plan short and, unless the probe was verified, stops the services of the
    marked roots and records the failure. */
module Enrollment {
  import opened Wrappers
  import opened CollectorDisk

  predicate Finished(a: Archive) {
    a.operation.Some? && a.operation.value.progress == Removed && !a.operation.value.preserved
  }

  // ----- Retiring the receipts of finished deletions -----

  /** The directory listing: any order, each directory at least once. */
  function Listing(k: Disk, order: seq<nat>): seq<nat> {
    order + seq(k.names, i => i)
  }

  /** The row of a finished deletion may be archived: same device, and nothing of the collector is left. */
  predicate RowRetirable(k: Disk, a: Archive, row: Receipt)
    requires a.operation.Some?
  {
    && row.phase == Complete && row.spec.device != "" && row.spec.device == a.operation.value.device
    && (forall s :: s in RoleSet(row.spec) ==> s !in k.roots && s !in a.trees)
    && UnitSet(row.spec) !! k.units && a.receipt.None?
  }

  predicate Retirable(k: Disk, id: nat)
    requires id in k.retired
  {
    var a := k.retired[id];
    Finished(a) &&
    (a.operation.value.session in k.complete ==> RowRetirable(k, a, k.complete[a.operation.value.session]))
  }

  function RetireOps(k: Disk, id: nat): seq<Op>
    requires id in k.retired && Finished(k.retired[id])
  {
    var session := k.retired[id].operation.value.session;
    if session in k.complete then [ArchiveReceipt(id, session)] else []
  }

  ghost function RetirePlan(k: Disk, listing: seq<nat>): Plan
    decreases |listing|
  {
    if listing == [] then Plan([], Ok)
    else if listing[0] !in k.retired then RetirePlan(k, listing[1..])
    else if !Retirable(k, listing[0]) then Plan([], Refused)
    else
      var ops := RetireOps(k, listing[0]);
      Then(Plan(ops, Ok), RetirePlan(Exec(k, ops), listing[1..]))
  }

  method RetireRemoved(m: Machine, order: seq<nat>) returns (outcome: Outcome)
    modifies m
    ensures Ran(old(m.disk), old(m.fuse), RetirePlan(old(m.disk), Listing(old(m.disk), order)), m.disk, m.fuse, outcome)
  {
    var listing := Listing(m.disk, order);
    ghost var was, fuel, done := m.disk, m.fuse, [];
    DidNothing(was, fuel);
    ThenNothing(RetirePlan(was, listing));
    for i := 0 to |listing|
      invariant Did(was, fuel, done, m.disk, m.fuse, true)
      invariant RetirePlan(was, listing) == Then(Plan(done, Ok), RetirePlan(m.disk, listing[i..]))
    {
      var id := listing[i];
      assert listing[i..][0] == id && listing[i..][1..] == listing[i + 1..];
      if id in m.disk.retired {
        if !Retirable(m.disk, id) {
          assert done + [] == done;
          return Refused;
        }
        var session := m.disk.retired[id].operation.value.session;
        ghost var mid, left, op := m.disk, m.fuse, ArchiveReceipt(id, session);
        if session in m.disk.complete {
          ghost var rest := RetirePlan(Exec(mid, [op]), listing[i + 1..]);
          var alive := m.Do(ArchiveReceipt(id, session));
          DidThen(was, fuel, done, mid, left, [op], m.disk, m.fuse, alive);
          ThenOne(done, op, rest);
          done := done + [op];
          if !alive {
            DidStop(was, fuel, done, m.disk, m.fuse, rest.ops);
            return Killed;
          }
          AfterAll(mid, [op], left);
        } else {
          AfterNone(mid, []);
          ThenNothing(RetirePlan(mid, listing[i + 1..]));
        }
      }
    }
    assert listing[|listing|..] == [] && done + [] == done;
    return Ok;
  }

  lemma ThenNothing(p: Plan)
    ensures Then(Plan([], Ok), p) == p
  {
    assert [] + p.ops == p.ops;
  }

  lemma ThenOne(done: seq<Op>, op: Op, rest: Plan)
    ensures Then(Plan(done, Ok), Then(Plan([op], Ok), rest)) == Then(Plan(done + [op], Ok), rest)
  {
    assert done + ([op] + rest.ops) == (done + [op]) + rest.ops;
  }

  /** Between the two disks only completion receipts moved, each into the archive of its finished deletion. */
  ghost predicate OnlyReceiptsArchived(k: Disk, next: Disk) {
    && next == k.(retired := next.retired, complete := next.complete)
    && next.retired.Keys == k.retired.Keys
    && (forall a :: a in k.retired ==> next.retired[a].operation == k.retired[a].operation && next.retired[a].trees == k.retired[a].trees)
    && (forall s :: s in next.complete ==> s in k.complete && next.complete[s] == k.complete[s])
    && (forall s :: s in k.complete && s !in next.complete ==> DeletionOf(k, s))
  }

  ghost predicate DeletionOf(k: Disk, session: string) {
    exists a :: a in k.retired && Finished(k.retired[a]) && k.retired[a].operation.value.session == session
  }

  lemma OnlyReceiptsTransitive(a: Disk, b: Disk, c: Disk)
    requires OnlyReceiptsArchived(a, b) && OnlyReceiptsArchived(b, c)
    ensures OnlyReceiptsArchived(a, c)
  {
    forall s | s in a.complete && s !in c.complete ensures DeletionOf(a, s) {
      if s in b.complete {
        var id :| id in b.retired && Finished(b.retired[id]) && b.retired[id].operation.value.session == s;
        assert id in a.retired && Finished(a.retired[id]);
      }
    }
  }

  lemma ArchiveReceiptMoves(k: Disk, id: nat)
    requires id in k.retired && Finished(k.retired[id])
    ensures OnlyReceiptsArchived(k, Exec(k, RetireOps(k, id)))
  {
    var session := k.retired[id].operation.value.session;
    if session in k.complete {
      ExecOne(k, ArchiveReceipt(id, session));
      var next := Exec(k, RetireOps(k, id));
      assert next.retired.Keys == k.retired.Keys;
      assert DeletionOf(k, session);
    }
  }

  /** Wherever it stops, retiring only archives receipts of finished deletions. */
  lemma {:induction false} RetireStop(k: Disk, listing: seq<nat>, fuse: nat)
    ensures OnlyReceiptsArchived(k, Reached(k, RetirePlan(k, listing), fuse))
    decreases |listing|
  {
    assert Exec(k, []) == k;
    if listing != [] {
      if listing[0] !in k.retired {
        RetireStop(k, listing[1..], fuse);
      } else if Retirable(k, listing[0]) {
        var ops := RetireOps(k, listing[0]);
        var mid, rest := Exec(k, ops), RetirePlan(Exec(k, ops), listing[1..]);
        ArchiveReceiptMoves(k, listing[0]);
        AfterAppend(k, ops, rest.ops, fuse);
        if fuse >= |ops| {
          RetireStop(mid, listing[1..], fuse - |ops|);
          OnlyReceiptsTransitive(k, mid, Reached(mid, rest, fuse - |ops|));
        } else {
          assert ops[..fuse] == [];
        }
      }
    }
  }

  lemma {:induction false} RetireShape(k: Disk, listing: seq<nat>)
    ensures RetirePlan(k, listing).outcome in {Ok, Refused}
    ensures forall i :: 0 <= i < |RetirePlan(k, listing).ops| ==> RetirePlan(k, listing).ops[i].ArchiveReceipt?
    decreases |listing|
  {
    if listing != [] {
      if listing[0] !in k.retired {
        RetireShape(k, listing[1..]);
      } else if Retirable(k, listing[0]) {
        RetireShape(Exec(k, RetireOps(k, listing[0])), listing[1..]);
      }
    }
  }

  /** The i-th listed archive is a finished deletion whose receipt, unless an earlier one takes it, may be archived. */
  predicate AcceptedAt(k: Disk, listing: seq<nat>, i: nat)
    requires i < |listing|
  {
    var id := listing[i];
    id in k.retired ==>
      && Finished(k.retired[id])
      && var session := k.retired[id].operation.value.session;
      session in k.complete && !TakenBefore(k, listing, i, session) ==> RowRetirable(k, k.retired[id], k.complete[session])
  }

  predicate TakenBefore(k: Disk, listing: seq<nat>, i: nat, session: string)
    requires i <= |listing|
  {
    exists j :: 0 <= j < i && listing[j] in k.retired && k.retired[listing[j]].operation.Some?
                && k.retired[listing[j]].operation.value.session == session
  }

  /** Retiring is accepted exactly when every listed archive is. */
  lemma {:induction false} RetireExact(k: Disk, listing: seq<nat>)
    ensures RetirePlan(k, listing).outcome == Ok <==> forall i :: 0 <= i < |listing| ==> AcceptedAt(k, listing, i)
    decreases |listing|
  {
    if listing != [] {
      var id := listing[0];
      if id !in k.retired {
        RetireExact(k, listing[1..]);
        forall i | 0 <= i < |listing| - 1 ensures AcceptedAt(k, listing[1..], i) == AcceptedAt(k, listing, i + 1) {
          AcceptedLater(k, listing, i);
        }
        AllLater(k, k, listing);
      } else if Retirable(k, id) {
        var next := Exec(k, RetireOps(k, id));
        RetireExact(next, listing[1..]);
        forall i | 0 <= i < |listing| - 1 ensures AcceptedAt(next, listing[1..], i) == AcceptedAt(k, listing, i + 1) {
          AcceptedAfter(k, listing, i);
        }
        assert AcceptedAt(k, listing, 0);
        AllLater(k, next, listing);
      } else {
        assert !AcceptedAt(k, listing, 0);
      }
    }
  }

  lemma AllLater(k: Disk, next: Disk, listing: seq<nat>)
    requires listing != [] && AcceptedAt(k, listing, 0)
    requires forall i :: 0 <= i < |listing| - 1 ==> AcceptedAt(next, listing[1..], i) == AcceptedAt(k, listing, i + 1)
    ensures (forall i :: 0 <= i < |listing| - 1 ==> AcceptedAt(next, listing[1..], i))
       <==> forall i :: 0 <= i < |listing| ==> AcceptedAt(k, listing, i)
  {
    if forall i :: 0 <= i < |listing| - 1 ==> AcceptedAt(next, listing[1..], i) {
      forall i | 0 <= i < |listing| ensures AcceptedAt(k, listing, i) {
        assert i > 0 ==> AcceptedAt(next, listing[1..], i - 1) == AcceptedAt(k, listing, i - 1 + 1);
      }
    }
  }

  lemma AcceptedLater(k: Disk, listing: seq<nat>, i: nat)
    requires i + 1 < |listing| && listing[0] !in k.retired
    ensures AcceptedAt(k, listing[1..], i) == AcceptedAt(k, listing, i + 1)
  {
    forall session ensures TakenBefore(k, listing[1..], i, session) == TakenBefore(k, listing, i + 1, session) {
      TakenShift(k, listing, i, session);
    }
  }

  lemma TakenShift(k: Disk, listing: seq<nat>, i: nat, session: string)
    requires i + 1 <= |listing|
    ensures TakenBefore(k, listing, i + 1, session) <==> TakenBefore(k, listing, 1, session) || TakenBefore(k, listing[1..], i, session)
  {
    if TakenBefore(k, listing, i + 1, session) {
      var j :| 0 <= j < i + 1 && listing[j] in k.retired && k.retired[listing[j]].operation.Some?
               && k.retired[listing[j]].operation.value.session == session;
      assert j > 0 ==> listing[1..][j - 1] == listing[j];
    }
    if TakenBefore(k, listing[1..], i, session) {
      var j :| 0 <= j < i && listing[1..][j] in k.retired && k.retired[listing[1..][j]].operation.Some?
               && k.retired[listing[1..][j]].operation.value.session == session;
      assert listing[j + 1] == listing[1..][j];
    }
  }

  lemma AcceptedAfter(k: Disk, listing: seq<nat>, i: nat)
    requires i + 1 < |listing| && listing[0] in k.retired && Retirable(k, listing[0])
    ensures AcceptedAt(Exec(k, RetireOps(k, listing[0])), listing[1..], i) == AcceptedAt(k, listing, i + 1)
  {
    var id, next := listing[i + 1], Exec(k, RetireOps(k, listing[0]));
    var taken := k.retired[listing[0]].operation.value.session;
    ArchiveReceiptMoves(k, listing[0]);
    if taken in k.complete { ExecOne(k, ArchiveReceipt(listing[0], taken)); }
    if id in k.retired && Finished(k.retired[id]) {
      var session := k.retired[id].operation.value.session;
      TakenShift(k, listing, i, session);
      TakenSame(k, next, listing[1..], i, session);
      assert listing[1..][i] == id;
      if session == taken {
        assert TakenBefore(k, listing, 1, session);
      } else {
        assert id != listing[0];
        assert next.retired[id] == k.retired[id];
        assert session in next.complete <==> session in k.complete;
      }
    }
  }

  lemma TakenSame(k: Disk, next: Disk, listing: seq<nat>, i: nat, session: string)
    requires OnlyReceiptsArchived(k, next) && i <= |listing|
    ensures TakenBefore(k, listing, i, session) == TakenBefore(next, listing, i, session)
  {
  }

  /** When retiring is accepted, every retired record is a finished deletion. */
  lemma RetiredAllFinished(k: Disk, order: seq<nat>)
    requires Inv(k) && RetirePlan(k, Listing(k, order)).outcome == Ok
    ensures forall a :: a in k.retired ==> Finished(k.retired[a])
  {
    var listing := Listing(k, order);
    RetireExact(k, listing);
    forall a | a in k.retired ensures Finished(k.retired[a]) {
      assert listing[|order| + a] == a;
      assert AcceptedAt(k, listing, |order| + a);
    }
  }

  /** One archive that is not a finished deletion is enough to refuse. */
  lemma UnfinishedRefused(k: Disk, order: seq<nat>, id: nat)
    requires Inv(k) && id in k.retired && !Finished(k.retired[id])
    ensures RetirePlan(k, Listing(k, order)).outcome == Refused
  {
    var listing := Listing(k, order);
    RetireExact(k, listing);
    RetireShape(k, listing);
    assert listing[|order| + id] == id;
    assert !AcceptedAt(k, listing, |order| + id);
  }

  // ----- Installing and re-enrolling -----

  /** What the environment contributes to an attempt. */
  datatype Course = Course(
    enrolled: bool,            // the portal accepted the enrollment
    laid: Both<Files>,         // files that the installer scripts lay down
    seeded: Both<set<nat>>,    // keys and state they create
    configured: Both<Files>,   // files once the probe marker is in the configuration
    keyed: Both<Files>,        // files once the new key is in the keystore
    gathered: Both<set<nat>>,  // data collected while the services run
    raises: Option<nat>)       // an exception comes in place of this operation of the guarded part

  /** stable: the roots bear the owner's mark and the units are there. */
  predicate IsStable(k: Disk, spec: Spec, owner: string) {
    && (forall s :: s in RoleSet(spec) ==> s in k.roots && k.roots[s].owner == Some(owner))
    && UnitSet(spec) <= k.units
  }

  function FilesOf(k: Disk, spec: Spec): map<Scope, Files> {
    map s | s in RoleSet(spec) && s in k.roots :: k.roots[s].files
  }

  /** Every existing root of the bundle bears the owner's mark. */
  predicate Marked(k: Disk, spec: Spec, owner: string) {
    forall s :: s in RoleSet(spec) && s in k.roots ==> k.roots[s].owner == Some(owner)
  }

  /** What the pending receipt says of the roots still holds. */
  predicate Agrees(k: Disk, spec: Spec, r: Receipt) {
    && r.phase != Complete && r.spec.network == spec.network
    && if r.files != map[] then IsStable(k, spec, r.owner) && FilesOf(k, spec) == r.files else Marked(k, spec, r.owner)
  }

  /** The pending receipt records no files: its roots are partial. */
  predicate PartialPending(k: Disk) {
    k.pending.Some? && k.pending.value.files == map[]
  }

  predicate Consistent(k: Disk, spec: Spec) {
    k.pending.Some? && Agrees(k, spec, k.pending.value)
  }

  /** validate_failed: the pending receipt may be re-enrolled. */
  predicate Repeatable(k: Disk, spec: Spec) {
    Consistent(k, spec) && Idle(k, spec)
  }

  function FilesFor(spec: Spec, files: Both<Files>): (m: map<Scope, Files>)
    ensures m != map[]
  {
    var m := map s | s in RoleSet(spec) :: files.Of(s);
    assert HostScope in m;
    m
  }

  function Script(s: Scope, owner: string, course: Course): (r: seq<Op>)
    ensures |r| == 4
  {
    [MakeRoot(s), MarkRoot(s, owner), Populate(s, course.laid.Of(s), course.seeded.Of(s)), PlaceUnits(s)]
  }

  function Scripts(roles: seq<Scope>, owner: string, course: Course): (r: seq<Op>)
    ensures |r| == 4 * |roles|
  {
    if roles == [] then [] else Scripts(roles[..|roles| - 1], owner, course) + Script(roles[|roles| - 1], owner, course)
  }

  function Rewrites(roles: seq<Scope>, files: Both<Files>): (r: seq<Op>)
    ensures |r| == |roles|
  {
    seq(|roles|, i requires 0 <= i < |roles| => Rewrite(roles[i], files.Of(roles[i])))
  }

  function Gathers(roles: seq<Scope>, data: Both<set<nat>>): (r: seq<Op>)
    ensures |r| == |roles|
  {
    seq(|roles|, i requires 0 <= i < |roles| => Gather(roles[i], data.Of(roles[i])))
  }

  function SetAsides(roles: seq<Scope>, id: nat): (r: seq<Op>)
    ensures |r| == |roles|
  {
    seq(|roles|, i requires 0 <= i < |roles| => SetAside(id, roles[i]))
  }

  function MoveUnits(units: seq<Unit>, id: nat): (r: seq<Op>)
    ensures |r| == |units|
  {
    seq(|units|, i requires 0 <= i < |units| => MoveUnit(id, units[i]))
  }

  /** The units that are started and stay active: discovery.service is of type oneshot. */
  function StartUnits(spec: Spec): (r: seq<Unit>)
    ensures |r| == |Roles(spec)| + 1
  {
    if spec.network then [Service(HostScope), Service(NetworkScope), DiscoveryTimer] else [Service(HostScope), DiscoveryTimer]
  }

  function StartOps(units: seq<Unit>): (r: seq<Op>)
    ensures |r| == |units|
  {
    seq(|units|, i requires 0 <= i < |units| => Start(units[i]))
  }

  function StopOps(units: seq<Unit>): (r: seq<Op>)
    ensures |r| == |units|
  {
    seq(|units|, i requires 0 <= i < |units| => Stop(units[i]))
  }

  function Receipts(spec: Spec, owner: string, session: string, files: map<Scope, Files>): seq<Op> {
    [Probe(session), WriteComplete(Receipt(Complete, owner, spec, session, files)), DropPending]
  }

  /** The services start, the probe is awaited, the completion receipt is written, the pending one removed. */
  function Tail(spec: Spec, owner: string, session: string, files: map<Scope, Files>, course: Course): seq<Op> {
    [WritePending(Receipt(Starting, owner, spec, session, files))] +
    (StartOps(StartUnits(spec)) + (Gathers(Roles(spec), course.gathered) + Receipts(spec, owner, session, files)))
  }

  function Preparation(spec: Spec, owner: string, session: string): Op {
    WritePending(Receipt(Preparing, owner, spec, session, map[]))
  }

  function FreshOps(spec: Spec, session: string, owner: string, course: Course): seq<Op> {
    [Preparation(spec, owner, session)] +
    (Scripts(Roles(spec), owner, course) + Tail(spec, owner, session, FilesFor(spec, course.laid), course))
  }

  function IntactOps(spec: Spec, session: string, owner: string, course: Course): seq<Op> {
    Rewrites(Roles(spec), course.configured) +
    ([Preparation(spec, owner, session)] +
     (Rewrites(Roles(spec), course.keyed) + Tail(spec, owner, session, FilesFor(spec, course.keyed), course)))
  }

  /** Partial roots and units are moved into a new backup directory. */
  function AsideOps(spec: Spec, id: nat): seq<Op> {
    [MakeBackup] + (SetAsides(Roles(spec), id) + MoveUnits(Units(spec), id))
  }

  /** The guarded part of execute; the owner changes once `turn` operations are done. */
  datatype Attempt = Attempt(ops: seq<Op>, early: string, late: string, turn: nat) {
    function OwnerAt(n: nat): string { if n < turn then early else late }
  }

  function Fresh(spec: Spec, session: string, owner: string, course: Course): Attempt {
    Attempt(FreshOps(spec, session, owner, course), owner, owner, 0)
  }

  function Intact(spec: Spec, session: string, owner: string, course: Course): Attempt {
    Attempt(IntactOps(spec, session, owner, course), owner, owner, 0)
  }

  function Partial(k: Disk, spec: Spec, session: string, owner: string, newOwner: string, course: Course): Attempt {
    var aside := AsideOps(spec, k.names);
    Attempt(aside + FreshOps(spec, session, newOwner, course), owner, newOwner, |aside|)
  }

  function FailureRecord(k: Disk, spec: Spec, owner: string, session: string): Receipt {
    Receipt(Failing, owner, spec, session, if IsStable(k, spec, owner) then FilesOf(k, spec) else map[])
  }

  /** The units of the roots that bear the owner's mark. */
  function MarkedUnits(k: Disk, spec: Spec, owner: string): seq<Unit> {
    (if HostScope in k.roots && k.roots[HostScope].owner == Some(owner) then [Service(HostScope), DiscoveryTimer, DiscoveryService] else []) +
    (if spec.network && NetworkScope in k.roots && k.roots[NetworkScope].owner == Some(owner) then [Service(NetworkScope)] else [])
  }

  /** A failure stops these units and is then recorded. */
  function FailureOps(k: Disk, spec: Spec, owner: string, session: string): seq<Op> {
    StopOps(MarkedUnits(k, spec, owner)) + [WritePending(FailureRecord(k, spec, owner, session))]
  }

  /** An exception before the probe is verified is handled as a failure; one after it is not. */
  ghost function Tried(k: Disk, spec: Spec, session: string, a: Attempt, raises: Option<nat>): Plan {
    if raises.None? || raises.value >= |a.ops| then Plan(a.ops, Ok)
    else
      var done := a.ops[..raises.value];
      if Probe(session) in done then Plan(done, Failed)
      else Plan(done + FailureOps(Exec(k, done), spec, a.OwnerAt(raises.value), session), Failed)
  }

  predicate Blocked(k: Disk, spec: Spec) {
    k.pending.Some? || (exists s :: s in RoleSet(spec) && s in k.roots) || !(UnitSet(spec) !! k.units)
  }

  ghost function FreshPlan(k: Disk, spec: Spec, session: string, owner: string, course: Course): Plan {
    if Blocked(k, spec) then Plan([], Refused)
    else if !course.enrolled then Plan([], Failed)
    else Tried(k, spec, session, Fresh(spec, session, owner, course), course.raises)
  }

  /** A fresh installation. */
  ghost function InstallPlan(k: Disk, spec: Spec, session: string, owner: string, order: seq<nat>, course: Course): Plan {
    var retired := RetirePlan(k, Listing(k, order));
    Then(retired, FreshPlan(Exec(k, retired.ops), spec, session, owner, course))
  }

  function Reattempt(k: Disk, spec: Spec, session: string, newOwner: string, course: Course): Attempt
    requires k.pending.Some?
  {
    var r := k.pending.value;
    if r.files != map[] then Intact(spec, session, r.owner, course)
    else Partial(k, spec, session, r.owner, newOwner, course)
  }

  /** Re-enrollment of a failed installation: intact roots are reused, partial ones set aside. */
  ghost function ReenrollPlan(k: Disk, spec: Spec, session: string, newOwner: string, course: Course): Plan {
    if !Repeatable(k, spec) then Plan([], Refused)
    else if !course.enrolled then Plan([], Failed)
    else Tried(k, spec, session, Reattempt(k, spec, session, newOwner, course), course.raises)
  }
}
