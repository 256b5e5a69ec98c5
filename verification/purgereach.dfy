/** Which disks the commands reach (deploy/agents/enrollment-linux.py, deploy/agents/agent-manager.py): in runs
    whose enrollments bring new owner ids and new probe markers, preserved data that can be purged is never beside
    a record of partial roots, so that no re-enrollment is accepted before the purge is done. */
module PurgeReach {
  import opened Wrappers
  import opened CollectorDisk
  import opened Enrollment
  import opened Attempts
  import opened Recovery
  import opened Removal
  import opened RemovalStops
  import opened Commands
  import opened PurgeRuns

  // ----- The invariant -----

  /** Preserved data is recorded in this archive. */
  predicate Keeping(a: Archive) {
    a.operation.Some? && a.operation.value.preserved && a.operation.value.progress != Removing
  }

  predicate KeepsData(k: Disk) {
    exists a :: a in k.retired && Keeping(k.retired[a])
  }

  predicate Describes(r: Receipt, t: Tree) {
    t.owner == Some(r.owner) && HostScope in r.files && r.files[HostScope] == t.files
  }

  /** No completion receipt describes the host root as it is. */
  predicate Undescribed(k: Disk) {
    forall s :: s in k.complete && HostScope in k.roots ==> !Describes(k.complete[s], k.roots[HostScope])
  }

  predicate Settled(k: Disk) {
    && (KeepsData(k) ==> HostScope !in k.roots && !PartialPending(k))
    && (PartialPending(k) ==> Undescribed(k))
  }

  /** The owner id is new, and no completion receipt has the host files of this enrollment: its probe marker
      is new, and the marker is in the host configuration. */
  predicate Novel(k: Disk, owner: string, course: Course) {
    forall s :: s in k.complete ==> k.complete[s].owner != owner && NovelFiles(k.complete[s], course)
  }

  predicate NovelFiles(r: Receipt, course: Course) {
    HostScope in r.files ==> r.files[HostScope] != course.configured.host && r.files[HostScope] != course.keyed.host
  }

  predicate NovelAction(k: Disk, a: Action) {
    match a
    case Install(_, _, owner, _, course) => Novel(k, owner, course)
    case Reenroll(_, _, owner, course) => Novel(k, owner, course)
    case ManagedInstall(_, _, owner, _, _, course) => Novel(k, owner, course)
    case _ => true
  }

  // ----- Archives and enrollment -----

  /** The same archives, with the same records and trees, and the same local records. */
  ghost predicate SameArchives(k: Disk, next: Disk) {
    && next.local == k.local && next.retired.Keys == k.retired.Keys
    && forall a :: a in k.retired ==> next.retired[a].operation == k.retired[a].operation && next.retired[a].trees == k.retired[a].trees
  }

  /** Enrollment leaves the archives' records and trees alone. */
  lemma EnrollingOne(k: Disk, op: Op)
    requires Enrolling(op)
    ensures SameArchives(k, Perform(k, op))
  {
    if op.ArchiveReceipt? {
      assert Perform(k, op).retired.Keys == k.retired.Keys;
    } else if OnRoots(op) {
      OnlyRoots(k, op);
    } else {
      OnlyRecords(k, op);
    }
  }

  // ----- Inside an attempt -----

  /** The two ways in which a stopped attempt leaves the invariant: its roots are not described by any completion
      receipt, or they are stable and the pending record describes them. */
  predicate Sure(k: Disk, spec: Spec, owner: string) {
    !KeepsData(k) && (Undescribed(k) || (IsStable(k, spec, owner) && !PartialPending(k)))
  }

  lemma EndSettled(k: Disk, next: Disk, spec: Spec, session: string, a: Attempt, end: End)
    requires end.n <= |a.ops| && EndsWith(k, next, spec, session, a, end)
    requires Sure(After(k, a.ops, end.n), spec, a.OwnerAt(end.n))
    ensures Settled(next)
  {
    var mid, owner := After(k, a.ops, end.n), a.OwnerAt(end.n);
    assert next.retired == mid.retired && next.roots == mid.roots && next.complete == mid.complete;
    if end.recorded && IsStable(mid, spec, owner) {
      assert HostScope in FilesOf(mid, spec);
    }
  }

  /** The host root is absent, unmarked or the new owner's, and no receipt names the new owner. */
  predicate Anew(k: Disk, owner: string) {
    && !KeepsData(k)
    && (forall s :: s in k.complete ==> k.complete[s].owner != owner)
    && (HostScope in k.roots ==> k.roots[HostScope].owner.None? || k.roots[HostScope].owner == Some(owner))
  }

  predicate AnewOp(op: Op, owner: string) {
    Enrolling(op) && !op.WriteComplete? && (op.MarkRoot? ==> op.owner == owner)
  }

  lemma AnewKeeps(k: Disk, op: Op, owner: string)
    requires Anew(k, owner) && AnewOp(op, owner)
    ensures Anew(Perform(k, op), owner)
  {
    var next := Perform(k, op);
    EnrollingOne(k, op);
    assert forall a :: a in next.retired ==> a in k.retired;
    if OnArchives(op) {
      assert forall s :: s in next.complete ==> s in k.complete && next.complete[s] == k.complete[s];
    } else if OnRoots(op) {
      OnlyRoots(k, op);
      AnewRoots(k, op, owner);
    } else {
      OnlyRecords(k, op);
    }
  }

  lemma AnewRoots(k: Disk, op: Op, owner: string)
    requires Anew(k, owner) && AnewOp(op, owner) && OnRoots(op)
    ensures var next := PerformOnRoots(k, op);
            HostScope in next.roots ==> next.roots[HostScope].owner.None? || next.roots[HostScope].owner == Some(owner)
  {
  }

  /** All but the last so many operations of a list. */
  predicate AnewBut(ops: seq<Op>, owner: string, last: nat) {
    forall i :: 0 <= i < |ops| - last ==> AnewOp(ops[i], owner)
  }

  lemma AnewAppend(a: seq<Op>, b: seq<Op>, owner: string, last: nat)
    requires AnewBut(a, owner, 0) && AnewBut(b, owner, last) && last <= |b|
    ensures AnewBut(a + b, owner, last)
  {
  }

  lemma {:induction false} ScriptsAnew(roles: seq<Scope>, owner: string, course: Course)
    ensures AnewBut(Scripts(roles, owner, course), owner, 0)
  {
    if roles != [] {
      ScriptsAnew(roles[..|roles| - 1], owner, course);
      ScriptsSnoc(roles, owner, course);
      AnewAppend(Scripts(roles[..|roles| - 1], owner, course), Script(roles[|roles| - 1], owner, course), owner, 0);
    }
  }

  lemma TailAnew(spec: Spec, owner: string, session: string, files: map<Scope, Files>, course: Course)
    ensures AnewBut(Tail(spec, owner, session, files, course), owner, 2)
  {
    var gathers, ends := Gathers(Roles(spec), course.gathered), Receipts(spec, owner, session, files);
    assert ends[0] == Probe(session);
    AnewAppend(gathers, ends, owner, 2);
    AnewAppend(StartOps(StartUnits(spec)), gathers + ends, owner, 2);
    AnewAppend([WritePending(Receipt(Starting, owner, spec, session, files))], StartOps(StartUnits(spec)) + (gathers + ends), owner, 2);
  }

  lemma FreshAnew(spec: Spec, session: string, owner: string, course: Course)
    ensures AnewBut(FreshOps(spec, session, owner, course), owner, 2)
  {
    var scripts, tail := Scripts(Roles(spec), owner, course), Tail(spec, owner, session, FilesFor(spec, course.laid), course);
    ScriptsAnew(Roles(spec), owner, course);
    TailLong(spec, owner, session, FilesFor(spec, course.laid), course);
    TailAnew(spec, owner, session, FilesFor(spec, course.laid), course);
    AnewAppend(scripts, tail, owner, 2);
    AnewAppend([Preparation(spec, owner, session)], scripts + tail, owner, 2);
  }

  lemma StillNone(k: Disk, ops: seq<Op>, n: nat)
    requires !KeepsData(k) && AllEnrolling(ops)
    ensures !KeepsData(After(k, ops, n))
  {
    forall d, i | 0 <= i < |ops| && i < n && !KeepsData(d) ensures !KeepsData(Perform(d, ops[i])) {
      EnrollingOne(d, ops[i]);
    }
    AfterKeeps(k, ops, n, d => !KeepsData(d));
  }

  lemma StaysAnew(k: Disk, ops: seq<Op>, owner: string, last: nat, n: nat)
    requires Anew(k, owner) && AnewBut(ops, owner, last) && n + last <= |ops|
    ensures Anew(After(k, ops, n), owner)
  {
    forall d, i | 0 <= i < |ops| && i < n && Anew(d, owner) ensures Anew(Perform(d, ops[i]), owner) {
      AnewKeeps(d, ops[i], owner);
    }
    AfterKeeps(k, ops, n, d => Anew(d, owner));
  }

  /** A fresh attempt, stopped after n operations. */
  lemma FreshSure(k: Disk, spec: Spec, session: string, owner: string, course: Course, n: nat)
    requires Anew(k, owner) && (forall s :: s in RoleSet(spec) ==> s !in k.roots) && n <= |FreshOps(spec, session, owner, course)|
    ensures Sure(After(k, FreshOps(spec, session, owner, course), n), spec, owner)
  {
    var ops := FreshOps(spec, session, owner, course);
    FreshShape(spec, session, owner, course);
    StillNone(k, ops, n);
    if |ops| - n < BeforeStart(spec) {
      FreshStop(k, spec, session, owner, course, n);
    } else {
      FreshAnew(spec, session, owner, course);
      StaysAnew(k, ops, owner, 2, n);
    }
  }

  /** The host files of this enrollment are in place, and no receipt has them. */
  predicate Altered(k: Disk, course: Course) {
    && HostScope in k.roots && k.roots[HostScope].files in {course.configured.host, course.keyed.host}
    && forall s :: s in k.complete ==> NovelFiles(k.complete[s], course)
  }

  predicate AlteredOp(op: Op, course: Course) {
    op.WritePending? || op.Start? || op.Gather? || op.Probe? || (op.Rewrite? && op.files == course.keyed.Of(op.scope))
  }

  lemma AlteredKeeps(k: Disk, op: Op, course: Course)
    requires Altered(k, course) && AlteredOp(op, course)
    ensures Altered(Perform(k, op), course)
  {
    if OnRoots(op) {
      OnlyRoots(k, op);
    } else {
      OnlyRecords(k, op);
    }
  }

  predicate AlteredBut(ops: seq<Op>, course: Course, last: nat) {
    forall i :: 0 <= i < |ops| - last ==> AlteredOp(ops[i], course)
  }

  lemma AlteredAppend(a: seq<Op>, b: seq<Op>, course: Course, last: nat)
    requires AlteredBut(a, course, 0) && AlteredBut(b, course, last) && last <= |b|
    ensures AlteredBut(a + b, course, last)
  {
  }

  lemma IntactAltered(spec: Spec, session: string, owner: string, course: Course)
    ensures AlteredBut([Preparation(spec, owner, session)] + IntactTail(spec, session, owner, course), course, 2)
  {
    var files := FilesFor(spec, course.keyed);
    var gathers, ends := Gathers(Roles(spec), course.gathered), Receipts(spec, owner, session, files);
    var starts, keys := StartOps(StartUnits(spec)), Rewrites(Roles(spec), course.keyed);
    assert ends[0] == Probe(session);
    AlteredAppend(gathers, ends, course, 2);
    AlteredAppend(starts, gathers + ends, course, 2);
    AlteredAppend([WritePending(Receipt(Starting, owner, spec, session, files))], starts + (gathers + ends), course, 2);
    AlteredAppend(keys, Tail(spec, owner, session, files, course), course, 2);
    AlteredAppend([Preparation(spec, owner, session)], IntactTail(spec, session, owner, course), course, 2);
  }

  lemma ConfiguredAltered(k: Disk, spec: Spec, owner: string, course: Course)
    requires IsStable(k, spec, owner) && forall s :: s in k.complete ==> NovelFiles(k.complete[s], course)
    ensures Altered(Exec(k, Rewrites(Roles(spec), course.configured)), course)
  {
    var roles := Roles(spec);
    RewritesStop(k, roles, course.configured, |roles|);
    AfterAll(k, Rewrites(roles, course.configured), |roles|);
    RolesElements(spec);
    assert roles[..|roles|] == roles && HostScope in RoleSet(spec);
  }

  /** From its own record to the start of its units, an attempt over intact roots has new host files. */
  lemma IntactUndescribed(k: Disk, spec: Spec, session: string, owner: string, course: Course, n: nat)
    requires IsStable(k, spec, owner) && (forall s :: s in k.complete ==> NovelFiles(k.complete[s], course))
    requires |Roles(spec)| < n && n + 2 <= |IntactOps(spec, session, owner, course)|
    ensures Undescribed(After(k, IntactOps(spec, session, owner, course), n))
  {
    var configs, rest := Rewrites(Roles(spec), course.configured), [Preparation(spec, owner, session)] + IntactTail(spec, session, owner, course);
    var mid := Exec(k, configs);
    ConfiguredAltered(k, spec, owner, course);
    IntactAltered(spec, session, owner, course);
    AfterAppend(k, configs, rest, n);
    forall d, i | 0 <= i < |rest| && i < n - |configs| && Altered(d, course) ensures Altered(Perform(d, rest[i]), course) {
      AlteredKeeps(d, rest[i], course);
    }
    AfterKeeps(mid, rest, n - |configs|, d => Altered(d, course));
  }

  lemma IntactSure(k: Disk, spec: Spec, session: string, owner: string, course: Course, n: nat)
    requires Consistent(k, spec) && k.pending.value.owner == owner && k.pending.value.files != map[] && !KeepsData(k)
    requires n <= |IntactOps(spec, session, owner, course)| && forall s :: s in k.complete ==> NovelFiles(k.complete[s], course)
    ensures Sure(After(k, IntactOps(spec, session, owner, course), n), spec, owner)
  {
    var ops := IntactOps(spec, session, owner, course);
    IntactShape(spec, session, owner, course);
    StillNone(k, ops, n);
    IntactStop(k, spec, session, owner, course, n);
    if n > |Roles(spec)| && |ops| - n >= BeforeStart(spec) { IntactUndescribed(k, spec, session, owner, course, n); }
  }

  lemma AsideKeeps(k: Disk, op: Op)
    requires Undescribed(k) && (op.MakeBackup? || op.SetAside? || op.MoveUnit?)
    ensures Undescribed(Perform(k, op))
  {
    OnlyRecords(k, op);
  }

  predicate AsideOp(op: Op) {
    op.MakeBackup? || op.SetAside? || op.MoveUnit?
  }

  lemma AsideUndescribed(k: Disk, spec: Spec, n: nat)
    requires Undescribed(k)
    ensures Undescribed(After(k, AsideOps(spec, k.names), n))
  {
    var ops := AsideOps(spec, k.names);
    var sets, moves := SetAsides(Roles(spec), k.names), MoveUnits(Units(spec), k.names);
    assert forall i :: 0 <= i < |ops| ==> ops[i] == if i == 0 then MakeBackup else if i <= |sets| then sets[i - 1] else moves[i - 1 - |sets|];
    forall d, i | 0 <= i < |ops| && i < n && Undescribed(d) ensures Undescribed(Perform(d, ops[i])) {
      AsideKeeps(d, ops[i]);
    }
    AfterKeeps(k, ops, n, d => Undescribed(d));
  }

  lemma PartialSure(k: Disk, spec: Spec, session: string, newOwner: string, course: Course, aside: seq<Op>, anew: seq<Op>, n: nat)
    requires Settled(k) && PartialPending(k) && forall s :: s in k.complete ==> k.complete[s].owner != newOwner
    requires aside == AsideOps(spec, k.names) && anew == FreshOps(spec, session, newOwner, course) && n <= |aside| + |anew|
    ensures !KeepsData(After(k, aside + anew, n))
    ensures Undescribed(After(k, aside + anew, n)) || (n > |aside| && Sure(After(k, aside + anew, n), spec, newOwner))
  {
    AfterAppend(k, aside, anew, n);
    AsideShape(spec, k.names);
    StillNone(k, aside, if n < |aside| then n else |aside|);
    AfterAll(k, aside, |aside|);
    if n <= |aside| {
      AsideUndescribed(k, spec, n);
      if n == |aside| { AfterNone(Exec(k, aside), anew); }
    } else {
      AsideDone(k, spec);
      FreshSure(Exec(k, aside), spec, session, newOwner, course, n - |aside|);
    }
  }

  // ----- One command -----

  lemma ReceiptsSettled(k: Disk, next: Disk)
    requires Settled(k) && OnlyReceiptsArchived(k, next)
    ensures Settled(next)
  {
  }

  lemma TriedSettled(k: Disk, spec: Spec, session: string, a: Attempt, raises: Option<nat>, fuse: nat)
    requires forall n: nat :: n <= |a.ops| ==> Sure(After(k, a.ops, n), spec, a.OwnerAt(n))
    ensures Settled(Reached(k, Tried(k, spec, session, a, raises), fuse))
  {
    var end := TriedStop(k, spec, session, a, raises, fuse);
    EndSettled(k, Reached(k, Tried(k, spec, session, a, raises), fuse), spec, session, a, end);
  }

  lemma InstallSettled(k: Disk, spec: Spec, session: string, owner: string, order: seq<nat>, course: Course, fuse: nat)
    requires Settled(k) && Inv(k) && Novel(k, owner, course)
    ensures Settled(Reached(k, InstallPlan(k, spec, session, owner, order, course), fuse))
  {
    var listing := Listing(k, order);
    var retired := RetirePlan(k, listing);
    RetireStop(k, listing, fuse);
    ReceiptsSettled(k, Reached(k, retired, fuse));
    if retired.outcome == Ok {
      RetiredWhole(k, listing);
      RetiredAllFinished(k, order);
      var mid := Exec(k, retired.ops);
      ReceiptsSettled(k, mid);
      ThenStop(k, retired, FreshPlan(mid, spec, session, owner, course), fuse);
      if fuse >= |retired.ops| { FreshSettled(mid, spec, session, owner, course, fuse - |retired.ops|); }
    }
  }

  lemma FreshSettled(k: Disk, spec: Spec, session: string, owner: string, course: Course, fuse: nat)
    requires Settled(k) && !KeepsData(k) && forall s :: s in k.complete ==> k.complete[s].owner != owner
    ensures Settled(Reached(k, FreshPlan(k, spec, session, owner, course), fuse))
  {
    if Blocked(k, spec) || !course.enrolled {
      AfterNone(k, []);
      AfterAll(k, [], fuse);
    } else {
      var a := Fresh(spec, session, owner, course);
      assert HostScope in RoleSet(spec);
      forall n: nat | n <= |a.ops| ensures Sure(After(k, a.ops, n), spec, a.OwnerAt(n)) {
        FreshSure(k, spec, session, owner, course, n);
      }
      TriedSettled(k, spec, session, a, course.raises, fuse);
    }
  }

  lemma ReenrollSettled(k: Disk, spec: Spec, session: string, newOwner: string, course: Course, fuse: nat)
    requires Settled(k) && Novel(k, newOwner, course)
    ensures Settled(Reached(k, ReenrollPlan(k, spec, session, newOwner, course), fuse))
  {
    if !Repeatable(k, spec) || !course.enrolled {
      AfterNone(k, []);
      AfterAll(k, [], fuse);
    } else {
      var a := Reattempt(k, spec, session, newOwner, course);
      ReattemptSure(k, spec, session, newOwner, course);
      TriedSettled(k, spec, session, a, course.raises, fuse);
    }
  }

  lemma ReattemptSure(k: Disk, spec: Spec, session: string, newOwner: string, course: Course)
    requires Settled(k) && Consistent(k, spec) && Novel(k, newOwner, course)
    ensures var a := Reattempt(k, spec, session, newOwner, course);
            forall n: nat :: n <= |a.ops| ==> Sure(After(k, a.ops, n), spec, a.OwnerAt(n))
  {
    var a, owner := Reattempt(k, spec, session, newOwner, course), k.pending.value.owner;
    forall n: nat | n <= |a.ops| ensures Sure(After(k, a.ops, n), spec, a.OwnerAt(n)) {
      if k.pending.value.files != map[] {
        assert HostScope in RoleSet(spec);
        IntactSure(k, spec, session, owner, course, n);
      } else {
        PartialSure(k, spec, session, newOwner, course, AsideOps(spec, k.names), FreshOps(spec, session, newOwner, course), n);
      }
    }
  }

  lemma ManagedSettled(k: Disk, spec: Spec, session: string, owner: string, yes: bool, order: seq<nat>, course: Course, fuse: nat)
    requires Settled(k) && Inv(k) && Novel(k, owner, course)
    ensures Settled(Reached(k, ManagedPlan(k, spec, session, owner, yes, order, course), fuse))
  {
    AfterNone(k, []);
    AfterAll(k, [], fuse);
    if spec.package !in k.local {
      var listing := Listing(k, order);
      var retired := RetirePlan(k, listing);
      RetireStop(k, listing, fuse);
      ReceiptsSettled(k, Reached(k, retired, fuse));
      if retired.outcome == Ok {
        var mid := Exec(k, retired.ops);
        RetiredWhole(k, listing);
        RetiringShape(k, listing);
        ExecInv(k, retired.ops);
        ReceiptsSettled(k, mid);
        ThenStop(k, retired, ManagedRest(mid, spec, session, owner, yes, order, course), fuse);
        if fuse >= |retired.ops| { ManagedRestSettled(mid, spec, session, owner, yes, order, course, fuse - |retired.ops|); }
      }
    }
  }

  lemma ManagedRestSettled(k: Disk, spec: Spec, session: string, owner: string, yes: bool, order: seq<nat>, course: Course, fuse: nat)
    requires Settled(k) && Inv(k) && Novel(k, owner, course)
    ensures Settled(Reached(k, ManagedRest(k, spec, session, owner, yes, order, course), fuse))
  {
    AfterNone(k, []);
    AfterAll(k, [], fuse);
    InstallSettled(k, spec, session, owner, order, course, fuse);
    ReenrollSettled(k, spec, session, owner, course, fuse);
  }

  /** What an uninstallation owns is described by its receipt. */
  lemma OwnedDescribed(k: Disk, spec: Spec)
    requires OwnsOne(k, spec)
    ensures !Undescribed(k) && HostScope in k.roots
  {
    var session :| session in k.complete && Owns(k, spec, session);
    assert HostScope in RoleSet(spec);
    assert FilesOf(k, spec)[HostScope] == k.roots[HostScope].files;
  }

  lemma UninstallSettled(k: Disk, spec: Spec, choice: Choice, deleteTyped: bool, torn: Both<Remnant>, fuse: nat)
    requires Settled(k) && Inv(k) && spec.package !in k.local
    ensures Settled(Reached(k, UninstallPlan(k, spec, choice, deleteTyped, torn), fuse))
  {
    if UninstallPlan(k, spec, choice, deleteTyped, torn).outcome == Ok {
      OwnedDescribed(k, spec);
      var session, n, total := UninstallStopped(k, spec, choice, deleteTyped, torn, fuse);
      LeftSettled(k, Reached(k, UninstallPlan(k, spec, choice, deleteTyped, torn), fuse), spec, session, choice == KeepData, n, total);
    } else {
      AfterNone(k, []);
      AfterAll(k, [], fuse);
    }
  }

  lemma LeftSettled(k: Disk, next: Disk, spec: Spec, session: string, preserve: bool, n: nat, total: nat)
    requires Inv(k) && !KeepsData(k) && !PartialPending(k) && Left(k, next, spec, session, preserve, n, total) && n <= total
    ensures Settled(next)
  {
    assert k.names !in k.retired && HostScope in RoleSet(spec);
    if KeepsData(next) {
      var a :| a in next.retired && Keeping(next.retired[a]);
      assert a == k.names;
    }
  }

  lemma PurgeSettled(k: Disk, spec: Spec, deleteTyped: bool, torn: Both<Remnant>, fuse: nat)
    requires Settled(k)
    ensures Settled(Reached(k, PurgePlan(k, spec, deleteTyped, torn), fuse))
  {
    var p := PurgePlan(k, spec, deleteTyped, torn);
    if p.ops == [] {
      AfterNone(k, []);
      AfterAll(k, [], fuse);
    } else {
      var id :| id in k.retired && Purgeable(k, spec, id) && p.ops == PurgeOps(spec, id, k.retired[id].operation.value, torn);
      assert Keeping(k.retired[id]);
      PurgeKeepsRoots(k, spec, id, k.retired[id].operation.value, torn, fuse);
    }
  }

  lemma PurgeKeepsRoots(k: Disk, spec: Spec, id: nat, op: Operation, torn: Both<Remnant>, n: nat)
    ensures var next := After(k, PurgeOps(spec, id, op, torn), n); next.roots == k.roots && next.pending == k.pending
  {
    var ops := PurgeOps(spec, id, op, torn);
    ErasesPlain(Roles(spec), id, torn);
    assert AllPlain(ops);
    forall d: Disk, i | 0 <= i < |ops| && d.roots == k.roots && d.pending == k.pending
      ensures var next := Perform(d, ops[i]); next.roots == k.roots && next.pending == k.pending
    {
      PlainKeepsRoots(d, ops[i]);
    }
    AfterKeeps(k, ops, n, (d: Disk) => d.roots == k.roots && d.pending == k.pending);
  }

  lemma PlainKeepsRoots(k: Disk, op: Op)
    requires Plain(op)
    ensures Perform(k, op).roots == k.roots && Perform(k, op).pending == k.pending
  {
  }

  lemma AroundSettled(k: Disk, op: Op)
    requires Settled(k) && (op.Gather? || op.Settle?)
    ensures Settled(Perform(k, op))
  {
    if op.Gather? {
      GatherOne(k, op.scope, op.data);
    } else {
      assert Perform(k, op) == k.(running := (k.running + k.units) * op.active);
    }
  }

  /** One command, stopped anywhere. */
  lemma SettledStep(k: Disk, c: Command)
    requires Settled(k) && Inv(k) && NovelAction(k, c.action)
    ensures Settled(Step(k, c))
  {
    match c.action
    case Install(spec, session, owner, order, course) => InstallSettled(k, spec, session, owner, order, course, c.fuse);
    case Reenroll(spec, session, owner, course) => ReenrollSettled(k, spec, session, owner, course, c.fuse);
    case ManagedInstall(spec, session, owner, yes, order, course) => ManagedSettled(k, spec, session, owner, yes, order, course, c.fuse);
    case Remove(spec, choice, deleteTyped, torn) =>
      AfterNone(k, []);
      AfterAll(k, [], c.fuse);
      if spec.package !in k.local { UninstallSettled(k, spec, choice, deleteTyped, torn, c.fuse); }
      PurgeSettled(k, spec, deleteTyped, torn, c.fuse);
    case Collect(gathered) => AroundStep(k, c);
    case Supervise(active) => AroundStep(k, c);
  }

  lemma AroundStep(k: Disk, c: Command)
    requires Settled(k) && (c.action.Collect? || c.action.Supervise?)
    ensures Settled(Step(k, c))
  {
    var ops := PlanOf(k, c.action).ops;
    forall d, i | 0 <= i < |ops| && Settled(d) ensures Settled(Perform(d, ops[i])) {
      AroundSettled(d, ops[i]);
    }
    AfterKeeps(k, ops, c.fuse, d => Settled(d));
  }

  // ----- Over every run -----

  ghost predicate NovelRun(disks: seq<Disk>, commands: seq<Command>) {
    && |disks| == |commands| + 1
    && forall i {:trigger disks[i], commands[i]} :: 0 <= i < |commands| ==> NovelAction(disks[i], commands[i].action)
  }

  lemma {:induction false} SettledRun(disks: seq<Disk>, commands: seq<Command>, n: nat)
    requires Run(disks, commands) && NovelRun(disks, commands) && Inv(disks[0]) && Settled(disks[0]) && n <= |commands|
    ensures Settled(disks[n])
  {
    if n > 0 {
      SettledRun(disks, commands, n - 1);
      RunInv(disks, commands, n - 1);
      assert disks[n - 1 + 1] == Step(disks[n - 1], commands[n - 1]) && NovelAction(disks[n - 1], commands[n - 1].action);
      SettledStep(disks[n - 1], commands[n - 1]);
    }
  }

  /** In every run from a new machine, data that can be purged waits for it: no re-enrollment is accepted. */
  lemma PurgeableWaits(disks: seq<Disk>, commands: seq<Command>, n: nat, spec: Spec, id: nat)
    requires Run(disks, commands) && NovelRun(disks, commands) && disks[0] == EMPTY_DISK && n <= |commands|
    requires Purgeable(disks[n], spec, id)
    ensures Waiting(disks[n], spec, id) && forall other :: !Repeatable(disks[n], other)
  {
    SettledRun(disks, commands, n);
    assert Keeping(disks[n].retired[id]);
    forall other ensures !Repeatable(disks[n], other) {
      NoReenrollment(disks[n], spec, id, other);
    }
  }

  /** So once data can be purged, one confirmed removal that is not interrupted deletes it, whatever happens before
      and after. */
  lemma EveryPurgeEnds(disks: seq<Disk>, commands: seq<Command>, spec: Spec, id: nat, i: nat, m: nat, n: nat)
    requires Run(disks, commands) && NovelRun(disks, commands) && disks[0] == EMPTY_DISK && OneBundle(commands, spec)
    requires i <= m < n <= |commands| && Purgeable(disks[i], spec, id) && RemovedFully(disks, commands, spec, m)
    ensures Erased(disks[n], spec, id)
  {
    PurgeableWaits(disks, commands, i, spec, id);
    PurgeEndsDeleted(disks, commands, spec, id, i, m, n);
  }

  /** Beside a record of partial roots, which only a re-enrollment that is not new can leave there, a
      re-enrollment is accepted and, carried out, takes the purge away. */
  lemma ReenrollBlocksPurge(k: Disk, spec: Spec, id: nat, other: Spec, session: string, owner: string, course: Course)
    requires Purgeable(k, spec, id) && Repeatable(k, other) && course.enrolled && course.raises.None?
    ensures var p := ReenrollPlan(k, other, session, owner, course);
            p.outcome == Ok && !WaitingOrErased(Step(k, Command(Reenroll(other, session, owner, course), |p.ops|)), spec, id)
  {
    var p := ReenrollPlan(k, other, session, owner, course);
    ReenrollStopped(k, other, session, owner, course, |p.ops|);
    ReenrollShape(k, other, session, owner, course);
    assert Keeping(k.retired[id]) && HostScope in RoleSet(other) && HostScope in RoleSet(spec);
    StaysKeeping(k, p.ops, id);
  }

  lemma StaysKeeping(k: Disk, ops: seq<Op>, id: nat)
    requires AllEnrolling(ops) && id in k.retired && Keeping(k.retired[id])
    ensures var next := Exec(k, ops); id in next.retired && Keeping(next.retired[id])
  {
    forall d: Disk, i | 0 <= i < |ops| && id in d.retired && Keeping(d.retired[id])
      ensures var next := Perform(d, ops[i]); id in next.retired && Keeping(next.retired[id])
    {
      EnrollingOne(d, ops[i]);
    }
    AfterKeeps(k, ops, |ops|, (d: Disk) => id in d.retired && Keeping(d.retired[id]));
  }
}
