/** Purges of preserved data over whole runs of the collector's commands (deploy/agents/agent-manager.py,
    `purge_removed`): whatever happens in between, a purge that stopped can be rerun until it ends. */
module PurgeRuns {
  import opened Wrappers
  import opened CollectorDisk
  import opened Enrollment
  import opened Attempts
  import opened Recovery
  import opened Removal
  import opened RemovalStops
  import opened Commands

  // ----- While the purge waits -----

  /** The preserved data can be purged, and no pending record stands for partial roots. */
  predicate Waiting(k: Disk, spec: Spec, id: nat) {
    Purgeable(k, spec, id) && !PartialPending(k)
  }

  /** With the host root gone, only a record of partial roots can be re-enrolled. */
  lemma NoReenrollment(k: Disk, spec: Spec, id: nat, other: Spec)
    requires Waiting(k, spec, id)
    ensures !Repeatable(k, other) && !OwnsOne(k, other)
  {
    assert HostScope in RoleSet(spec) && HostScope in RoleSet(other);
  }

  /** While a purge is possible, an installation gets no further than archiving other receipts. */
  lemma InstallIsRetiring(k: Disk, c: Command, spec: Spec, id: nat)
    requires Purgeable(k, spec, id) && Inv(k) && (c.action.Install? || (c.action.ManagedInstall? && c.action.spec.package !in k.local))
    ensures Step(k, c) == Reached(k, RetirePlan(k, Listing(k, c.action.order)), c.fuse)
  {
    UnfinishedRefused(k, c.action.order, id);
  }

  /** The receipt of the pending purge is not among the archived ones. */
  lemma StillPurgeable(k: Disk, next: Disk, spec: Spec, id: nat)
    requires Purgeable(k, spec, id) && OnlyReceiptsArchived(k, next)
    requires k.retired[id].operation.value.session in next.complete
    ensures Purgeable(next, spec, id)
  {
    assert OneArchiveOf(next, spec.device, id);
  }

  /** Retiring takes the row of a session only for an archive of the row's own device. */
  lemma {:induction false} RowStays(k: Disk, listing: seq<nat>, fuse: nat, device: string, session: string)
    requires session in k.complete && k.complete[session].spec.device == device
    requires forall a :: a in k.retired && Finished(k.retired[a]) ==> k.retired[a].operation.value.device != device
    ensures session in Reached(k, RetirePlan(k, listing), fuse).complete
    decreases |listing|
  {
    if listing == [] {
      AfterNone(k, []);
    } else if listing[0] !in k.retired {
      RowStays(k, listing[1..], fuse, device, session);
    } else if Retirable(k, listing[0]) {
      var ops := RetireOps(k, listing[0]);
      var mid := Exec(k, ops);
      ArchiveReceiptMoves(k, listing[0]);
      RowStaysOne(k, listing[0], device, session);
      if fuse >= |ops| { RowStays(mid, listing[1..], fuse - |ops|, device, session); }
      RowStaysJoin(k, ops, RetirePlan(mid, listing[1..]), fuse, session);
    } else {
      AfterNone(k, []);
    }
  }

  lemma RowStaysJoin(k: Disk, ops: seq<Op>, rest: Plan, fuse: nat, session: string)
    requires |ops| <= 1 && session in k.complete
    requires fuse >= |ops| ==> session in Reached(Exec(k, ops), rest, fuse - |ops|).complete
    ensures session in Reached(k, Then(Plan(ops, Ok), rest), fuse).complete
  {
    AfterAppend(k, ops, rest.ops, fuse);
    if fuse < |ops| {
      assert ops[..fuse] == [];
      AfterNone(k, []);
    }
  }

  lemma RowStaysOne(k: Disk, id: nat, device: string, session: string)
    requires session in k.complete && k.complete[session].spec.device == device
    requires id in k.retired && Retirable(k, id) && k.retired[id].operation.value.device != device
    ensures session in Exec(k, RetireOps(k, id)).complete
  {
    var taken := k.retired[id].operation.value.session;
    if taken in k.complete {
      ExecOne(k, ArchiveReceipt(id, taken));
      assert taken != session;
    } else {
      AfterNone(k, []);
    }
  }

  lemma InstallKeeps(k: Disk, c: Command, spec: Spec, id: nat)
    requires Waiting(k, spec, id) && Inv(k) && (c.action.Install? || c.action.ManagedInstall?)
    ensures Waiting(Step(k, c), spec, id)
  {
    var a, session := c.action, k.retired[id].operation.value.session;
    if a.ManagedInstall? && a.spec.package in k.local {
      AfterNone(k, []);
    } else {
      forall b | b in k.retired && Finished(k.retired[b]) ensures k.retired[b].operation.value.device != spec.device {
        assert b != id;
      }
      InstallIsRetiring(k, c, spec, id);
      RetireStop(k, Listing(k, a.order), c.fuse);
      RowStays(k, Listing(k, a.order), c.fuse, spec.device, session);
      StillPurgeable(k, Step(k, c), spec, id);
    }
  }

  /** The purge of another device's archive. */
  predicate Elsewhere(op: Op, spec: Spec, id: nat) {
    match op
    case WriteOperation(a, o) => a != id && o.device != spec.device
    case TearRetired(a, _, _) => a != id
    case RemoveRetired(a, _) => a != id
    case WriteLocal(package, _) => package != spec.package
    case _ => false
  }

  predicate AllElsewhere(ops: seq<Op>, spec: Spec, id: nat) {
    forall i :: 0 <= i < |ops| ==> Elsewhere(ops[i], spec, id)
  }

  lemma OtherArchive(k: Disk, next: Disk, spec: Spec, id: nat, a: nat)
    requires Waiting(k, spec, id) && a != id && a in k.retired && a in next.retired
    requires next == k.(retired := k.retired[a := next.retired[a]], purged := next.purged)
    requires next.retired[a].operation.Some? && next.retired[a].operation.value.device != spec.device
    ensures Waiting(next, spec, id)
  {
    assert OneArchiveOf(next, spec.device, id);
  }

  lemma ElsewhereKeeps(k: Disk, op: Op, spec: Spec, id: nat)
    requires Waiting(k, spec, id) && Elsewhere(op, spec, id)
    ensures Waiting(Perform(k, op), spec, id)
  {
    var next := Perform(k, op);
    if op.WriteLocal? {
      assert next == k.(local := k.local[op.package := op.device]);
      assert OneArchiveOf(next, spec.device, id);
    } else if next != k {
      assert next == k.(retired := k.retired[op.id := next.retired[op.id]], purged := next.purged);
      OtherArchive(k, next, spec, id, op.id);
    }
  }

  lemma {:induction false} ErasesElsewhere(roles: seq<Scope>, a: nat, torn: Both<Remnant>, spec: Spec, id: nat)
    requires a != id
    ensures AllElsewhere(EraseOps(roles, a, torn), spec, id)
  {
    if roles != [] { ErasesElsewhere(roles[..|roles| - 1], a, torn, spec, id); }
  }

  /** Removing another bundle is refused, or purges another device's archive. */
  lemma RemoveOther(k: Disk, c: Command, spec: Spec, id: nat)
    requires Waiting(k, spec, id) && c.action.Remove? && c.action.spec.package != spec.package
    ensures Waiting(Step(k, c), spec, id)
  {
    var other, p := c.action.spec, PlanOf(k, c.action);
    NoReenrollment(k, spec, id, other);
    if p.ops == [] {
      AfterNone(k, []);
      AfterAll(k, [], c.fuse);
    } else {
      var a :| a in k.retired && Purgeable(k, other, a)
               && p.ops == PurgeOps(other, a, k.retired[a].operation.value, c.action.torn);
      PurgeOther(k, other, a, c.action.torn, spec, id, c.fuse);
    }
  }

  lemma PurgeOther(k: Disk, other: Spec, a: nat, torn: Both<Remnant>, spec: Spec, id: nat, fuse: nat)
    requires Waiting(k, spec, id) && Purgeable(k, other, a) && other.package != spec.package
    ensures Waiting(After(k, PurgeOps(other, a, k.retired[a].operation.value, torn), fuse), spec, id)
  {
    var ops := PurgeOps(other, a, k.retired[a].operation.value, torn);
    assert a != id && k.retired[a].operation.value.device == other.device != spec.device;
    ErasesElsewhere(Roles(other), a, torn, spec, id);
    assert AllElsewhere(ops, spec, id);
    forall d, i | 0 <= i < |ops| && Waiting(d, spec, id) ensures Waiting(Perform(d, ops[i]), spec, id) {
      ElsewhereKeeps(d, ops[i], spec, id);
    }
    AfterKeeps(k, ops, fuse, d => Waiting(d, spec, id));
  }

  // ----- When the purge is done -----

  /** The archive's data is deleted, and its record says so. */
  predicate Erased(k: Disk, spec: Spec, id: nat) {
    && id in k.retired && id < k.names && Finished(k.retired[id])
    && forall s :: s in RoleSet(spec) ==> s !in k.retired[id].trees
  }

  /** An operation that writes no record of this archive and moves no root into it. */
  predicate Passing(op: Op, id: nat) {
    !(op.WriteOperation? && op.id == id) && !(op.RetireRoot? && op.id == id)
  }

  predicate AllPassing(ops: seq<Op>, id: nat) {
    forall i :: 0 <= i < |ops| ==> Passing(ops[i], id)
  }

  lemma PassingKeeps(k: Disk, op: Op, spec: Spec, id: nat)
    requires Erased(k, spec, id) && Passing(op, id)
    ensures Erased(Perform(k, op), spec, id)
  {
    if OnArchives(op) {
      ArchivesPass(k, op, spec, id);
    } else if OnRoots(op) {
      OnlyRoots(k, op);
    } else {
      OnlyRecords(k, op);
    }
  }

  lemma ArchivesPass(k: Disk, op: Op, spec: Spec, id: nat)
    requires Erased(k, spec, id) && Passing(op, id) && OnArchives(op)
    ensures Erased(PerformOnArchives(k, op), spec, id)
  {
    var next := PerformOnArchives(k, op);
    if op.MakeArchive? {
      assert next.retired[id] == k.retired[id];
    } else if next != k && op.id != id {
      assert next.retired[id] == k.retired[id];
    }
  }

  lemma {:induction false} ClearsPass(roles: seq<Scope>, a: nat, preserve: bool, torn: Both<Remnant>, id: nat)
    requires a != id
    ensures AllPassing(ClearOps(roles, a, preserve, torn), id)
  {
    if roles != [] { ClearsPass(roles[..|roles| - 1], a, preserve, torn, id); }
  }

  lemma {:induction false} ErasesPass(roles: seq<Scope>, a: nat, torn: Both<Remnant>, id: nat)
    ensures AllPassing(EraseOps(roles, a, torn), id)
  {
    if roles != [] { ErasesPass(roles[..|roles| - 1], a, torn, id); }
  }

  lemma RemovePass(k: Disk, a: Action, spec: Spec, id: nat)
    requires Erased(k, spec, id) && a.Remove?
    ensures AllPassing(PlanOf(k, a).ops, id)
  {
    UninstallPass(k, a.spec, a.choice, a.deleteTyped, a.torn, id);
    PurgePass(k, a.spec, a.deleteTyped, a.torn, spec, id);
  }

  lemma UninstallPass(k: Disk, other: Spec, choice: Choice, deleteTyped: bool, torn: Both<Remnant>, id: nat)
    requires id < k.names
    ensures AllPassing(UninstallPlan(k, other, choice, deleteTyped, torn).ops, id)
  {
    var p := UninstallPlan(k, other, choice, deleteTyped, torn);
    if p.ops != [] {
      var session :| p.ops == UninstallOps(other, k.names, session, choice == KeepData, torn);
      UninstallOpsPass(other, k.names, session, choice == KeepData, torn, id);
    }
  }

  lemma UninstallOpsPass(other: Spec, a: nat, session: string, preserve: bool, torn: Both<Remnant>, id: nat)
    requires a != id
    ensures AllPassing(UninstallOps(other, a, session, preserve, torn), id)
  {
    var clears, closing := ClearOps(Roles(other), a, preserve, torn), Closing(other, a, session, preserve);
    ClearsPass(Roles(other), a, preserve, torn, id);
    PassingAppend(clears, closing, id);
    PassingAppend(DropOps(Units(other)), clears + closing, id);
    PassingAppend(Opening(other, a, session, preserve), DropOps(Units(other)) + (clears + closing), id);
    PassingAppend(StopOps(Units(other)), TakeOutOps(other, a, session, preserve, torn), id);
  }

  lemma PassingAppend(a: seq<Op>, b: seq<Op>, id: nat)
    requires AllPassing(a, id) && AllPassing(b, id)
    ensures AllPassing(a + b, id)
  {
  }

  lemma PurgePass(k: Disk, other: Spec, deleteTyped: bool, torn: Both<Remnant>, spec: Spec, id: nat)
    requires Erased(k, spec, id)
    ensures AllPassing(PurgePlan(k, other, deleteTyped, torn).ops, id)
  {
    var p := PurgePlan(k, other, deleteTyped, torn);
    if p.ops != [] {
      var a :| a in k.retired && Purgeable(k, other, a) && p.ops == PurgeOps(other, a, k.retired[a].operation.value, torn);
      ErasesPass(Roles(other), a, torn, id);
      assert a != id;
    }
  }

  /** No command touches a finished deletion again. */
  lemma ErasedStep(k: Disk, c: Command, spec: Spec, id: nat)
    requires Erased(k, spec, id)
    ensures Erased(Step(k, c), spec, id)
  {
    var a, p := c.action, PlanOf(k, c.action);
    match a {
      case Install(other, session, owner, order, course) => InstallShape(k, other, session, owner, order, course);
      case Reenroll(other, session, owner, course) => ReenrollShape(k, other, session, owner, course);
      case ManagedInstall(other, session, owner, yes, order, course) => ManagedShape(k, other, session, owner, yes, order, course);
      case Remove(other, choice, deleteTyped, torn) => RemovePass(k, a, spec, id);
      case Collect(gathered) =>
      case Supervise(active) =>
    }
    assert AllPassing(p.ops, id);
    forall d, i | 0 <= i < |p.ops| && Erased(d, spec, id) ensures Erased(Perform(d, p.ops[i]), spec, id) {
      PassingKeeps(d, p.ops[i], spec, id);
    }
    AfterKeeps(k, p.ops, c.fuse, d => Erased(d, spec, id));
  }

  // ----- One command -----

  /** Rerun, the purge ends, or can be rerun again. */
  lemma PurgeRerun(k: Disk, c: Command, spec: Spec, id: nat)
    requires Waiting(k, spec, id) && Inv(k) && c.action.Remove? && c.action.spec == spec
    ensures Waiting(Step(k, c), spec, id) || Erased(Step(k, c), spec, id)
    ensures c.action.deleteTyped && OutcomeOf(PlanOf(k, c.action), c.fuse) == Ok ==> Erased(Step(k, c), spec, id)
  {
    var p := PlanOf(k, c.action);
    assert forall a :: AlreadyPurged(k, spec, a) ==> a == id;
    assert !Finished(k.retired[id]);
    if c.action.deleteTyped {
      assert p == Plan(PurgeOps(spec, id, k.retired[id].operation.value, c.action.torn), Ok);
      PurgeReaches(k, spec, id, c.action.torn, p, c.fuse);
    } else {
      AfterNone(k, []);
      AfterAll(k, [], c.fuse);
    }
  }

  lemma PurgeReaches(k: Disk, spec: Spec, id: nat, torn: Both<Remnant>, p: Plan, fuse: nat)
    requires Waiting(k, spec, id) && Inv(k) && p == Plan(PurgeOps(spec, id, k.retired[id].operation.value, torn), Ok)
    ensures var next := Reached(k, p, fuse);
            (Waiting(next, spec, id) || Erased(next, spec, id)) && (fuse >= |p.ops| ==> Erased(next, spec, id))
  {
    var n := if fuse < |p.ops| then fuse else |p.ops|;
    PurgeStop(k, spec, id, torn, n);
    AfterAll(k, p.ops, |p.ops|);
    if fuse >= |p.ops| { AfterAll(k, p.ops, fuse); }
    PurgeKeepsRest(k, spec, id, torn, p.ops, n);
  }

  /** A purge changes neither the pending record nor the names in use. */
  lemma PurgeKeepsRest(k: Disk, spec: Spec, id: nat, torn: Both<Remnant>, ops: seq<Op>, n: nat)
    requires Purgeable(k, spec, id) && ops == PurgeOps(spec, id, k.retired[id].operation.value, torn)
    ensures After(k, ops, n).pending == k.pending && After(k, ops, n).names == k.names
  {
    ErasesPlain(Roles(spec), id, torn);
    assert AllPlain(ops);
    forall d: Disk, i | 0 <= i < |ops| && d.pending == k.pending && d.names == k.names
      ensures var next := Perform(d, ops[i]); next.pending == k.pending && next.names == k.names
    {
      PlainKeeps(d, ops[i]);
    }
    AfterKeeps(k, ops, n, (d: Disk) => d.pending == k.pending && d.names == k.names);
  }

  predicate Plain(op: Op) {
    op.WriteOperation? || op.TearRetired? || op.RemoveRetired? || op.WriteLocal?
  }

  predicate AllPlain(ops: seq<Op>) {
    forall i :: 0 <= i < |ops| ==> Plain(ops[i])
  }

  lemma PlainKeeps(k: Disk, op: Op)
    requires Plain(op)
    ensures Perform(k, op).pending == k.pending && Perform(k, op).names == k.names
  {
  }

  lemma {:induction false} ErasesPlain(roles: seq<Scope>, id: nat, torn: Both<Remnant>)
    ensures AllPlain(EraseOps(roles, id, torn))
  {
    if roles != [] { ErasesPlain(roles[..|roles| - 1], id, torn); }
  }

  /** Whatever else happens: data collected, services started or stopped. */
  lemma AroundKeeps(k: Disk, c: Command, spec: Spec, id: nat)
    requires Waiting(k, spec, id) && (c.action.Collect? || c.action.Supervise?)
    ensures Waiting(Step(k, c), spec, id)
  {
    var ops := PlanOf(k, c.action).ops;
    forall d, i | 0 <= i < |ops| && Waiting(d, spec, id) ensures Waiting(Perform(d, ops[i]), spec, id) {
      AroundOne(d, ops[i], spec, id);
    }
    AfterKeeps(k, ops, c.fuse, d => Waiting(d, spec, id));
  }

  lemma AroundOne(k: Disk, op: Op, spec: Spec, id: nat)
    requires Waiting(k, spec, id) && (op.Gather? || op.Settle?)
    ensures Waiting(Perform(k, op), spec, id)
  {
    var next := Perform(k, op);
    if op.Gather? {
      GatherOne(k, op.scope, op.data);
    } else {
      assert next == k.(running := (k.running + k.units) * op.active);
    }
    assert OneArchiveOf(next, spec.device, id);
  }

  /** A package is one bundle. */
  predicate SameBundle(a: Action, spec: Spec) {
    a.Remove? && a.spec.package == spec.package ==> a.spec == spec
  }

  /** One command, of any kind and stopped anywhere, while the purge waits. */
  lemma WaitingStep(k: Disk, c: Command, spec: Spec, id: nat)
    requires Waiting(k, spec, id) && Inv(k) && SameBundle(c.action, spec)
    ensures Waiting(Step(k, c), spec, id) || Erased(Step(k, c), spec, id)
    ensures c.action.Remove? && c.action.spec == spec && c.action.deleteTyped && OutcomeOf(PlanOf(k, c.action), c.fuse) == Ok ==>
              Erased(Step(k, c), spec, id)
  {
    var a := c.action;
    if a.Install? || a.ManagedInstall? {
      InstallKeeps(k, c, spec, id);
    } else if a.Reenroll? {
      NoReenrollment(k, spec, id, a.spec);
      AfterNone(k, []);
      AfterAll(k, [], c.fuse);
    } else if a.Remove? && a.spec != spec {
      RemoveOther(k, c, spec, id);
    } else if a.Remove? {
      PurgeRerun(k, c, spec, id);
    } else {
      AroundKeeps(k, c, spec, id);
    }
  }

  // ----- Over every run -----

  predicate OneBundle(commands: seq<Command>, spec: Spec) {
    forall i :: 0 <= i < |commands| ==> SameBundle(commands[i].action, spec)
  }

  ghost predicate WaitingOrErased(k: Disk, spec: Spec, id: nat) {
    Waiting(k, spec, id) || Erased(k, spec, id)
  }

  /** The i-th command is a confirmed removal of the bundle that was not interrupted. */
  ghost predicate RemovedFully(disks: seq<Disk>, commands: seq<Command>, spec: Spec, i: nat)
    requires |disks| == |commands| + 1
  {
    && i < |commands| && commands[i].action.Remove? && commands[i].action.spec == spec && commands[i].action.deleteTyped
    && OutcomeOf(PlanOf(disks[i], commands[i].action), commands[i].fuse) == Ok
  }

  lemma NextWaiting(disks: seq<Disk>, commands: seq<Command>, spec: Spec, id: nat, i: nat)
    requires Run(disks, commands) && i < |commands| && Inv(disks[i]) && OneBundle(commands, spec)
    requires WaitingOrErased(disks[i], spec, id)
    ensures WaitingOrErased(disks[i + 1], spec, id)
    ensures Erased(disks[i], spec, id) || RemovedFully(disks, commands, spec, i) ==> Erased(disks[i + 1], spec, id)
  {
    if Erased(disks[i], spec, id) {
      ErasedStep(disks[i], commands[i], spec, id);
    } else {
      WaitingStep(disks[i], commands[i], spec, id);
    }
  }

  lemma NextStays(disks: seq<Disk>, commands: seq<Command>, spec: Spec, id: nat, i: nat)
    requires Run(disks, commands) && i < |commands| && Inv(disks[i]) && OneBundle(commands, spec)
    requires WaitingOrErased(disks[i], spec, id)
    ensures WaitingOrErased(disks[i + 1], spec, id)
  {
    NextWaiting(disks, commands, spec, id, i);
  }

  /** What every command of the run keeps holds from then on. */
  lemma {:induction false} StaysSo(disks: seq<Disk>, i: nat, n: nat, keeps: Disk -> bool)
    requires i <= n < |disks| && keeps(disks[i])
    requires forall j: nat :: i <= j < n && keeps(disks[j]) ==> keeps(disks[j + 1])
    ensures keeps(disks[n])
  {
    if i < n { StaysSo(disks, i, n - 1, keeps); }
  }

  /** In every run, whatever commands it holds and wherever they stop, a purge that is possible stays possible
      until it is done. */
  lemma PurgeStaysPossible(disks: seq<Disk>, commands: seq<Command>, spec: Spec, id: nat, i: nat, n: nat)
    requires Run(disks, commands) && Inv(disks[0]) && i <= n <= |commands| && OneBundle(commands, spec)
    requires WaitingOrErased(disks[i], spec, id)
    ensures WaitingOrErased(disks[n], spec, id)
  {
    forall j: nat | i <= j < n && WaitingOrErased(disks[j], spec, id) ensures WaitingOrErased(disks[j + 1], spec, id) {
      RunInv(disks, commands, j);
      NextStays(disks, commands, spec, id, j);
    }
    StaysSo(disks, i, n, d => WaitingOrErased(d, spec, id));
  }

  lemma NextErased(disks: seq<Disk>, commands: seq<Command>, spec: Spec, id: nat, i: nat)
    requires Run(disks, commands) && i < |commands| && Erased(disks[i], spec, id)
    ensures Erased(disks[i + 1], spec, id)
  {
    ErasedStep(disks[i], commands[i], spec, id);
  }

  /** In every run, what is deleted stays so. */
  lemma ErasedStays(disks: seq<Disk>, commands: seq<Command>, spec: Spec, id: nat, i: nat, n: nat)
    requires Run(disks, commands) && i <= n <= |commands| && Erased(disks[i], spec, id)
    ensures Erased(disks[n], spec, id)
  {
    forall j: nat | i <= j < n && Erased(disks[j], spec, id) ensures Erased(disks[j + 1], spec, id) {
      NextErased(disks, commands, spec, id, j);
    }
    StaysSo(disks, i, n, d => Erased(d, spec, id));
  }

  /** One confirmed removal of the bundle that is not interrupted ends it, for good, with the data deleted. */
  lemma PurgeEndsDeleted(disks: seq<Disk>, commands: seq<Command>, spec: Spec, id: nat, i: nat, m: nat, n: nat)
    requires Run(disks, commands) && Inv(disks[0]) && i <= m < n <= |commands| && OneBundle(commands, spec)
    requires WaitingOrErased(disks[i], spec, id) && RemovedFully(disks, commands, spec, m)
    ensures Erased(disks[n], spec, id)
  {
    PurgeStaysPossible(disks, commands, spec, id, i, m);
    RunInv(disks, commands, m);
    NextWaiting(disks, commands, spec, id, m);
    ErasedStays(disks, commands, spec, id, m + 1, n);
  }

  /** Seven operations are enough for a purge to end. */
  lemma PurgeBound(k: Disk, spec: Spec, id: nat, choice: Choice, torn: Both<Remnant>)
    requires Purgeable(k, spec, id)
    ensures var p := PlanOf(k, Remove(spec, choice, true, torn)); p.outcome == Ok && |p.ops| <= 7
  {
    assert forall a :: AlreadyPurged(k, spec, a) ==> a == id;
    assert !Finished(k.retired[id]);
    EraseSize(Roles(spec), id, torn);
  }

  lemma {:induction false} EraseSize(roles: seq<Scope>, id: nat, torn: Both<Remnant>)
    ensures |EraseOps(roles, id, torn)| == 2 * |roles|
  {
    if roles != [] { EraseSize(roles[..|roles| - 1], id, torn); }
  }
}
