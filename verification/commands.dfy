/** Whole runs of the collector's local commands: the entry points of deploy/agents/enrollment-linux.py and
    deploy/agents/agent-manager.py, each killed after any number of file operations. */
module Commands {
  import opened Wrappers
  import opened CollectorDisk
  import opened Enrollment
  import opened Attempts
  import opened Recovery
  import opened Removal
  import opened RemovalStops

  datatype Action =
    | Install(spec: Spec, session: string, owner: string, order: seq<nat>, course: Course)
    | Reenroll(spec: Spec, session: string, owner: string, course: Course)
    | ManagedInstall(spec: Spec, session: string, owner: string, yes: bool, order: seq<nat>, course: Course)
    | Remove(spec: Spec, choice: Choice, deleteTyped: bool, torn: Both<Remnant>)
    | Collect(gathered: Both<set<nat>>)
    | Supervise(active: set<Unit>)

  datatype Command = Command(action: Action, fuse: nat)

  /** The install action of the management tool: what comes after its archives are retired. */
  ghost function ManagedRest(k: Disk, spec: Spec, session: string, owner: string, yes: bool, order: seq<nat>, course: Course): Plan {
    if k.complete != map[] then Plan([], Refused)
    else if k.pending.None? then InstallPlan(k, spec, session, owner, order, course)
    else if k.pending.value.spec.package != spec.package || k.pending.value.phase != Failing then Plan([], Refused)
    else if !yes then Plan([], Cancelled)
    else ReenrollPlan(k, spec, session, owner, course)
  }

  ghost function ManagedPlan(k: Disk, spec: Spec, session: string, owner: string, yes: bool, order: seq<nat>, course: Course): Plan {
    if spec.package in k.local then Plan([], Refused)
    else
      var retired := RetirePlan(k, Listing(k, order));
      Then(retired, ManagedRest(Exec(k, retired.ops), spec, session, owner, yes, order, course))
  }

  /** The uninstall action: a removed bundle's preserved data is purged. */
  ghost function RemovePlan(k: Disk, spec: Spec, choice: Choice, deleteTyped: bool, torn: Both<Remnant>): Plan {
    if spec.package !in k.local then UninstallPlan(k, spec, choice, deleteTyped, torn)
    else if k.local[spec.package] != spec.device then Plan([], Refused)
    else PurgePlan(k, spec, deleteTyped, torn)
  }

  ghost function PlanOf(k: Disk, a: Action): Plan {
    match a
    case Install(spec, session, owner, order, course) => InstallPlan(k, spec, session, owner, order, course)
    case Reenroll(spec, session, owner, course) => ReenrollPlan(k, spec, session, owner, course)
    case ManagedInstall(spec, session, owner, yes, order, course) => ManagedPlan(k, spec, session, owner, yes, order, course)
    case Remove(spec, choice, deleteTyped, torn) => RemovePlan(k, spec, choice, deleteTyped, torn)
    case Collect(gathered) => Plan(Gathers([HostScope, NetworkScope], gathered), Ok)
    case Supervise(active) => Plan([Settle(active)], Ok)
  }

  ghost function Step(k: Disk, c: Command): Disk {
    Reached(k, PlanOf(k, c.action), c.fuse)
  }

  /** The operations that a command performs before it stops. */
  ghost function Performed(k: Disk, c: Command): seq<Op> {
    Cut(PlanOf(k, c.action).ops, c.fuse)
  }

  /** A run: the disk at its start and after each of the commands. */
  ghost predicate Run(disks: seq<Disk>, commands: seq<Command>) {
    && |disks| == |commands| + 1
    && forall i {:trigger disks[i], commands[i]} :: 0 <= i < |commands| ==> disks[i + 1] == Step(disks[i], commands[i])
  }

  // ----- The commands carry out their plans -----

  method Manage(m: Machine, spec: Spec, session: string, owner: string, yes: bool, order: seq<nat>, course: Course) returns (outcome: Outcome)
    modifies m
    ensures Ran(old(m.disk), old(m.fuse), ManagedPlan(old(m.disk), spec, session, owner, yes, order, course), m.disk, m.fuse, outcome)
  {
    if spec.package in m.disk.local {
      RanNothing(m.disk, m.fuse, Refused);
      return Refused;
    }
    ghost var was, fuel, retired := m.disk, m.fuse, RetirePlan(m.disk, Listing(m.disk, order));
    RetireShape(was, Listing(was, order));
    outcome := RetireRemoved(m, order);
    ghost var mid, left := m.disk, m.fuse;
    ghost var rest := ManagedRest(Exec(was, retired.ops), spec, session, owner, yes, order, course);
    if outcome != Ok {
      RanStop(was, fuel, retired, m.disk, m.fuse, outcome, rest);
      return;
    }
    if m.disk.complete != map[] {
      outcome := Refused;
      RanNothing(mid, left, Refused);
    } else if m.disk.pending.None? {
      outcome := Recovery.Install(m, spec, session, owner, order, course);
    } else if m.disk.pending.value.spec.package != spec.package || m.disk.pending.value.phase != Failing {
      outcome := Refused;
      RanNothing(mid, left, Refused);
    } else if !yes {
      outcome := Cancelled;
      RanNothing(mid, left, Cancelled);
    } else {
      outcome := Recovery.Reenroll(m, spec, session, owner, course);
    }
    RanThen(was, fuel, retired, mid, left, rest, m.disk, m.fuse, outcome);
  }

  method Execute(m: Machine, a: Action) returns (outcome: Outcome)
    modifies m
    ensures Ran(old(m.disk), old(m.fuse), PlanOf(old(m.disk), a), m.disk, m.fuse, outcome)
  {
    match a
    case Install(spec, session, owner, order, course) => outcome := Recovery.Install(m, spec, session, owner, order, course);
    case Reenroll(spec, session, owner, course) => outcome := Recovery.Reenroll(m, spec, session, owner, course);
    case ManagedInstall(spec, session, owner, yes, order, course) => outcome := Manage(m, spec, session, owner, yes, order, course);
    case Remove(spec, choice, deleteTyped, torn) =>
      if spec.package !in m.disk.local {
        outcome := Uninstall(m, spec, choice, deleteTyped, torn);
      } else if m.disk.local[spec.package] != spec.device {
        outcome := Refused;
        RanNothing(m.disk, m.fuse, Refused);
      } else {
        outcome := Purge(m, spec, deleteTyped, torn);
      }
    case Collect(gathered) =>
      var alive := m.DoAll(Gathers([HostScope, NetworkScope], gathered));
      outcome := if alive then Ok else Killed;
    case Supervise(active) =>
      var alive := m.Do(Settle(active));
      outcome := if alive then Ok else Killed;
  }

  /** The commands, one after the other under the lock, make a run. */
  method Serve(m: Machine, commands: seq<Command>) returns (ghost disks: seq<Disk>)
    modifies m
    ensures Run(disks, commands) && disks[0] == old(m.disk) && disks[|commands|] == m.disk
  {
    disks := [m.disk];
    for i := 0 to |commands|
      invariant |disks| == i + 1 && disks[0] == old(m.disk) && disks[i] == m.disk
      invariant forall j {:trigger disks[j], commands[j]} :: 0 <= j < i ==> disks[j + 1] == Step(disks[j], commands[j])
    {
      m.fuse := commands[i].fuse;
      var _ := Execute(m, commands[i].action);
      disks := disks + [m.disk];
    }
  }

  // ----- What the plans consist of -----

  /** The operations of enrollment: no archive record, no removal, no data given up. */
  predicate Enrolling(op: Op) {
    && !Erasing(op) && !op.MakeArchive? && !op.WriteOperation? && !op.RetireRoot? && !op.WriteLocal?
  }

  predicate AllEnrolling(ops: seq<Op>) {
    forall i :: 0 <= i < |ops| ==> Enrolling(ops[i])
  }

  /** Operations that write no completion receipt. */
  predicate NoReceipt(ops: seq<Op>) {
    forall i :: 0 <= i < |ops| ==> !ops[i].WriteComplete?
  }

  lemma ProbedAppend(a: seq<Op>, b: seq<Op>)
    requires ProbedFirst(a) && ProbedFirst(b)
    ensures ProbedFirst(a + b)
  {
    forall i | 0 <= i < |a + b| && (a + b)[i].WriteComplete? ensures i > 0 && (a + b)[i - 1] == Probe((a + b)[i].receipt.session) {
      if i >= |a| { assert b[i - |a|].WriteComplete? && (a + b)[i - 1] == b[i - |a| - 1]; }
    }
  }

  lemma {:induction false} ScriptsPlain(roles: seq<Scope>, owner: string, course: Course)
    ensures NoReceipt(Scripts(roles, owner, course)) && AllEnrolling(Scripts(roles, owner, course))
  {
    if roles != [] { ScriptsPlain(roles[..|roles| - 1], owner, course); }
  }

  lemma TailShape(spec: Spec, owner: string, session: string, files: map<Scope, Files>, course: Course)
    ensures ProbedFirst(Tail(spec, owner, session, files, course)) && AllEnrolling(Tail(spec, owner, session, files, course))
  {
    var gathers, receipts := Gathers(Roles(spec), course.gathered), Receipts(spec, owner, session, files);
    assert receipts[0] == Probe(session) && receipts[1].receipt.session == session;
    ProbedAppend(gathers, receipts);
    ProbedAppend(StartOps(StartUnits(spec)), gathers + receipts);
    ProbedAppend([WritePending(Receipt(Starting, owner, spec, session, files))], StartOps(StartUnits(spec)) + (gathers + receipts));
  }

  lemma FreshShape(spec: Spec, session: string, owner: string, course: Course)
    ensures ProbedFirst(FreshOps(spec, session, owner, course)) && AllEnrolling(FreshOps(spec, session, owner, course))
  {
    var scripts, tail := Scripts(Roles(spec), owner, course), Tail(spec, owner, session, FilesFor(spec, course.laid), course);
    ScriptsPlain(Roles(spec), owner, course);
    TailShape(spec, owner, session, FilesFor(spec, course.laid), course);
    ProbedAppend(scripts, tail);
    ProbedAppend([Preparation(spec, owner, session)], scripts + tail);
  }

  lemma IntactShape(spec: Spec, session: string, owner: string, course: Course)
    ensures ProbedFirst(IntactOps(spec, session, owner, course)) && AllEnrolling(IntactOps(spec, session, owner, course))
  {
    var keys, tail := Rewrites(Roles(spec), course.keyed), Tail(spec, owner, session, FilesFor(spec, course.keyed), course);
    TailShape(spec, owner, session, FilesFor(spec, course.keyed), course);
    ProbedAppend(keys, tail);
    ProbedAppend([Preparation(spec, owner, session)], keys + tail);
    ProbedAppend(Rewrites(Roles(spec), course.configured), [Preparation(spec, owner, session)] + (keys + tail));
  }

  lemma AsideShape(spec: Spec, id: nat)
    ensures ProbedFirst(AsideOps(spec, id)) && AllEnrolling(AsideOps(spec, id))
  {
    var sets, moves := SetAsides(Roles(spec), id), MoveUnits(Units(spec), id);
    assert forall i :: 0 <= i < |AsideOps(spec, id)| ==>
                         AsideOps(spec, id)[i] == if i == 0 then MakeBackup else if i <= |sets| then sets[i - 1] else moves[i - 1 - |sets|];
  }

  lemma AttemptShape(k: Disk, spec: Spec, session: string, owner: string, course: Course)
    requires k.pending.Some?
    ensures var a := Reattempt(k, spec, session, owner, course); ProbedFirst(a.ops) && AllEnrolling(a.ops)
  {
    if k.pending.value.files != map[] {
      IntactShape(spec, session, k.pending.value.owner, course);
    } else {
      AsideShape(spec, k.names);
      FreshShape(spec, session, owner, course);
      ProbedAppend(AsideOps(spec, k.names), FreshOps(spec, session, owner, course));
    }
  }

  lemma TriedShape(k: Disk, spec: Spec, session: string, a: Attempt, raises: Option<nat>)
    requires ProbedFirst(a.ops) && AllEnrolling(a.ops)
    ensures var p := Tried(k, spec, session, a, raises); ProbedFirst(p.ops) && AllEnrolling(p.ops)
  {
  }

  lemma RetiringShape(k: Disk, listing: seq<nat>)
    ensures ProbedFirst(RetirePlan(k, listing).ops) && AllEnrolling(RetirePlan(k, listing).ops)
  {
    RetireShape(k, listing);
  }

  lemma InstallShape(k: Disk, spec: Spec, session: string, owner: string, order: seq<nat>, course: Course)
    ensures var p := InstallPlan(k, spec, session, owner, order, course); ProbedFirst(p.ops) && AllEnrolling(p.ops)
  {
    var retired := RetirePlan(k, Listing(k, order));
    var mid := Exec(k, retired.ops);
    RetiringShape(k, Listing(k, order));
    FreshShape(spec, session, owner, course);
    TriedShape(mid, spec, session, Fresh(spec, session, owner, course), course.raises);
    ProbedAppend(retired.ops, FreshPlan(mid, spec, session, owner, course).ops);
  }

  lemma ReenrollShape(k: Disk, spec: Spec, session: string, owner: string, course: Course)
    ensures var p := ReenrollPlan(k, spec, session, owner, course); ProbedFirst(p.ops) && AllEnrolling(p.ops)
  {
    if k.pending.Some? {
      AttemptShape(k, spec, session, owner, course);
      TriedShape(k, spec, session, Reattempt(k, spec, session, owner, course), course.raises);
    }
  }

  lemma ManagedShape(k: Disk, spec: Spec, session: string, owner: string, yes: bool, order: seq<nat>, course: Course)
    ensures var p := ManagedPlan(k, spec, session, owner, yes, order, course); ProbedFirst(p.ops) && AllEnrolling(p.ops)
  {
    var retired := RetirePlan(k, Listing(k, order));
    var mid := Exec(k, retired.ops);
    RetiringShape(k, Listing(k, order));
    InstallShape(mid, spec, session, owner, order, course);
    ReenrollShape(mid, spec, session, owner, course);
    ProbedAppend(retired.ops, ManagedRest(mid, spec, session, owner, yes, order, course).ops);
  }

  lemma {:induction false} ClearsShape(roles: seq<Scope>, id: nat, preserve: bool, torn: Both<Remnant>)
    ensures NoReceipt(ClearOps(roles, id, preserve, torn)) && (preserve ==> Preserving(ClearOps(roles, id, preserve, torn)))
  {
    if roles != [] { ClearsShape(roles[..|roles| - 1], id, preserve, torn); }
  }

  lemma {:induction false} ErasesShape(roles: seq<Scope>, id: nat, torn: Both<Remnant>)
    ensures NoReceipt(EraseOps(roles, id, torn))
  {
    if roles != [] { ErasesShape(roles[..|roles| - 1], id, torn); }
  }

  lemma UninstallShape(k: Disk, spec: Spec, choice: Choice, deleteTyped: bool, torn: Both<Remnant>)
    ensures var p := UninstallPlan(k, spec, choice, deleteTyped, torn); NoReceipt(p.ops) && (!deleteTyped ==> Preserving(p.ops))
  {
    var p := UninstallPlan(k, spec, choice, deleteTyped, torn);
    if p.ops != [] {
      var session :| p.ops == UninstallOps(spec, k.names, session, choice == KeepData, torn);
      UninstallOpsShape(spec, k.names, session, choice == KeepData, torn);
    }
  }

  lemma UninstallOpsShape(spec: Spec, id: nat, session: string, preserve: bool, torn: Both<Remnant>)
    ensures var ops := UninstallOps(spec, id, session, preserve, torn); NoReceipt(ops) && (preserve ==> Preserving(ops))
  {
    var clears, closing := ClearOps(Roles(spec), id, preserve, torn), Closing(spec, id, session, preserve);
    ClearsShape(Roles(spec), id, preserve, torn);
    PlainAppend(clears, closing, preserve);
    PlainAppend(DropOps(Units(spec)), clears + closing, preserve);
    PlainAppend(Opening(spec, id, session, preserve), DropOps(Units(spec)) + (clears + closing), preserve);
    PlainAppend(StopOps(Units(spec)), TakeOutOps(spec, id, session, preserve, torn), preserve);
  }

  lemma PlainAppend(a: seq<Op>, b: seq<Op>, preserve: bool)
    requires NoReceipt(a) && NoReceipt(b) && (preserve ==> Preserving(a) && Preserving(b))
    ensures NoReceipt(a + b) && (preserve ==> Preserving(a + b))
  {
  }

  lemma PurgeShape(k: Disk, spec: Spec, deleteTyped: bool, torn: Both<Remnant>)
    ensures var p := PurgePlan(k, spec, deleteTyped, torn); NoReceipt(p.ops) && (!deleteTyped ==> Preserving(p.ops))
  {
    forall id { ErasesShape(Roles(spec), id, torn); }
  }

  lemma RemoveShape(k: Disk, spec: Spec, choice: Choice, deleteTyped: bool, torn: Both<Remnant>)
    ensures var p := RemovePlan(k, spec, choice, deleteTyped, torn); NoReceipt(p.ops) && (!deleteTyped ==> Preserving(p.ops))
  {
    UninstallShape(k, spec, choice, deleteTyped, torn);
    PurgeShape(k, spec, deleteTyped, torn);
  }

  /** Every command writes a completion receipt only right after its probe, and gives up data only when DELETE
      was typed. */
  lemma PlanShape(k: Disk, a: Action)
    ensures ProbedFirst(PlanOf(k, a).ops) && (!(a.Remove? && a.deleteTyped) ==> Preserving(PlanOf(k, a).ops))
  {
    match a
    case Install(spec, session, owner, order, course) => InstallShape(k, spec, session, owner, order, course);
    case Reenroll(spec, session, owner, course) => ReenrollShape(k, spec, session, owner, course);
    case ManagedInstall(spec, session, owner, yes, order, course) => ManagedShape(k, spec, session, owner, yes, order, course);
    case Remove(spec, choice, deleteTyped, torn) => RemoveShape(k, spec, choice, deleteTyped, torn);
    case Collect(gathered) =>
    case Supervise(active) =>
  }

  // ----- Over every run -----

  /** One command, stopped anywhere. */
  lemma StepInv(k: Disk, c: Command)
    requires Inv(k)
    ensures Inv(Step(k, c)) && k.collected <= Step(k, c).collected && k.purged <= Step(k, c).purged && k.probed <= Step(k, c).probed
    ensures !(c.action.Remove? && c.action.deleteTyped) ==> Step(k, c).purged == k.purged
  {
    PlanShape(k, c.action);
    AfterCut(k, PlanOf(k, c.action).ops, c.fuse);
    ExecInv(k, Performed(k, c));
  }

  lemma NextInv(disks: seq<Disk>, commands: seq<Command>, i: nat)
    requires Run(disks, commands) && i < |commands| && Inv(disks[i])
    ensures Inv(disks[i + 1]) && disks[i].collected <= disks[i + 1].collected && disks[i].purged <= disks[i + 1].purged
  {
    StepInv(disks[i], commands[i]);
  }

  lemma {:induction false} RunInv(disks: seq<Disk>, commands: seq<Command>, n: nat)
    requires Run(disks, commands) && Inv(disks[0]) && n <= |commands|
    ensures Inv(disks[n])
  {
    if n > 0 {
      RunInv(disks, commands, n - 1);
      NextInv(disks, commands, n - 1);
    }
  }

  /** The i-th command, at which DELETE had been typed, gave up this datum. */
  ghost predicate GivesUp(disks: seq<Disk>, commands: seq<Command>, i: nat, d: nat)
    requires |disks| == |commands| + 1
  {
    && i < |commands| && commands[i].action.Remove? && commands[i].action.deleteTyped
    && d !in disks[i].purged && d in disks[i + 1].purged
  }

  lemma GivenUpNow(disks: seq<Disk>, commands: seq<Command>, i: nat, d: nat)
    requires Run(disks, commands) && i < |commands| && Inv(disks[i]) && d !in disks[i].purged && d in disks[i + 1].purged
    ensures GivesUp(disks, commands, i, d)
  {
    StepInv(disks[i], commands[i]);
  }

  lemma {:induction false} PurgedGivenUp(disks: seq<Disk>, commands: seq<Command>, n: nat, d: nat)
    requires Run(disks, commands) && Inv(disks[0]) && n <= |commands| && d !in disks[0].purged && d in disks[n].purged
    ensures exists i: nat :: i < n && GivesUp(disks, commands, i, d)
  {
    if n > 0 {
      if d in disks[n - 1].purged {
        PurgedGivenUp(disks, commands, n - 1, d);
      } else {
        RunInv(disks, commands, n - 1);
        GivenUpNow(disks, commands, n - 1, d);
      }
    }
  }

  /** In every run, data collected at any time is in a root, an archive or a backup, unless some command at which
      DELETE had been typed gave it up. */
  lemma RunKeepsData(disks: seq<Disk>, commands: seq<Command>, i: nat, n: nat, d: nat)
    requires Run(disks, commands) && Inv(disks[0]) && i <= n <= |commands|
    requires d in disks[i].collected && d !in disks[0].purged
    ensures Held(disks[n], d) || exists j: nat :: j < n && GivesUp(disks, commands, j, d)
  {
    CollectedGrows(disks, commands, i, n);
    RunInv(disks, commands, n);
    if !Held(disks[n], d) { PurgedGivenUp(disks, commands, n, d); }
  }

  lemma {:induction false} CollectedGrows(disks: seq<Disk>, commands: seq<Command>, i: nat, n: nat)
    requires Run(disks, commands) && Inv(disks[0]) && i <= n <= |commands|
    ensures disks[i].collected <= disks[n].collected
  {
    if i < n {
      CollectedGrows(disks, commands, i, n - 1);
      RunInv(disks, commands, n - 1);
      NextInv(disks, commands, n - 1);
    }
  }

  /** The completion receipt of the session exists, in place or archived. */
  ghost predicate HasReceipt(k: Disk, session: string) {
    session in k.complete || exists a :: a in k.retired && k.retired[a].receipt.Some? && k.retired[a].receipt.value.session == session
  }

  /** In every run, a completion receipt of a session not probed before exists only after some command of the
      run performed the probe of that session. */
  lemma ReceiptAfterProbe(disks: seq<Disk>, commands: seq<Command>, n: nat, session: string)
    requires Run(disks, commands) && Inv(disks[0]) && n <= |commands|
    requires session !in disks[0].probed && HasReceipt(disks[n], session)
    ensures exists i :: 0 <= i < n && Probe(session) in Performed(disks[i], commands[i])
  {
    RunInv(disks, commands, n);
    ProbedByRun(disks, commands, n, session);
  }

  lemma {:induction false} ProbedByRun(disks: seq<Disk>, commands: seq<Command>, n: nat, session: string)
    requires Run(disks, commands) && n <= |commands| && session !in disks[0].probed && session in disks[n].probed
    ensures exists i :: 0 <= i < n && Probe(session) in Performed(disks[i], commands[i])
  {
    if n > 0 {
      if session in disks[n - 1].probed {
        ProbedByRun(disks, commands, n - 1, session);
      } else {
        assert disks[n - 1 + 1] == Step(disks[n - 1], commands[n - 1]);
        AfterCut(disks[n - 1], PlanOf(disks[n - 1], commands[n - 1].action).ops, commands[n - 1].fuse);
        OnlyProbes(disks[n - 1], Performed(disks[n - 1], commands[n - 1]), session);
      }
    }
  }

  /** In every run, a fresh installation passes its guards only when every retired record is a finished deletion
      and nothing of the bundle is in place. */
  lemma FreshInstallGuard(disks: seq<Disk>, commands: seq<Command>, n: nat,
                          spec: Spec, session: string, owner: string, order: seq<nat>, course: Course)
    requires Run(disks, commands) && Inv(disks[0]) && n <= |commands|
    requires InstallPlan(disks[n], spec, session, owner, order, course).outcome != Refused
    ensures AllFinished(disks[n]) && !Blocked(disks[n], spec)
  {
    RunInv(disks, commands, n);
    InstallRefused(disks[n], spec, session, owner, order, course);
    RetireExact(disks[n], Listing(disks[n], order));
    RetiredAllFinished(disks[n], order);
  }

  // ----- An uninstallation that stopped in between -----

  /** The archive's record is missing or says removing. */
  predicate Stuck(k: Disk, id: nat) {
    id in k.retired && (k.retired[id].operation.None? || k.retired[id].operation.value.progress == Removing)
  }

  /** The list of operations leaves the record of this archive alone. */
  predicate Spares(ops: seq<Op>, id: nat) {
    forall i :: 0 <= i < |ops| && ops[i].WriteOperation? ==> ops[i].id != id
  }

  lemma {:induction false} RecordStays(k: Disk, ops: seq<Op>, id: nat)
    requires id in k.retired && id < k.names && Spares(ops, id)
    ensures var next := Exec(k, ops); id in next.retired && next.retired[id].operation == k.retired[id].operation && k.names <= next.names
    decreases |ops|
  {
    if ops == [] {
      AfterNone(k, []);
    } else {
      var n := |ops| - 1;
      RecordStays(k, ops[..n], id);
      ExecLast(k, ops);
      RecordStaysOne(Exec(k, ops[..n]), ops[n], id);
    }
  }

  lemma RecordStaysOne(k: Disk, op: Op, id: nat)
    requires id in k.retired && id < k.names && !(op.WriteOperation? && op.id == id)
    ensures var next := Perform(k, op); id in next.retired && next.retired[id].operation == k.retired[id].operation && k.names <= next.names
  {
    if OnArchives(op) {
    } else if OnRoots(op) {
      OnlyRoots(k, op);
    } else {
      OnlyRecords(k, op);
    }
  }

  lemma {:induction false} ClearsSpare(roles: seq<Scope>, id: nat, preserve: bool, torn: Both<Remnant>, stuck: nat)
    ensures Spares(ClearOps(roles, id, preserve, torn), stuck)
  {
    if roles != [] { ClearsSpare(roles[..|roles| - 1], id, preserve, torn, stuck); }
  }

  lemma {:induction false} ErasesSpare(roles: seq<Scope>, id: nat, torn: Both<Remnant>, stuck: nat)
    ensures Spares(EraseOps(roles, id, torn), stuck)
  {
    if roles != [] { ErasesSpare(roles[..|roles| - 1], id, torn, stuck); }
  }

  lemma UninstallSpares(k: Disk, spec: Spec, choice: Choice, deleteTyped: bool, torn: Both<Remnant>, id: nat)
    requires id < k.names
    ensures Spares(UninstallPlan(k, spec, choice, deleteTyped, torn).ops, id)
  {
    ClearsSpare(Roles(spec), k.names, choice == KeepData, torn, id);
  }

  lemma PurgeSpares(k: Disk, spec: Spec, deleteTyped: bool, torn: Both<Remnant>, id: nat)
    requires Stuck(k, id)
    ensures Spares(PurgePlan(k, spec, deleteTyped, torn).ops, id)
  {
    forall a { ErasesSpare(Roles(spec), a, torn, id); }
    assert !Purgeable(k, spec, id);
  }

  lemma PlanSpares(k: Disk, a: Action, id: nat)
    requires Stuck(k, id) && Inv(k)
    ensures Spares(PlanOf(k, a).ops, id)
  {
    match a
    case Install(spec, session, owner, order, course) => InstallShape(k, spec, session, owner, order, course);
    case Reenroll(spec, session, owner, course) => ReenrollShape(k, spec, session, owner, course);
    case ManagedInstall(spec, session, owner, yes, order, course) => ManagedShape(k, spec, session, owner, yes, order, course);
    case Remove(spec, choice, deleteTyped, torn) =>
      UninstallSpares(k, spec, choice, deleteTyped, torn, id);
      PurgeSpares(k, spec, deleteTyped, torn, id);
    case Collect(gathered) =>
    case Supervise(active) =>
  }

  lemma StuckNext(disks: seq<Disk>, commands: seq<Command>, i: nat, id: nat)
    requires Run(disks, commands) && i < |commands| && Inv(disks[i]) && Stuck(disks[i], id)
    ensures Stuck(disks[i + 1], id) && disks[i + 1].retired[id].operation == disks[i].retired[id].operation
  {
    PlanSpares(disks[i], commands[i].action, id);
    AfterCut(disks[i], PlanOf(disks[i], commands[i].action).ops, commands[i].fuse);
    RecordStays(disks[i], Performed(disks[i], commands[i]), id);
  }

  /** An uninstallation stopped between making its archive and its last record blocks every fresh installation
      from then on, in every run; and every purge, of any device, if it stopped before its first record. */
  lemma {:induction false} StuckForGood(disks: seq<Disk>, commands: seq<Command>, id: nat, n: nat)
    requires Run(disks, commands) && Inv(disks[0]) && n <= |commands| && Stuck(disks[0], id)
    ensures Stuck(disks[n], id) && disks[n].retired[id].operation == disks[0].retired[id].operation
    ensures forall spec, session, owner, order, course :: InstallPlan(disks[n], spec, session, owner, order, course).outcome == Refused
    ensures disks[0].retired[id].operation.None? ==> forall spec :: !PurgeAccepted(disks[n], spec)
  {
    if n > 0 {
      StuckForGood(disks, commands, id, n - 1);
      RunInv(disks, commands, n - 1);
      StuckNext(disks, commands, n - 1, id);
    }
    RunInv(disks, commands, n);
    forall spec, session, owner, order, course
      ensures InstallPlan(disks[n], spec, session, owner, order, course).outcome == Refused
    {
      StuckRefuses(disks[n], id, spec, session, owner, order, course);
    }
  }

  lemma StuckRefuses(k: Disk, id: nat, spec: Spec, session: string, owner: string, order: seq<nat>, course: Course)
    requires Stuck(k, id) && Inv(k)
    ensures InstallPlan(k, spec, session, owner, order, course).outcome == Refused
  {
    UnfinishedRefused(k, order, id);
  }

  /** An uninstallation stopped after its first operation and before its last record leaves such an archive. */
  lemma StoppedIsStuck(k: Disk, spec: Spec, choice: Choice, deleteTyped: bool, torn: Both<Remnant>, fuse: nat)
    requires Inv(k) && spec.package !in k.local && UninstallPlan(k, spec, choice, deleteTyped, torn).outcome == Ok
    ensures var p := UninstallPlan(k, spec, choice, deleteTyped, torn);
            Stuck(Reached(k, p, fuse), k.names) <==> |Units(spec)| < fuse < |p.ops| - 1
  {
    var session, n, total := UninstallStopped(k, spec, choice, deleteTyped, torn, fuse);
  }
}
