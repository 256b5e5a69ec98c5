/** Uninstallations that stop (deploy/agents/agent-manager.py, `manage`): what is left after any number of
    their file operations, and which later command accepts it. */
module RemovalStops {
  import opened Wrappers
  import opened CollectorDisk
  import opened Enrollment
  import opened Attempts
  import opened Recovery
  import opened Removal

  // ----- What is left after n operations -----

  lemma {:induction false} DropsStop(k: Disk, units: seq<Unit>, n: nat)
    requires n <= |units|
    ensures After(k, DropOps(units), n) == k.(units := k.units - Elements(units[..n]))
  {
    if n == 0 {
      AfterNone(k, []);
      assert Elements(units[..0]) == {} && k.units - {} == k.units && DropOps(units)[..0] == [];
    } else {
      DropsStop(k, units, n - 1);
      AfterStep(k, DropOps(units), n, DropUnit(units[n - 1]));
      ElementsSnoc(units, n);
      var mid := k.(units := k.units - Elements(units[..n - 1]));
      assert Perform(mid, DropUnit(units[n - 1])) == mid.(units := mid.units - {units[n - 1]});
      assert k.units - Elements(units[..n]) == mid.units - {units[n - 1]};
    }
  }

  /** Only the roots and the trees of one archive changed. */
  ghost predicate Clearing(k: Disk, next: Disk, id: nat) {
    && next == k.(roots := next.roots, retired := next.retired, purged := next.purged)
    && id in k.retired && id in next.retired
    && next.retired == k.retired[id := k.retired[id].(trees := next.retired[id].trees)]
  }

  /** The roots of these scopes are gone; with `preserve` the archive holds exactly them. */
  ghost predicate Cleared(k: Disk, next: Disk, id: nat, gone: set<Scope>, preserve: bool) {
    && Clearing(k, next, id)
    && next.roots == k.roots - gone
    && HoldsRoots(k, next.retired[id].trees, gone, preserve)
  }

  ghost predicate HoldsRoots(k: Disk, trees: map<Scope, Tree>, gone: set<Scope>, preserve: bool) {
    && (forall s :: s in trees <==> preserve && s in gone && s in k.roots)
    && (forall s :: s in trees ==> trees[s] == k.roots[s])
  }

  lemma ClearingOne(k: Disk, id: nat, op: Op)
    requires id in k.retired
    requires op.TearRoot? || op.RemoveRoot? || (op.RetireRoot? && op.id == id)
    ensures Clearing(k, Perform(k, op), id)
  {
    assert k.retired == k.retired[id := k.retired[id]];
    assert k.retired[id] == k.retired[id].(trees := k.retired[id].trees);
    if op.RetireRoot? && op.scope in k.roots && op.scope !in k.retired[id].trees {
      var next := Perform(k, op);
      assert next.retired == k.retired[id := k.retired[id].(trees := next.retired[id].trees)];
    } else if op.RetireRoot? {
      assert Perform(k, op) == k;
    }
  }

  lemma ClearingThen(a: Disk, b: Disk, c: Disk, id: nat)
    requires Clearing(a, b, id) && Clearing(b, c, id)
    ensures Clearing(a, c, id)
  {
    assert c.retired == a.retired[id := a.retired[id].(trees := c.retired[id].trees)];
  }

  predicate ClearsOnly(ops: seq<Op>, id: nat) {
    forall i :: 0 <= i < |ops| ==> ops[i].TearRoot? || ops[i].RemoveRoot? || (ops[i].RetireRoot? && ops[i].id == id)
  }

  lemma {:induction false} ClearsShape(roles: seq<Scope>, id: nat, preserve: bool, torn: Both<Remnant>)
    ensures ClearsOnly(ClearOps(roles, id, preserve, torn), id)
  {
    if roles != [] { ClearsShape(roles[..|roles| - 1], id, preserve, torn); }
  }

  lemma {:induction false} ClearsStop(k: Disk, ops: seq<Op>, id: nat, n: nat)
    requires ClearsOnly(ops, id) && id in k.retired && n <= |ops|
    ensures Clearing(k, After(k, ops, n), id)
  {
    if n == 0 {
      AfterNone(k, []);
      assert ops[..0] == [] && k.retired == k.retired[id := k.retired[id]];
    } else {
      ClearsStop(k, ops, id, n - 1);
      AfterStep(k, ops, n, ops[n - 1]);
      ClearingOne(After(k, ops, n - 1), id, ops[n - 1]);
      ClearingThen(k, After(k, ops, n - 1), After(k, ops, n), id);
    }
  }

  lemma RetireOne(k: Disk, mid: Disk, id: nat, gone: set<Scope>, s: Scope)
    requires Cleared(k, mid, id, gone, true) && s in k.roots && s !in gone
    ensures Cleared(k, Perform(mid, RetireRoot(id, s)), id, gone + {s}, true)
  {
    var trees := mid.retired[id].trees[s := mid.roots[s]];
    var next := WithArchive(mid, id, mid.retired[id].(trees := trees)).(roots := mid.roots - {s});
    assert next == Perform(mid, RetireRoot(id, s));
    assert next.retired == k.retired[id := k.retired[id].(trees := trees)];
    assert k.roots - (gone + {s}) == (k.roots - gone) - {s};
  }

  lemma RemoveOne(k: Disk, mid: Disk, id: nat, gone: set<Scope>, s: Scope, r: Remnant)
    requires Cleared(k, mid, id, gone, false) && s in k.roots && s !in gone
    ensures Cleared(k, Perform(Perform(mid, TearRoot(s, r)), RemoveRoot(s)), id, gone + {s}, false)
  {
    var torn := mid.(roots := mid.roots[s := Torn(mid.roots[s], r)], purged := mid.purged + mid.roots[s].data);
    assert torn == Perform(mid, TearRoot(s, r));
    var next := torn.(roots := torn.roots - {s}, purged := torn.purged + torn.roots[s].data);
    assert next == Perform(torn, RemoveRoot(s));
    assert next.roots == k.roots - (gone + {s});
  }

  lemma ClearOneDone(k: Disk, mid: Disk, id: nat, gone: set<Scope>, s: Scope, preserve: bool, torn: Both<Remnant>)
    requires Cleared(k, mid, id, gone, preserve) && s in k.roots && s !in gone
    ensures Cleared(k, Exec(mid, ClearOne(s, id, preserve, torn)), id, gone + {s}, preserve)
  {
    if preserve {
      ExecOne(mid, RetireRoot(id, s));
      RetireOne(k, mid, id, gone, s);
    } else {
      ExecAppend(mid, [TearRoot(s, torn.Of(s))], [RemoveRoot(s)]);
      ExecOne(Exec(mid, [TearRoot(s, torn.Of(s))]), RemoveRoot(s));
      ExecOne(mid, TearRoot(s, torn.Of(s)));
      assert [TearRoot(s, torn.Of(s))] + [RemoveRoot(s)] == ClearOne(s, id, false, torn);
      RemoveOne(k, mid, id, gone, s, torn.Of(s));
    }
  }

  lemma {:induction false} ClearsDone(k: Disk, roles: seq<Scope>, id: nat, preserve: bool, torn: Both<Remnant>)
    requires id in k.retired && k.retired[id].trees == map[] && Distinct(roles) && forall s :: s in roles ==> s in k.roots
    ensures Cleared(k, Exec(k, ClearOps(roles, id, preserve, torn)), id, Elements(roles), preserve)
  {
    if roles == [] {
      AfterNone(k, []);
      assert k.roots - {} == k.roots && Elements(roles) == {} && k.retired == k.retired[id := k.retired[id]];
    } else {
      var m := |roles| - 1;
      ClearsDone(k, roles[..m], id, preserve, torn);
      ExecAppend(k, ClearOps(roles[..m], id, preserve, torn), ClearOne(roles[m], id, preserve, torn));
      ElementsSnoc(roles, |roles|);
      assert roles[..|roles|] == roles && roles[m] !in Elements(roles[..m]);
      ClearOneDone(k, Exec(k, ClearOps(roles[..m], id, preserve, torn)), id, Elements(roles[..m]), roles[m], preserve, torn);
    }
  }

  /** The operation record of the new archive. */
  function RecordAt(spec: Spec, session: string, preserve: bool, n: nat, total: nat): Option<Operation> {
    if n <= 1 then None
    else Some(Operation(if n + 1 < total then Removing else Removed, spec.device, session, preserve))
  }

  /** The files of an uninstallation stopped after n of its operations on files. */
  ghost predicate Left(k: Disk, next: Disk, spec: Spec, session: string, preserve: bool, n: nat, total: nat) {
    && next.complete == k.complete && next.pending == k.pending && next.names == k.names + (if n == 0 then 0 else 1)
    && next.local == (if n < total then k.local else k.local[spec.package := spec.device])
    && next.retired.Keys == k.retired.Keys + (if n == 0 then {} else {k.names})
    && (forall a :: a in k.retired && a != k.names ==> next.retired[a] == k.retired[a])
    && (n > 0 ==> k.names in next.retired && NewArchive(k, next.retired[k.names], spec, session, preserve, n, total))
    && (n <= 2 ==> next.roots == k.roots && next.units == k.units)
    && (n > 2 ==> Service(HostScope) !in next.units)
    && (n > 0 ==> Idle(next, spec))
    && (n + 1 >= total ==> next.roots == k.roots - RoleSet(spec) && next.units == k.units - UnitSet(spec))
  }

  ghost predicate NewArchive(k: Disk, a: Archive, spec: Spec, session: string, preserve: bool, n: nat, total: nat) {
    && a.receipt.None? && a.operation == RecordAt(spec, session, preserve, n, total)
    && (n + 1 >= total ==> HoldsRoots(k, a.trees, RoleSet(spec), preserve))
  }

  function Opened(k: Disk, spec: Spec, session: string, preserve: bool): Disk {
    k.(retired := k.retired[k.names := Archive(Some(Operation(Removing, spec.device, session, preserve)), map[], None)], names := k.names + 1)
  }

  lemma OpeningStop(k: Disk, spec: Spec, session: string, preserve: bool, n: nat, total: nat)
    requires n <= 2 < total - 1 && Idle(k, spec)
    ensures Left(k, After(k, Opening(spec, k.names, session, preserve), n), spec, session, preserve, n, total)
    ensures n == 2 ==> After(k, Opening(spec, k.names, session, preserve), n) == Opened(k, spec, session, preserve)
  {
    var ops := Opening(spec, k.names, session, preserve);
    assert ops[..0] == [];
    AfterNone(k, []);
    if n > 0 {
      OpeningOps(k, spec, session, preserve);
      OpenedLeft(k, spec, session, preserve, total);
    }
  }

  function Made(k: Disk): Disk {
    k.(retired := k.retired[k.names := Archive(None, map[], None)], names := k.names + 1)
  }

  lemma OpeningOps(k: Disk, spec: Spec, session: string, preserve: bool)
    ensures var ops := Opening(spec, k.names, session, preserve);
            After(k, ops, 1) == Made(k) && After(k, ops, 2) == Opened(k, spec, session, preserve)
  {
    var ops, op := Opening(spec, k.names, session, preserve), Operation(Removing, spec.device, session, preserve);
    AfterNone(k, ops);
    AfterStep(k, ops, 1, MakeArchive);
    assert Perform(k, MakeArchive) == Made(k);
    AfterStep(k, ops, 2, WriteOperation(k.names, op));
    assert Perform(Made(k), WriteOperation(k.names, op)) == WithArchive(Made(k), k.names, Archive(Some(op), map[], None));
  }

  lemma OpenedLeft(k: Disk, spec: Spec, session: string, preserve: bool, total: nat)
    requires Idle(k, spec) && 2 < total - 1
    ensures Left(k, Made(k), spec, session, preserve, 1, total) && Left(k, Opened(k, spec, session, preserve), spec, session, preserve, 2, total)
  {
  }

  lemma ClosingStop(k: Disk, spec: Spec, id: nat, session: string, preserve: bool, n: nat)
    requires id in k.retired && 0 < n <= 2
    ensures var noted := WithArchive(k, id, k.retired[id].(operation := Some(Operation(Removed, spec.device, session, preserve))));
            After(k, Closing(spec, id, session, preserve), n)
            == if n == 1 then noted else noted.(local := k.local[spec.package := spec.device])
  {
    var ops := Closing(spec, id, session, preserve);
    AfterNone(k, ops);
    AfterStep(k, ops, 1, WriteOperation(id, Operation(Removed, spec.device, session, preserve)));
    if n == 2 { AfterStep(k, ops, 2, WriteLocal(spec.package, spec.device)); }
  }

  /** From any point inside the removal of units and roots. */
  lemma MiddleLeft(k: Disk, dropped: Disk, next: Disk, spec: Spec, session: string, preserve: bool, n: nat, total: nat)
    requires k.names !in k.retired && 2 < n < total - 1 && Idle(k, spec)
    requires dropped == Opened(k, spec, session, preserve).(units := dropped.units) && Service(HostScope) !in dropped.units
    requires Clearing(dropped, next, k.names)
    ensures Left(k, next, spec, session, preserve, n, total)
  {
  }

  lemma EndLeft(k: Disk, cleared: Disk, next: Disk, spec: Spec, session: string, preserve: bool, n: nat, total: nat)
    requires k.names !in k.retired && 2 < total - 1 <= n <= total && Idle(k, spec)
    requires Cleared(Opened(k, spec, session, preserve).(units := k.units - UnitSet(spec)), cleared, k.names, RoleSet(spec), preserve)
    requires var op := Operation(Removed, spec.device, session, preserve);
             var noted := WithArchive(cleared, k.names, cleared.retired[k.names].(operation := Some(op)));
             next == if n < total then noted else noted.(local := cleared.local[spec.package := spec.device])
    ensures Left(k, next, spec, session, preserve, n, total)
  {
  }

  /** How many operations on files n operations are, the services being stopped before them. */
  function OnFiles(spec: Spec, n: nat): nat {
    if n <= |Units(spec)| then 0 else n - |Units(spec)|
  }

  lemma UninstallStop(k: Disk, spec: Spec, session: string, preserve: bool, torn: Both<Remnant>, n: nat)
    requires k.names !in k.retired && forall s :: s in RoleSet(spec) ==> s in k.roots
    requires n <= |UninstallOps(spec, k.names, session, preserve, torn)|
    ensures var ops := UninstallOps(spec, k.names, session, preserve, torn);
            OnFiles(spec, |ops|) > 6 && Left(k, After(k, ops, n), spec, session, preserve, OnFiles(spec, n), OnFiles(spec, |ops|))
  {
    var stops, files := StopOps(Units(spec)), TakeOutOps(spec, k.names, session, preserve, torn);
    if n <= |stops| {
      TakeOutLong(spec, k.names, session, preserve, torn);
      StopsStop(k, Units(spec), n);
      StoppingLeft(k, After(k, stops, n), spec, session, preserve, |files|);
    } else {
      AllStopped(k, spec);
      TakeOutStop(k.(running := k.running - UnitSet(spec)), spec, session, preserve, torn, n - |stops|);
      LeftSince(k, Exec(k, stops), After(Exec(k, stops), files, n - |stops|), spec, session, preserve, n - |stops|, |files|);
    }
    StopsThen(k, spec, session, preserve, stops, files, n);
  }

  lemma StopsThen(k: Disk, spec: Spec, session: string, preserve: bool, stops: seq<Op>, files: seq<Op>, n: nat)
    requires |stops| == |Units(spec)| && n <= |stops| + |files|
    requires Left(k, if n <= |stops| then After(k, stops, n) else After(Exec(k, stops), files, n - |stops|), spec, session, preserve,
                  if n <= |stops| then 0 else n - |stops|, |files|)
    ensures Left(k, After(k, stops + files, n), spec, session, preserve, OnFiles(spec, n), OnFiles(spec, |stops + files|))
  {
    AfterAppend(k, stops, files, n);
    if n == |stops| {
      AfterAll(k, stops, n);
      AfterNone(Exec(k, stops), files);
    }
  }

  lemma TakeOutLong(spec: Spec, id: nat, session: string, preserve: bool, torn: Both<Remnant>)
    ensures |TakeOutOps(spec, id, session, preserve, torn)| > 6
  {
    ClearsSome(spec, id, preserve, torn);
  }

  lemma StoppingLeft(k: Disk, next: Disk, spec: Spec, session: string, preserve: bool, total: nat)
    requires next == k.(running := next.running) && total > 1
    ensures Left(k, next, spec, session, preserve, 0, total)
  {
  }

  lemma LeftSince(k: Disk, stopped: Disk, next: Disk, spec: Spec, session: string, preserve: bool, n: nat, total: nat)
    requires stopped == k.(running := stopped.running) && Left(stopped, next, spec, session, preserve, n, total)
    ensures Left(k, next, spec, session, preserve, n, total)
  {
  }

  lemma AllStopped(k: Disk, spec: Spec)
    ensures Exec(k, StopOps(Units(spec))) == k.(running := k.running - UnitSet(spec))
  {
    var units := Units(spec);
    BundleElements(spec);
    StopsStop(k, units, |units|);
    AfterAll(k, StopOps(units), |units|);
    assert units[..|units|] == units;
  }

  lemma TakeOutStop(k: Disk, spec: Spec, session: string, preserve: bool, torn: Both<Remnant>, n: nat)
    requires Idle(k, spec) && k.names !in k.retired && forall s :: s in RoleSet(spec) ==> s in k.roots
    requires n <= |TakeOutOps(spec, k.names, session, preserve, torn)|
    ensures var ops := TakeOutOps(spec, k.names, session, preserve, torn);
            |ops| > 6 && Left(k, After(k, ops, n), spec, session, preserve, n, |ops|)
  {
    var id, units := k.names, Units(spec);
    var opening, drops := Opening(spec, id, session, preserve), DropOps(units);
    var clears, closing := ClearOps(Roles(spec), id, preserve, torn), Closing(spec, id, session, preserve);
    var total := 2 + |units| + |clears| + 2;
    ClearsSome(spec, id, preserve, torn);
    AfterAppend(k, opening, drops + (clears + closing), n);
    if n <= 2 {
      OpeningStop(k, spec, session, preserve, n, total);
    } else {
      OpeningStop(k, spec, session, preserve, 2, total);
      AfterAll(k, opening, 2);
      AfterAppend(Opened(k, spec, session, preserve), drops, clears + closing, n - 2);
      RestStop(k, spec, session, preserve, torn, drops, clears, closing, n - 2, total);
    }
  }

  lemma ClearsSome(spec: Spec, id: nat, preserve: bool, torn: Both<Remnant>)
    ensures |ClearOps(Roles(spec), id, preserve, torn)| > 0
  {
  }

  lemma RestStop(k: Disk, spec: Spec, session: string, preserve: bool, torn: Both<Remnant>,
                 drops: seq<Op>, clears: seq<Op>, closing: seq<Op>, n: nat, total: nat)
    requires Idle(k, spec) && k.names !in k.retired && forall s :: s in RoleSet(spec) ==> s in k.roots
    requires drops == DropOps(Units(spec)) && clears == ClearOps(Roles(spec), k.names, preserve, torn)
    requires closing == Closing(spec, k.names, session, preserve)
    requires 0 < n <= |drops| + |clears| + 2 && total == 2 + |drops| + |clears| + 2 && |clears| > 0
    ensures Left(k, After(Opened(k, spec, session, preserve), drops + (clears + closing), n), spec, session, preserve, n + 2, total)
  {
    var started := Opened(k, spec, session, preserve);
    AfterAppend(started, drops, clears + closing, n);
    if n <= |drops| {
      DropsStop(started, Units(spec), n);
      FirstUnit(spec, n);
      DroppedLeft(k, After(started, drops, n), spec, session, preserve, n + 2, total);
    } else {
      AllDropped(started, spec);
      RootsStop(k, started.(units := k.units - UnitSet(spec)), spec, session, preserve, torn, clears, closing, n - |drops|, n + 2, total);
    }
  }

  lemma AllDropped(k: Disk, spec: Spec)
    ensures Exec(k, DropOps(Units(spec))) == k.(units := k.units - UnitSet(spec))
  {
    var units := Units(spec);
    BundleElements(spec);
    DropsStop(k, units, |units|);
    AfterAll(k, DropOps(units), |units|);
    assert units[..|units|] == units;
  }

  lemma DroppedLeft(k: Disk, next: Disk, spec: Spec, session: string, preserve: bool, n: nat, total: nat)
    requires k.names !in k.retired && 2 < n < total - 1 && Idle(k, spec)
    requires next == Opened(k, spec, session, preserve).(units := next.units) && Service(HostScope) !in next.units
    ensures Left(k, next, spec, session, preserve, n, total)
  {
    assert next.retired == next.retired[k.names := next.retired[k.names]];
    MiddleLeft(k, next, next, spec, session, preserve, n, total);
  }

  lemma FirstUnit(spec: Spec, n: nat)
    requires 0 < n <= |Units(spec)|
    ensures Service(HostScope) in Elements(Units(spec)[..n])
  {
    assert Units(spec)[..n][0] == Service(HostScope);
  }

  lemma RootsStop(k: Disk, dropped: Disk, spec: Spec, session: string, preserve: bool, torn: Both<Remnant>,
                  clears: seq<Op>, closing: seq<Op>, n: nat, at: nat, total: nat)
    requires Idle(k, spec) && k.names !in k.retired && forall s :: s in RoleSet(spec) ==> s in k.roots
    requires dropped == Opened(k, spec, session, preserve).(units := k.units - UnitSet(spec))
    requires clears == ClearOps(Roles(spec), k.names, preserve, torn) && closing == Closing(spec, k.names, session, preserve)
    requires 0 < n <= |clears| + 2 && at > 2 && total > 3 && at + |clears| + 2 == total + n
    ensures Left(k, After(dropped, clears + closing, n), spec, session, preserve, at, total)
  {
    AfterAppend(dropped, clears, closing, n);
    if n <= |clears| {
      ClearsShape(Roles(spec), k.names, preserve, torn);
      ClearsStop(dropped, clears, k.names, n);
      MiddleLeft(k, dropped, After(dropped, clears, n), spec, session, preserve, at, total);
    } else {
      BundleElements(spec);
      RolesElements(spec);
      ClearsDone(dropped, Roles(spec), k.names, preserve, torn);
      ClosingStop(Exec(dropped, clears), spec, k.names, session, preserve, n - |clears|);
      EndLeft(k, Exec(dropped, clears), After(Exec(dropped, clears), closing, n - |clears|), spec, session, preserve, at, total);
    }
  }

  // ----- Which later command accepts it -----

  /** Another uninstallation is accepted exactly when no unit file had gone yet. */
  lemma UninstallAgain(k: Disk, next: Disk, spec: Spec, session: string, preserve: bool, n: nat, total: nat)
    requires Owns(k, spec, session) && Left(k, next, spec, session, preserve, n, total)
    ensures OwnsOne(next, spec) <==> n <= 2
  {
    if n <= 2 {
      StableSame(k, next, spec, k.complete[session].owner);
      assert Owns(next, spec, session);
    } else {
      assert Service(HostScope) in UnitSet(spec);
    }
  }

  /** Every archive is recorded, and for another device. */
  predicate OthersOnly(k: Disk, device: string) {
    forall a :: a in k.retired ==> k.retired[a].operation.Some? && k.retired[a].operation.value.device != device
  }

  predicate PurgeAccepted(k: Disk, spec: Spec) {
    exists id :: id in k.retired && (Purgeable(k, spec, id) || AlreadyPurged(k, spec, id))
  }

  /** A purge is accepted exactly when the uninstallation ran to its end, every other archive is recorded for
      another device, and, if data was preserved, the completion receipt names this device. */
  lemma PurgeAfter(k: Disk, next: Disk, spec: Spec, session: string, preserve: bool, n: nat, total: nat)
    requires Owns(k, spec, session) && k.names !in k.retired && spec.package !in k.local && 2 < total - 1 && n <= total
    requires Left(k, next, spec, session, preserve, n, total)
    ensures PurgeAccepted(next, spec) <==>
            n == total && OthersOnly(k, spec.device) && (preserve ==> k.complete[session].spec.device == spec.device)
  {
    if n == total {
      OneOfAll(k, next, spec.device, k.names);
      PreservedAtEnd(k, next, spec, session, preserve, total);
      PurgeAtEnd(k, next, spec, preserve, k.names);
    }
  }

  lemma PurgeAtEnd(k: Disk, next: Disk, spec: Spec, preserve: bool, id: nat)
    requires id in next.retired && SaysRemoved(next, spec) && (OneArchiveOf(next, spec.device, id) <==> OthersOnly(k, spec.device))
    requires next.retired[id].operation.Some? && next.retired[id].operation.value.device == spec.device
    requires next.retired[id].operation.value.progress == Removed && next.retired[id].operation.value.preserved == preserve
    ensures PurgeAccepted(next, spec) <==>
            OthersOnly(k, spec.device) && (!preserve || Preserved(next, spec, next.retired[id].operation.value, next.retired[id].trees))
  {
    if PurgeAccepted(next, spec) {
      var a :| a in next.retired && (Purgeable(next, spec, a) || AlreadyPurged(next, spec, a));
      assert a == id;
    } else if OthersOnly(k, spec.device) {
      assert !Purgeable(next, spec, id) && !AlreadyPurged(next, spec, id);
    }
  }

  lemma OneOfAll(k: Disk, next: Disk, device: string, id: nat)
    requires id !in k.retired && next.retired.Keys == k.retired.Keys + {id}
    requires forall a :: a in k.retired ==> next.retired[a] == k.retired[a]
    requires next.retired[id].operation.Some? && next.retired[id].operation.value.device == device
    ensures OneArchiveOf(next, device, id) <==> OthersOnly(k, device)
  {
    if OneArchiveOf(next, device, id) {
      forall a | a in k.retired ensures k.retired[a].operation.Some? && k.retired[a].operation.value.device != device {
        assert a in next.retired && a != id;
      }
    } else if OthersOnly(k, device) {
      forall a | a in next.retired
        ensures next.retired[a].operation.Some? && (next.retired[a].operation.value.device == device <==> a == id)
      {
        assert a != id ==> a in k.retired;
      }
    }
  }

  lemma PreservedAtEnd(k: Disk, next: Disk, spec: Spec, session: string, preserve: bool, total: nat)
    requires Owns(k, spec, session) && k.names !in k.retired && 2 < total - 1
    requires Left(k, next, spec, session, preserve, total, total)
    ensures var a := next.retired[k.names];
            Preserved(next, spec, a.operation.value, a.trees) <==> preserve && k.complete[session].spec.device == spec.device
  {
    if preserve {
      var row, trees := k.complete[session], next.retired[k.names].trees;
      assert HostScope in row.files;
      assert row.files.Keys == RoleSet(spec);
      forall s | s in RoleSet(spec) ensures s in trees && row.files[s] == trees[s].files {
        assert row.files[s] == k.roots[s].files;
      }
      assert FilesIntact(row.files, trees, false);
    }
  }

  predicate AllFinished(k: Disk) {
    forall a :: a in k.retired ==> Finished(k.retired[a])
  }

  /** All archives are finished deletions exactly when they were before, and this one was not begun, or was a
      deletion that reached its last record. */
  lemma FinishedAfter(k: Disk, next: Disk, spec: Spec, session: string, preserve: bool, n: nat, total: nat)
    requires k.names !in k.retired && 2 < total - 1 && Left(k, next, spec, session, preserve, n, total)
    ensures AllFinished(next) <==> AllFinished(k) && (n == 0 || (!preserve && n + 1 >= total))
  {
    if AllFinished(next) {
      forall a | a in k.retired ensures Finished(k.retired[a]) { assert a in next.retired; }
      if n > 0 { assert Finished(next.retired[k.names]); }
    } else if AllFinished(k) && n > 0 {
      var a :| a in next.retired && !Finished(next.retired[a]);
      assert a != k.names ==> a in k.retired;
    }
  }

  /** On a machine without other archives, a fresh installation is refused exactly when something is in place,
      or the uninstallation was begun and is not a deletion of an identified device that reached its last record. */
  lemma InstallAfter(k: Disk, next: Disk, spec: Spec, session: string, preserve: bool, n: nat, total: nat,
                     anew: Spec, token: string, owner: string, order: seq<nat>, course: Course)
    requires Owns(k, spec, session) && k.complete[session].spec == spec && k.retired == map[]
    requires 2 < total - 1 && 0 < n <= total && Left(k, next, spec, session, preserve, n, total)
    ensures InstallPlan(next, anew, token, owner, order, course).outcome == Refused <==>
            Blocked(next, anew) || !(!preserve && n + 1 >= total && spec.device != "")
  {
    var id, listing := k.names, Listing(next, order);
    InstallRefused(next, anew, token, owner, order, course);
    assert listing[|order| + id] == id;
    assert next.retired.Keys == {id};
    var good := !preserve && n + 1 >= total && spec.device != "";
    if good {
      assert RowRetirable(next, next.retired[id], next.complete[session]);
      forall i | 0 <= i < |listing| ensures AcceptedAt(next, listing, i) {}
    } else {
      var i := FirstIndex(listing, id, |order| + id);
      assert forall j :: 0 <= j < i ==> listing[j] !in next.retired;
      assert !AcceptedAt(next, listing, i);
    }
  }

  lemma FirstIndex(xs: seq<nat>, x: nat, at: nat) returns (i: nat)
    requires at < |xs| && xs[at] == x
    ensures i < |xs| && xs[i] == x && forall j :: 0 <= j < i ==> xs[j] != x
  {
    i := 0;
    while xs[i] != x
      invariant i <= at && forall j :: 0 <= j < i ==> xs[j] != x
      decreases at - i
    {
      i := i + 1;
    }
  }

  /** However an accepted uninstallation stops, it has performed some number of operations on files, and that number
      decides what the later commands accept. */
  lemma UninstallStopped(k: Disk, spec: Spec, choice: Choice, deleteTyped: bool, torn: Both<Remnant>, fuse: nat)
    returns (session: string, n: nat, total: nat)
    requires Inv(k) && spec.package !in k.local && UninstallPlan(k, spec, choice, deleteTyped, torn).outcome == Ok
    ensures var p := UninstallPlan(k, spec, choice, deleteTyped, torn);
            var next := Reached(k, p, fuse);
            var preserve := choice == KeepData;
            && total == OnFiles(spec, |p.ops|) && n == OnFiles(spec, if fuse < |p.ops| then fuse else |p.ops|)
            && Owns(k, spec, session) && 2 < total - 1 && n <= total && Left(k, next, spec, session, preserve, n, total)
            && (OwnsOne(next, spec) <==> n <= 2)
            && (PurgeAccepted(next, spec) <==>
                n == total && OthersOnly(k, spec.device) && (preserve ==> k.complete[session].spec.device == spec.device))
            && (AllFinished(next) <==> AllFinished(k) && (n == 0 || (!preserve && n + 1 >= total)))
  {
    session :| session in k.complete && Owns(k, spec, session) &&
               UninstallPlan(k, spec, choice, deleteTyped, torn).ops == UninstallOps(spec, k.names, session, choice == KeepData, torn);
    var ops, preserve := UninstallOps(spec, k.names, session, choice == KeepData, torn), choice == KeepData;
    var m := if fuse < |ops| then fuse else |ops|;
    total, n := OnFiles(spec, |ops|), OnFiles(spec, m);
    UninstallStop(k, spec, session, preserve, torn, m);
    AfterAll(k, ops, |ops|);
    var next := After(k, ops, m);
    UninstallAgain(k, next, spec, session, preserve, n, total);
    PurgeAfter(k, next, spec, session, preserve, n, total);
    FinishedAfter(k, next, spec, session, preserve, n, total);
  }

  // ----- Two stops in particular -----

  /** A machine on which the bundle is installed. */
  function InstalledDisk(spec: Spec, session: string, owner: string): Disk {
    var row := Receipt(Complete, owner, spec, session, FilesFor(spec, Both(map[], map[])));
    EMPTY_DISK.(roots := map s | s in RoleSet(spec) :: Tree(Some(owner), map[], {}), units := UnitSet(spec),
                                                       complete := map[session := row], probed := {session})
  }

  lemma InstalledOwns(spec: Spec, session: string, owner: string)
    ensures Owns(InstalledDisk(spec, session, owner), spec, session) && Inv(InstalledDisk(spec, session, owner))
  {
    var k := InstalledDisk(spec, session, owner);
    assert FilesOf(k, spec) == FilesFor(spec, Both(map[], map[]));
  }

  /** The bundle is all that there is on the machine. */
  ghost predicate OnlyBundle(k: Disk, spec: Spec, session: string) {
    && Inv(k) && Owns(k, spec, session) && k.complete[session].spec == spec
    && k.retired == map[] && k.pending == None && k.local == map[]
    && k.roots.Keys == RoleSet(spec) && k.units == UnitSet(spec)
  }

  lemma InstalledOnly(spec: Spec, session: string, owner: string)
    ensures OnlyBundle(InstalledDisk(spec, session, owner), spec, session)
  {
    InstalledOwns(spec, session, owner);
  }

  /** Killed after the last operation record of a confirmed deletion and before managed-local.json is written,
      the bundle can neither be purged nor uninstalled again, but a fresh installation is accepted. */
  lemma KilledBeforeLocal(k: Disk, spec: Spec, session: string, torn: Both<Remnant>,
                          token: string, owner: string, order: seq<nat>, course: Course)
    requires OnlyBundle(k, spec, session) && spec.device != ""
    ensures var p := UninstallPlan(k, spec, DeleteData, true, torn);
            |p.ops| > 0 &&
            var next := Reached(k, p, |p.ops| - 1);
            && OutcomeOf(p, |p.ops| - 1) == Killed
            && !PurgeAccepted(next, spec) && !OwnsOne(next, spec)
            && InstallPlan(next, spec, token, owner, order, course).outcome != Refused
  {
    var p := UninstallPlan(k, spec, DeleteData, true, torn);
    assert p.outcome == Ok;
    var s0, n0, total := UninstallStopped(k, spec, DeleteData, true, torn, 0);
    LastButOne(k, p, spec, session, torn);
    DeletedButUnrecorded(k, Reached(k, p, |p.ops| - 1), spec, session, total - 1, total, token, owner, order, course);
  }

  lemma LastButOne(k: Disk, p: Plan, spec: Spec, session: string, torn: Both<Remnant>)
    requires OnlyBundle(k, spec, session) && p == UninstallPlan(k, spec, DeleteData, true, torn) && p.outcome == Ok
    requires OnFiles(spec, |p.ops|) > 3
    ensures var next, total := Reached(k, p, |p.ops| - 1), OnFiles(spec, |p.ops|);
            Left(k, next, spec, session, false, total - 1, total) && !PurgeAccepted(next, spec) && !OwnsOne(next, spec)
  {
    var s, n, total := UninstallStopped(k, spec, DeleteData, true, torn, |p.ops| - 1);
    assert s == session;
  }

  lemma DeletedButUnrecorded(k: Disk, next: Disk, spec: Spec, session: string, n: nat, total: nat,
                             token: string, owner: string, order: seq<nat>, course: Course)
    requires OnlyBundle(k, spec, session) && spec.device != "" && 2 < total - 1 == n
    requires Left(k, next, spec, session, false, n, total)
    ensures InstallPlan(next, spec, token, owner, order, course).outcome != Refused
  {
    InstallAfter(k, next, spec, session, false, n, total, spec, token, owner, order, course);
    assert next.roots.Keys == {} && next.units == {};
  }

  /** Killed after its archive directory is made, an uninstallation is accepted again, but the directory without a
      record blocks every purge and every fresh installation. */
  lemma KilledAfterMkdir(spec: Spec, session: string, owner: string, choice: Choice, torn: Both<Remnant>,
                         anew: Spec, token: string, newOwner: string, order: seq<nat>, course: Course)
    requires choice != Neither
    ensures var k := InstalledDisk(spec, session, owner);
            var next := Reached(k, UninstallPlan(k, spec, choice, true, torn), |Units(spec)| + 1);
            && OwnsOne(next, spec) && k.names in next.retired && next.retired[k.names].operation == None
            && (forall other :: !PurgeAccepted(next, other))
            && InstallPlan(next, anew, token, newOwner, order, course).outcome == Refused
  {
    var k := InstalledDisk(spec, session, owner);
    InstalledOwns(spec, session, owner);
    var s, n, total := UninstallStopped(k, spec, choice, true, torn, |Units(spec)| + 1);
    InstallAfter(k, Reached(k, UninstallPlan(k, spec, choice, true, torn), |Units(spec)| + 1), spec, s, choice == KeepData, n, total,
                 anew, token, newOwner, order, course);
  }
}
