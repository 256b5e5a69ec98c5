/** Uninstalling a collector and purging its preserved data: deploy/agents/agent-manager.py (`receipt`,
    `manage`, `purge_removed`).

    Both are straight lists of file operations after their checks, so where one stops is a number of
    operations; what later commands accept is stated for every such number. */
module Removal {
  import opened Wrappers
  import opened CollectorDisk
  import opened Enrollment
  import Attempts

  // ----- Uninstalling -----

  /** The one completion receipt of the bundle, whose roots and units are as it recorded them. */
  predicate Owns(k: Disk, spec: Spec, session: string) {
    && session in k.complete && k.complete[session].phase == Complete
    && (forall s :: s in k.complete && k.complete[s].spec.package == spec.package ==> s == session)
    && k.complete[session].spec.package == spec.package
    && IsStable(k, spec, k.complete[session].owner) && FilesOf(k, spec) == k.complete[session].files
  }

  predicate OwnsOne(k: Disk, spec: Spec) {
    exists session :: session in k.complete && Owns(k, spec, session)
  }

  datatype Choice = KeepData | DeleteData | Neither

  function DropOps(units: seq<Unit>): (r: seq<Op>)
    ensures |r| == |units|
  {
    seq(|units|, i requires 0 <= i < |units| => DropUnit(units[i]))
  }

  function ClearOne(s: Scope, id: nat, preserve: bool, torn: Both<Remnant>): seq<Op> {
    if preserve then [RetireRoot(id, s)] else [TearRoot(s, torn.Of(s)), RemoveRoot(s)]
  }

  function ClearOps(roles: seq<Scope>, id: nat, preserve: bool, torn: Both<Remnant>): seq<Op> {
    if roles == [] then []
    else ClearOps(roles[..|roles| - 1], id, preserve, torn) + ClearOne(roles[|roles| - 1], id, preserve, torn)
  }

  function Opening(spec: Spec, id: nat, session: string, preserve: bool): seq<Op> {
    [MakeArchive, WriteOperation(id, Operation(Removing, spec.device, session, preserve))]
  }

  function Closing(spec: Spec, id: nat, session: string, preserve: bool): seq<Op> {
    [WriteOperation(id, Operation(Removed, spec.device, session, preserve)), WriteLocal(spec.package, spec.device)]
  }

  /** The operations on files. */
  function TakeOutOps(spec: Spec, id: nat, session: string, preserve: bool, torn: Both<Remnant>): seq<Op> {
    Opening(spec, id, session, preserve) +
    (DropOps(Units(spec)) + (ClearOps(Roles(spec), id, preserve, torn) + Closing(spec, id, session, preserve)))
  }

  /** The services are stopped first. */
  function UninstallOps(spec: Spec, id: nat, session: string, preserve: bool, torn: Both<Remnant>): seq<Op> {
    StopOps(Units(spec)) + TakeOutOps(spec, id, session, preserve, torn)
  }

  ghost function UninstallPlan(k: Disk, spec: Spec, choice: Choice, deleteTyped: bool, torn: Both<Remnant>): Plan {
    if !OwnsOne(k, spec) then Plan([], Refused)
    else if choice == Neither || (choice == DeleteData && !deleteTyped) then Plan([], Cancelled)
    else
      var session :| session in k.complete && Owns(k, spec, session);
      Plan(UninstallOps(spec, k.names, session, choice == KeepData, torn), Ok)
  }

  method Uninstall(m: Machine, spec: Spec, choice: Choice, deleteTyped: bool, torn: Both<Remnant>) returns (outcome: Outcome)
    modifies m
    ensures Ran(old(m.disk), old(m.fuse), UninstallPlan(old(m.disk), spec, choice, deleteTyped, torn), m.disk, m.fuse, outcome)
  {
    ghost var was, fuel := m.disk, m.fuse;
    if !OwnsOne(m.disk, spec) {
      RanNothing(was, fuel, Refused);
      return Refused;
    }
    if choice == Neither || (choice == DeleteData && !deleteTyped) {
      RanNothing(was, fuel, Cancelled);
      return Cancelled;
    }
    var session :| session in m.disk.complete && Owns(m.disk, spec, session);
    var id, preserve := m.disk.names, choice == KeepData;
    var alive := m.DoAll(StopOps(Units(spec)));
    ghost var mid, left, first := m.disk, m.fuse, alive;
    if alive { alive := TakeOut(m, spec, id, session, preserve, torn); }
    DidBoth(was, fuel, StopOps(Units(spec)), mid, left, first, TakeOutOps(spec, id, session, preserve, torn), m.disk, m.fuse, alive);
    outcome := if alive then Ok else Killed;
  }

  method TakeOut(m: Machine, spec: Spec, id: nat, session: string, preserve: bool, torn: Both<Remnant>) returns (alive: bool)
    modifies m
    ensures Did(old(m.disk), old(m.fuse), TakeOutOps(spec, id, session, preserve, torn), m.disk, m.fuse, alive)
  {
    ghost var was, fuel := m.disk, m.fuse;
    alive := m.DoAll(Opening(spec, id, session, preserve));
    ghost var first, left, a1 := m.disk, m.fuse, alive;
    if alive { alive := DropUnits(m, Units(spec)); }
    ghost var second, left2, a2 := m.disk, m.fuse, alive;
    if alive { alive := ClearRoots(m, Roles(spec), id, preserve, torn); }
    ghost var third, left3, a3 := m.disk, m.fuse, alive;
    if alive { alive := m.DoAll(Closing(spec, id, session, preserve)); }
    ghost var drops, clears, closing := DropOps(Units(spec)), ClearOps(Roles(spec), id, preserve, torn), Closing(spec, id, session, preserve);
    if a2 { DidBoth(second, left2, clears, third, left3, a3, closing, m.disk, m.fuse, alive); }
    if a1 { DidBoth(first, left, drops, second, left2, a2, clears + closing, m.disk, m.fuse, alive); }
    DidBoth(was, fuel, Opening(spec, id, session, preserve), first, left, a1, drops + (clears + closing), m.disk, m.fuse, alive);
  }

  /** The unit files go one by one. */
  method DropUnits(m: Machine, units: seq<Unit>) returns (alive: bool)
    modifies m
    ensures Did(old(m.disk), old(m.fuse), DropOps(units), m.disk, m.fuse, alive)
  {
    ghost var was, fuel, ops := m.disk, m.fuse, DropOps(units);
    DidNothing(was, fuel);
    for i := 0 to |units|
      invariant Did(was, fuel, ops[..i], m.disk, m.fuse, true)
    {
      ghost var mid, left := m.disk, m.fuse;
      alive := m.Do(DropUnit(units[i]));
      assert ops[..i + 1] == ops[..i] + [DropUnit(units[i])];
      DidThen(was, fuel, ops[..i], mid, left, [DropUnit(units[i])], m.disk, m.fuse, alive);
      if !alive {
        assert ops == ops[..i + 1] + ops[i + 1..];
        DidStop(was, fuel, ops[..i + 1], m.disk, m.fuse, ops[i + 1..]);
        return;
      }
    }
    assert ops[..|units|] == ops;
    alive := true;
  }

  /** Each root is moved into the archive, or recursively removed. */
  method ClearRoots(m: Machine, roles: seq<Scope>, id: nat, preserve: bool, torn: Both<Remnant>) returns (alive: bool)
    modifies m
    ensures Did(old(m.disk), old(m.fuse), ClearOps(roles, id, preserve, torn), m.disk, m.fuse, alive)
  {
    ghost var was, fuel := m.disk, m.fuse;
    DidNothing(was, fuel);
    alive := true;
    for i := 0 to |roles|
      invariant Did(was, fuel, ClearOps(roles[..i], id, preserve, torn), m.disk, m.fuse, alive)
    {
      ghost var mid, left, before := m.disk, m.fuse, alive;
      if alive { alive := m.DoAll(ClearOne(roles[i], id, preserve, torn)); }
      assert roles[..i + 1][..i] == roles[..i];
      DidBoth(was, fuel, ClearOps(roles[..i], id, preserve, torn), mid, left, before,
              ClearOne(roles[i], id, preserve, torn), m.disk, m.fuse, alive);
    }
    assert roles[..|roles|] == roles;
  }

  // ----- Purging -----

  /** The only archive recorded for the device; every archive must have its record. */
  predicate OneArchiveOf(k: Disk, device: string, id: nat) {
    && id in k.retired
    && (forall a :: a in k.retired ==> k.retired[a].operation.Some? && (k.retired[a].operation.value.device == device <==> a == id))
  }

  /** The local record of the bundle says removed, for this device. */
  predicate SaysRemoved(k: Disk, spec: Spec) {
    spec.package in k.local && k.local[spec.package] == spec.device
  }

  predicate AlreadyPurged(k: Disk, spec: Spec, id: nat) {
    SaysRemoved(k, spec) && OneArchiveOf(k, spec.device, id) && Finished(k.retired[id])
  }

  /** The archived trees still hold the recorded files; once a purge has begun, files may be missing. */
  predicate FilesIntact(recorded: map<Scope, Files>, trees: map<Scope, Tree>, begun: bool) {
    forall s, f :: s in recorded && f in recorded[s] && !(begun && !(s in trees && f in trees[s].files)) ==>
                     s in trees && f in trees[s].files && trees[s].files[f] == recorded[s][f]
  }

  /** The archive is what an uninstallation that preserved the data left, or an unfinished purge. */
  predicate Preserved(k: Disk, spec: Spec, op: Operation, trees: map<Scope, Tree>) {
    && op.preserved && op.progress in {Removed, Purging} && op.session in k.complete
    && RowPreserved(k, spec, op.progress, k.complete[op.session], trees)
  }

  predicate RowPreserved(k: Disk, spec: Spec, progress: Progress, row: Receipt, trees: map<Scope, Tree>) {
    && row.phase == Complete && row.spec.package == spec.package && row.spec.device == spec.device
    && row.files != map[] && row.files.Keys <= RoleSet(spec)
    && (forall s :: s in RoleSet(spec) ==> s !in k.roots && (progress == Removed ==> s in trees))
    && UnitSet(spec) !! k.units && Idle(k, spec)
    && FilesIntact(row.files, trees, progress == Purging)
  }

  predicate Purgeable(k: Disk, spec: Spec, id: nat) {
    && SaysRemoved(k, spec) && OneArchiveOf(k, spec.device, id)
    && Preserved(k, spec, k.retired[id].operation.value, k.retired[id].trees)
  }

  function EraseOne(s: Scope, id: nat, torn: Both<Remnant>): seq<Op> {
    [TearRetired(id, s, torn.Of(s)), RemoveRetired(id, s)]
  }

  function EraseOps(roles: seq<Scope>, id: nat, torn: Both<Remnant>): seq<Op> {
    if roles == [] then [] else EraseOps(roles[..|roles| - 1], id, torn) + EraseOne(roles[|roles| - 1], id, torn)
  }

  function PurgeEnd(spec: Spec, id: nat, op: Operation): seq<Op> {
    [WriteOperation(id, op.(progress := Removed, preserved := false)), WriteLocal(spec.package, spec.device)]
  }

  function PurgeOps(spec: Spec, id: nat, op: Operation, torn: Both<Remnant>): seq<Op> {
    [WriteOperation(id, op.(progress := Purging))] + (EraseOps(Roles(spec), id, torn) + PurgeEnd(spec, id, op))
  }

  ghost function PurgePlan(k: Disk, spec: Spec, deleteTyped: bool, torn: Both<Remnant>): Plan {
    if exists id :: id in k.retired && AlreadyPurged(k, spec, id) then Plan([], Ok)
    else if !(exists id :: id in k.retired && Purgeable(k, spec, id)) then Plan([], Refused)
    else if !deleteTyped then Plan([], Cancelled)
    else
      var id :| id in k.retired && Purgeable(k, spec, id);
      Plan(PurgeOps(spec, id, k.retired[id].operation.value, torn), Ok)
  }

  method Purge(m: Machine, spec: Spec, deleteTyped: bool, torn: Both<Remnant>) returns (outcome: Outcome)
    modifies m
    ensures Ran(old(m.disk), old(m.fuse), PurgePlan(old(m.disk), spec, deleteTyped, torn), m.disk, m.fuse, outcome)
  {
    ghost var was, fuel := m.disk, m.fuse;
    if exists id :: id in m.disk.retired && AlreadyPurged(m.disk, spec, id) {
      RanNothing(was, fuel, Ok);
      return Ok;
    }
    if !(exists id :: id in m.disk.retired && Purgeable(m.disk, spec, id)) {
      RanNothing(was, fuel, Refused);
      return Refused;
    }
    if !deleteTyped {
      RanNothing(was, fuel, Cancelled);
      return Cancelled;
    }
    var id :| id in m.disk.retired && Purgeable(m.disk, spec, id);
    var alive := Delete(m, spec, id, m.disk.retired[id].operation.value, torn);
    outcome := if alive then Ok else Killed;
  }

  /** The record says purging, the trees go, the record says removed. */
  method Delete(m: Machine, spec: Spec, id: nat, op: Operation, torn: Both<Remnant>) returns (alive: bool)
    modifies m
    ensures Did(old(m.disk), old(m.fuse), PurgeOps(spec, id, op, torn), m.disk, m.fuse, alive)
  {
    ghost var was, fuel := m.disk, m.fuse;
    alive := m.Do(WriteOperation(id, op.(progress := Purging)));
    ghost var first, left, a1 := m.disk, m.fuse, alive;
    if alive { alive := EraseTrees(m, Roles(spec), id, torn); }
    ghost var second, left2, a2 := m.disk, m.fuse, alive;
    if alive { alive := m.DoAll(PurgeEnd(spec, id, op)); }
    ghost var erase := EraseOps(Roles(spec), id, torn);
    if a1 { DidBoth(first, left, erase, second, left2, a2, PurgeEnd(spec, id, op), m.disk, m.fuse, alive); }
    DidBoth(was, fuel, [WriteOperation(id, op.(progress := Purging))], first, left, a1, erase + PurgeEnd(spec, id, op), m.disk, m.fuse, alive);
  }

  method EraseTrees(m: Machine, roles: seq<Scope>, id: nat, torn: Both<Remnant>) returns (alive: bool)
    modifies m
    ensures Did(old(m.disk), old(m.fuse), EraseOps(roles, id, torn), m.disk, m.fuse, alive)
  {
    ghost var was, fuel := m.disk, m.fuse;
    DidNothing(was, fuel);
    alive := true;
    for i := 0 to |roles|
      invariant Did(was, fuel, EraseOps(roles[..i], id, torn), m.disk, m.fuse, alive)
    {
      ghost var mid, left, before := m.disk, m.fuse, alive;
      if alive { alive := m.DoAll(EraseOne(roles[i], id, torn)); }
      assert roles[..i + 1][..i] == roles[..i];
      DidBoth(was, fuel, EraseOps(roles[..i], id, torn), mid, left, before, EraseOne(roles[i], id, torn), m.disk, m.fuse, alive);
    }
    assert roles[..|roles|] == roles;
  }

  // ----- A purge that stops -----

  /** The record says purging, and the data is being removed. */
  ghost predicate Begun(k: Disk, spec: Spec, id: nat, session: string) {
    && Purgeable(k, spec, id)
    && k.retired[id].operation == Some(Operation(Purging, spec.device, session, true))
  }

  lemma BeginPurge(k: Disk, spec: Spec, id: nat)
    requires Purgeable(k, spec, id)
    ensures var op := k.retired[id].operation.value;
            && op == Operation(op.progress, spec.device, op.session, true)
            && Begun(Perform(k, WriteOperation(id, op.(progress := Purging))), spec, id, op.session)
  {
    var op := k.retired[id].operation.value;
    var next := WithArchive(k, id, k.retired[id].(operation := Some(op.(progress := Purging))));
    assert next == Perform(k, WriteOperation(id, op.(progress := Purging)));
    assert OneArchiveOf(next, spec.device, id);
  }

  /** Removing any part of an archived tree leaves a begun purge resumable. */
  lemma ErasingKeeps(k: Disk, next: Disk, spec: Spec, id: nat, session: string, trees: map<Scope, Tree>)
    requires Begun(k, spec, id, session)
    requires next == WithArchive(k, id, k.retired[id].(trees := trees)).(purged := next.purged)
    requires forall s :: s in trees ==> s in k.retired[id].trees && trees[s].files.Keys <= k.retired[id].trees[s].files.Keys
                                        && forall f :: f in trees[s].files ==> trees[s].files[f] == k.retired[id].trees[s].files[f]
    ensures Begun(next, spec, id, session)
  {
    assert OneArchiveOf(next, spec.device, id);
    assert FilesIntact(k.complete[session].files, trees, true);
  }

  lemma TearKeeps(k: Disk, spec: Spec, id: nat, session: string, s: Scope, r: Remnant)
    requires Begun(k, spec, id, session)
    ensures Begun(Perform(k, TearRetired(id, s, r)), spec, id, session)
  {
    if s in k.retired[id].trees {
      var t := k.retired[id].trees[s];
      var trees := k.retired[id].trees[s := Torn(t, r)];
      var next := WithArchive(k, id, k.retired[id].(trees := trees)).(purged := k.purged + t.data);
      assert next == Perform(k, TearRetired(id, s, r));
      ErasingKeeps(k, next, spec, id, session, trees);
    } else {
      assert Perform(k, TearRetired(id, s, r)) == k;
    }
  }

  lemma RemoveKeeps(k: Disk, spec: Spec, id: nat, session: string, s: Scope)
    requires Begun(k, spec, id, session)
    ensures var next := Perform(k, RemoveRetired(id, s));
            Begun(next, spec, id, session) && next.retired[id].trees == k.retired[id].trees - {s}
  {
    if s in k.retired[id].trees {
      var t := k.retired[id].trees[s];
      var trees := k.retired[id].trees - {s};
      var next := WithArchive(k, id, k.retired[id].(trees := trees)).(purged := k.purged + t.data);
      assert next == Perform(k, RemoveRetired(id, s));
      ErasingKeeps(k, next, spec, id, session, trees);
    } else {
      assert Perform(k, RemoveRetired(id, s)) == k;
      assert k.retired[id].trees - {s} == k.retired[id].trees;
    }
  }

  /** A tree torn keeps its place. */
  lemma TearPlaces(k: Disk, id: nat, s: Scope, r: Remnant)
    requires id in k.retired
    ensures var next := Perform(k, TearRetired(id, s, r)); id in next.retired && next.retired[id].trees.Keys == k.retired[id].trees.Keys
  {
  }

  lemma EraseOneStop(k: Disk, spec: Spec, id: nat, session: string, s: Scope, torn: Both<Remnant>, n: nat)
    requires Begun(k, spec, id, session) && n <= 2
    ensures Begun(After(k, EraseOne(s, id, torn), n), spec, id, session)
    ensures n == 2 ==> After(k, EraseOne(s, id, torn), n).retired[id].trees.Keys == k.retired[id].trees.Keys - {s}
  {
    var ops := EraseOne(s, id, torn);
    if n == 0 {
      AfterNone(k, []);
      assert ops[..0] == [];
    } else {
      EraseTorn(k, spec, id, session, s, torn);
      if n == 2 {
        AfterStep(k, ops, 2, RemoveRetired(id, s));
        RemoveKeeps(After(k, ops, 1), spec, id, session, s);
      }
    }
  }

  lemma EraseTorn(k: Disk, spec: Spec, id: nat, session: string, s: Scope, torn: Both<Remnant>)
    requires Begun(k, spec, id, session)
    ensures var next := After(k, EraseOne(s, id, torn), 1);
            Begun(next, spec, id, session) && next.retired[id].trees.Keys == k.retired[id].trees.Keys
  {
    AfterStep(k, EraseOne(s, id, torn), 1, TearRetired(id, s, torn.Of(s)));
    AfterNone(k, EraseOne(s, id, torn));
    TearKeeps(k, spec, id, session, s, torn.Of(s));
    TearPlaces(k, id, s, torn.Of(s));
  }

  lemma {:induction false} EraseStop(k: Disk, spec: Spec, id: nat, session: string, roles: seq<Scope>, torn: Both<Remnant>, n: nat)
    requires Begun(k, spec, id, session) && n <= |EraseOps(roles, id, torn)|
    ensures var ops := EraseOps(roles, id, torn);
            var next := After(k, ops, n);
            Begun(next, spec, id, session) && (n == |ops| ==> forall s :: s in roles ==> s !in next.retired[id].trees)
    decreases |roles|
  {
    if roles == [] {
      AfterNone(k, []);
    } else {
      var m := |roles| - 1;
      var first, last := EraseOps(roles[..m], id, torn), EraseOne(roles[m], id, torn);
      AfterAppend(k, first, last, n);
      EraseStop(k, spec, id, session, roles[..m], torn, if n <= |first| then n else |first|);
      if n > |first| {
        AfterAll(k, first, |first|);
        EraseOneStop(Exec(k, first), spec, id, session, roles[m], torn, n - |first|);
        assert roles == roles[..m] + [roles[m]];
      }
    }
  }

  /** Closing a begun purge makes it a finished deletion. */
  lemma EndPurge(k: Disk, spec: Spec, id: nat, session: string)
    requires Begun(k, spec, id, session)
    ensures var next := Perform(k, WriteOperation(id, Operation(Removed, spec.device, session, false)));
            AlreadyPurged(next, spec, id) && next.retired[id].trees == k.retired[id].trees
            && Perform(next, WriteLocal(spec.package, spec.device)) == next
  {
    var next := WithArchive(k, id, k.retired[id].(operation := Some(Operation(Removed, spec.device, session, false))));
    assert next == Perform(k, WriteOperation(id, Operation(Removed, spec.device, session, false)));
    assert OneArchiveOf(next, spec.device, id);
    assert k.local[spec.package := spec.device] == k.local;
  }

  /** A purge stopped after n operations can be rerun, until its record of completion is written: from then on
      the device's data is deleted. */
  lemma PurgeStop(k: Disk, spec: Spec, id: nat, torn: Both<Remnant>, n: nat)
    requires Purgeable(k, spec, id)
    requires n <= |PurgeOps(spec, id, k.retired[id].operation.value, torn)|
    ensures var ops := PurgeOps(spec, id, k.retired[id].operation.value, torn);
            var next := After(k, ops, n);
            if n + 1 < |ops| then Purgeable(next, spec, id)
            else AlreadyPurged(next, spec, id) && forall s :: s in RoleSet(spec) ==> s !in next.retired[id].trees
  {
    var op := k.retired[id].operation.value;
    var erase, end := EraseOps(Roles(spec), id, torn), PurgeEnd(spec, id, op);
    var first := WriteOperation(id, op.(progress := Purging));
    if n == 0 {
      AfterNone(k, []);
      assert PurgeOps(spec, id, op, torn)[..0] == [];
    } else {
      AfterCons(k, first, erase + end, n);
      BeginPurge(k, spec, id);
      PurgeRest(Perform(k, first), spec, id, op, erase, end, torn, n - 1);
    }
  }

  lemma PurgeRest(k: Disk, spec: Spec, id: nat, op: Operation, erase: seq<Op>, end: seq<Op>, torn: Both<Remnant>, n: nat)
    requires Begun(k, spec, id, op.session) && op.device == spec.device
    requires erase == EraseOps(Roles(spec), id, torn) && end == PurgeEnd(spec, id, op) && n <= |erase| + |end|
    ensures |end| == 2
    ensures var next := After(k, erase + end, n);
            if n <= |erase| then Purgeable(next, spec, id)
            else AlreadyPurged(next, spec, id) && forall s :: s in RoleSet(spec) ==> s !in next.retired[id].trees
  {
    AfterAppend(k, erase, end, n);
    EraseStop(k, spec, id, op.session, Roles(spec), torn, if n <= |erase| then n else |erase|);
    if n > |erase| {
      AfterAll(k, erase, |erase|);
      var mid := Exec(k, erase);
      Attempts.RolesElements(spec);
      EndPurge(mid, spec, id, op.session);
      AfterNone(mid, end);
      AfterStep(mid, end, 1, WriteOperation(id, Operation(Removed, spec.device, op.session, false)));
      if n == |erase| + 2 { AfterStep(mid, end, 2, WriteLocal(spec.package, spec.device)); }
    }
  }
}
