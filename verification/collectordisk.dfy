/** The state that the collector's installation and management tools share
    (deploy/agents/enrollment-linux.py, deploy/agents/agent-manager.py), and their operations on files and
    services.

    A command performs its operations one after the other; where it stops, it has performed a prefix of
    them.  `collected`, `purged` and `probed` keep account for the invariant; no guard reads them. */
module CollectorDisk {
  import opened Wrappers

  datatype Scope = HostScope | NetworkScope

  datatype Unit = Service(scope: Scope) | DiscoveryService | DiscoveryTimer

  datatype Spec = Spec(package: string, device: string, network: bool)

  type Files = map<string, string>

  /** One value for each role. */
  datatype Both<T> = Both(host: T, network: T) {
    function Of(s: Scope): T { if s == HostScope then host else network }
  }

  /** An installation root: its owner mark, absent right after the root is made; its fingerprinted files; and
      the collected data (queue, registry, keys). */
  datatype Tree = Tree(owner: Option<string>, files: Files, data: set<nat>)

  datatype Phase = Preparing | Starting | Failing | Complete

  datatype Receipt = Receipt(phase: Phase, owner: string, spec: Spec, session: string, files: map<Scope, Files>)

  datatype Progress = Removing | Purging | Removed

  datatype Operation = Operation(progress: Progress, device: string, session: string, preserved: bool)

  /** A retired-* directory; its operation record is missing only right after its creation. */
  datatype Archive = Archive(operation: Option<Operation>, trees: map<Scope, Tree>, receipt: Option<Receipt>)

  /** A partial-backup-* directory. */
  datatype Backup = Backup(trees: map<Scope, Tree>, units: set<Unit>)

  datatype Disk = Disk(
    roots: map<Scope, Tree>,
    units: set<Unit>,                 // unit files in place
    running: set<Unit>,               // active units; a collector's process runs while its service is active
    pending: Option<Receipt>,
    complete: map<string, Receipt>,   // complete-<session>.json
    retired: map<nat, Archive>,
    backups: map<nat, Backup>,
    names: nat,                       // directory names below it are taken
    local: map<string, string>,       // package -> device of a managed-local.json that says removed
    probed: set<string>,              // sessions whose central probe succeeded
    collected: set<nat>,              // every datum ever collected
    purged: set<nat>)                 // data deleted on an explicit DELETE

  function Roles(spec: Spec): (r: seq<Scope>)
    ensures |r| > 0
  {
    if spec.network then [HostScope, NetworkScope] else [HostScope]
  }

  function RoleSet(spec: Spec): set<Scope> {
    if spec.network then {HostScope, NetworkScope} else {HostScope}
  }

  function Units(spec: Spec): (r: seq<Unit>)
    ensures |r| > 2
  {
    if spec.network then [Service(HostScope), Service(NetworkScope), DiscoveryService, DiscoveryTimer]
    else [Service(HostScope), DiscoveryService, DiscoveryTimer]
  }

  function UnitSet(spec: Spec): set<Unit> {
    (if spec.network then {Service(NetworkScope)} else {}) + {Service(HostScope), DiscoveryService, DiscoveryTimer}
  }

  /** The units that the installer script of a role places. */
  function UnitsFor(s: Scope): set<Unit> {
    if s == HostScope then {Service(HostScope), DiscoveryService, DiscoveryTimer} else {Service(NetworkScope)}
  }

  /** What an interrupted recursive removal leaves of a tree. */
  datatype Remnant = Remnant(files: set<string>, data: set<nat>)

  function Torn(t: Tree, r: Remnant): Tree {
    Tree(t.owner, map f | f in t.files && f in r.files :: t.files[f], t.data * r.data)
  }

  /** No unit of the bundle is active, and so no collector process of its roles runs. */
  predicate Idle(k: Disk, spec: Spec) {
    UnitSet(spec) !! k.running
  }

  // ----- Operations -----

  datatype Op =
    | MakeArchive
    | WriteOperation(id: nat, operation: Operation)
    | ArchiveReceipt(id: nat, session: string)
    | RetireRoot(id: nat, scope: Scope)
    | TearRoot(scope: Scope, remnant: Remnant)
    | RemoveRoot(scope: Scope)
    | TearRetired(id: nat, scope: Scope, remnant: Remnant)
    | RemoveRetired(id: nat, scope: Scope)
    | DropUnit(unit: Unit)
    | WriteLocal(package: string, device: string)
    | MakeBackup
    | SetAside(id: nat, scope: Scope)
    | MoveUnit(id: nat, unit: Unit)
    | MakeRoot(scope: Scope)
    | MarkRoot(scope: Scope, owner: string)
    | Populate(scope: Scope, files: Files, data: set<nat>)
    | PlaceUnits(scope: Scope)
    | Start(unit: Unit)
    | Stop(unit: Unit)
    | Settle(active: set<Unit>)
    | Rewrite(scope: Scope, files: Files)
    | Gather(scope: Scope, data: set<nat>)
    | WritePending(receipt: Receipt)
    | DropPending
    | Probe(session: string)
    | WriteComplete(receipt: Receipt)

  function WithArchive(k: Disk, id: nat, a: Archive): Disk {
    k.(retired := k.retired[id := a])
  }

  function WithRoot(k: Disk, s: Scope, t: Tree): Disk {
    k.(roots := k.roots[s := t], collected := k.collected + t.data)
  }

  predicate OnArchives(op: Op) {
    op.MakeArchive? || op.WriteOperation? || op.ArchiveReceipt? || op.RetireRoot? || op.TearRetired? || op.RemoveRetired?
  }

  predicate OnRoots(op: Op) {
    op.TearRoot? || op.RemoveRoot? || op.MakeRoot? || op.MarkRoot? || op.Populate? || op.Rewrite? || op.Gather?
  }

  /** One file or service operation.  One whose source is missing, or whose destination exists, changes
      nothing.  Between commands, services in place may start and stop for any reason (`Settle`). */
  function Perform(k: Disk, op: Op): Disk {
    if OnArchives(op) then PerformOnArchives(k, op)
    else if OnRoots(op) then PerformOnRoots(k, op)
    else PerformOnRecords(k, op)
  }

  function PerformOnArchives(k: Disk, op: Op): Disk {
    match op
    case MakeArchive => k.(retired := k.retired[k.names := Archive(None, map[], None)], names := k.names + 1)
    case WriteOperation(id, o) => if id in k.retired then WithArchive(k, id, k.retired[id].(operation := Some(o))) else k
    case ArchiveReceipt(id, session) =>
      if id in k.retired && session in k.complete then
        WithArchive(k, id, k.retired[id].(receipt := Some(k.complete[session]))).(complete := k.complete - {session})
      else k
    case RetireRoot(id, s) =>
      if id in k.retired && s in k.roots && s !in k.retired[id].trees then
        WithArchive(k, id, k.retired[id].(trees := k.retired[id].trees[s := k.roots[s]])).(roots := k.roots - {s})
      else k
    case TearRetired(id, s, r) =>
      if id in k.retired && s in k.retired[id].trees then
        var t := k.retired[id].trees[s];
        WithArchive(k, id, k.retired[id].(trees := k.retired[id].trees[s := Torn(t, r)])).(purged := k.purged + t.data)
      else k
    case RemoveRetired(id, s) =>
      if id in k.retired && s in k.retired[id].trees then
        var t := k.retired[id].trees[s];
        WithArchive(k, id, k.retired[id].(trees := k.retired[id].trees - {s})).(purged := k.purged + t.data)
      else k
    case _ => k
  }

  function PerformOnRoots(k: Disk, op: Op): Disk {
    match op
    case TearRoot(s, r) =>
      if s in k.roots then k.(roots := k.roots[s := Torn(k.roots[s], r)], purged := k.purged + k.roots[s].data) else k
    case RemoveRoot(s) =>
      if s in k.roots then k.(roots := k.roots - {s}, purged := k.purged + k.roots[s].data) else k
    case MakeRoot(s) => if s in k.roots then k else WithRoot(k, s, Tree(None, map[], {}))
    case MarkRoot(s, owner) => if s in k.roots then WithRoot(k, s, k.roots[s].(owner := Some(owner))) else k
    case Populate(s, files, data) =>
      if s in k.roots then WithRoot(k, s, k.roots[s].(files := files, data := k.roots[s].data + data)) else k
    case Rewrite(s, files) => if s in k.roots then WithRoot(k, s, k.roots[s].(files := files)) else k
    case Gather(s, data) =>
      if s in k.roots && Service(s) in k.running then WithRoot(k, s, k.roots[s].(data := k.roots[s].data + data)) else k
    case _ => k
  }

  function PerformOnRecords(k: Disk, op: Op): Disk {
    match op
    case DropUnit(u) => k.(units := k.units - {u})
    case PlaceUnits(s) => k.(units := k.units + UnitsFor(s))
    case Start(u) => if u in k.units then k.(running := k.running + {u}) else k
    case Stop(u) => k.(running := k.running - {u})
    case Settle(active) => k.(running := (k.running + k.units) * active)
    case WriteLocal(package, device) => k.(local := k.local[package := device])
    case MakeBackup => k.(backups := k.backups[k.names := Backup(map[], {})], names := k.names + 1)
    case SetAside(id, s) =>
      if id in k.backups && s in k.roots && s !in k.backups[id].trees then
        k.(backups := k.backups[id := k.backups[id].(trees := k.backups[id].trees[s := k.roots[s]])], roots := k.roots - {s})
      else k
    case MoveUnit(id, u) =>
      if id in k.backups && u in k.units then
        k.(backups := k.backups[id := k.backups[id].(units := k.backups[id].units + {u})], units := k.units - {u})
      else k
    case WritePending(r) => k.(pending := Some(r))
    case DropPending => k.(pending := None)
    case Probe(session) => k.(probed := k.probed + {session})
    case WriteComplete(r) => k.(complete := k.complete[r.session := r])
    case _ => k
  }

  ghost predicate Follows(ops: seq<Op>, disks: seq<Disk>, i: nat) {
    i < |ops| && i + 1 < |disks| && disks[i + 1] == Perform(disks[i], ops[i])
  }

  /** The disks passed through, one operation after the other. */
  ghost predicate Passes(k: Disk, ops: seq<Op>, disks: seq<Disk>) {
    && |disks| == |ops| + 1 && disks[0] == k
    && forall i: nat :: i < |ops| ==> Follows(ops, disks, i)
  }

  lemma {:induction false} SomePasses(k: Disk, ops: seq<Op>) returns (disks: seq<Disk>)
    ensures Passes(k, ops, disks)
  {
    disks := [k];
    if ops != [] {
      var n := |ops| - 1;
      var before := SomePasses(k, ops[..n]);
      disks := before + [Perform(before[n], ops[n])];
      forall i: nat | i < |ops| ensures Follows(ops, disks, i) {
        if i < n { assert Follows(ops[..n], before, i); }
      }
    }
  }

  lemma PassesExist(k: Disk, ops: seq<Op>)
    ensures exists disks :: Passes(k, ops, disks)
  {
    var disks := SomePasses(k, ops);
  }

  /** The disk after the first n operations, or after all of them when there are fewer. */
  ghost function After(k: Disk, ops: seq<Op>, n: nat): Disk {
    PassesExist(k, ops);
    var disks :| Passes(k, ops, disks);
    disks[if n < |ops| then n else |ops|]
  }

  ghost function Exec(k: Disk, ops: seq<Op>): Disk {
    After(k, ops, |ops|)
  }

  /** The operations performed before the fuse is out. */
  function Cut(ops: seq<Op>, fuse: nat): seq<Op> {
    if |ops| <= fuse then ops else ops[..fuse]
  }

  lemma {:induction false} PassesAgree(k: Disk, a: seq<Op>, b: seq<Op>, x: seq<Disk>, y: seq<Disk>, n: nat)
    requires Passes(k, a, x) && Passes(k, b, y) && n <= |a| && n <= |b| && forall i :: 0 <= i < n ==> a[i] == b[i]
    ensures x[n] == y[n]
  {
    if n > 0 {
      PassesAgree(k, a, b, x, y, n - 1);
      assert Follows(a, x, n - 1) && Follows(b, y, n - 1);
    }
  }

  /** Only the operations performed matter. */
  lemma AfterSame(k: Disk, a: seq<Op>, b: seq<Op>, n: nat)
    requires n <= |a| && n <= |b| && forall i :: 0 <= i < n ==> a[i] == b[i]
    ensures After(k, a, n) == After(k, b, n)
  {
    PassesExist(k, a);
    PassesExist(k, b);
    forall x, y | Passes(k, a, x) && Passes(k, b, y) ensures x[n] == y[n] {
      PassesAgree(k, a, b, x, y, n);
    }
  }

  lemma AfterCut(k: Disk, ops: seq<Op>, fuse: nat)
    ensures After(k, ops, fuse) == Exec(k, Cut(ops, fuse))
  {
    if fuse < |ops| { AfterSame(k, ops, Cut(ops, fuse), fuse); }
  }

  lemma AfterNone(k: Disk, ops: seq<Op>)
    ensures After(k, ops, 0) == k && Exec(k, []) == k
  {
    PassesExist(k, ops);
    PassesExist(k, []);
  }

  lemma AfterStep(k: Disk, ops: seq<Op>, n: nat, op: Op)
    requires 0 < n <= |ops| && ops[n - 1] == op
    ensures After(k, ops, n) == Perform(After(k, ops, n - 1), op)
  {
    PassesExist(k, ops);
    forall disks | Passes(k, ops, disks) ensures disks[n] == Perform(disks[n - 1], ops[n - 1]) {
      assert Follows(ops, disks, n - 1);
    }
  }

  lemma AfterAll(k: Disk, ops: seq<Op>, n: nat)
    requires n >= |ops|
    ensures After(k, ops, n) == Exec(k, ops)
  {
  }

  /** The last operation of a list. */
  lemma ExecLast(k: Disk, ops: seq<Op>)
    requires ops != []
    ensures Exec(k, ops) == Perform(Exec(k, ops[..|ops| - 1]), ops[|ops| - 1])
  {
    var n := |ops| - 1;
    AfterSame(k, ops, ops[..n], n);
    AfterStep(k, ops, |ops|, ops[n]);
  }

  lemma ExecOne(k: Disk, op: Op)
    ensures Exec(k, [op]) == Perform(k, op)
  {
    AfterNone(k, [op]);
    AfterStep(k, [op], 1, op);
  }

  /** What the first n operations of a list keep holds after them. */
  lemma {:induction false} AfterKeeps(k: Disk, ops: seq<Op>, n: nat, keeps: Disk -> bool)
    requires keeps(k) && forall d, i :: 0 <= i < |ops| && i < n && keeps(d) ==> keeps(Perform(d, ops[i]))
    ensures keeps(After(k, ops, n))
  {
    if n == 0 || ops == [] {
      AfterNone(k, ops);
      AfterAll(k, [], n);
    } else if n > |ops| {
      AfterKeeps(k, ops, |ops|, keeps);
      AfterAll(k, ops, n);
    } else {
      AfterKeeps(k, ops, n - 1, keeps);
      AfterStep(k, ops, n, ops[n - 1]);
    }
  }

  /** One list after the other. */
  lemma {:induction false} AfterAppend(k: Disk, a: seq<Op>, b: seq<Op>, n: nat)
    ensures After(k, a + b, n) == if n < |a| then After(k, a, n) else After(Exec(k, a), b, n - |a|)
  {
    if n <= |a| {
      AfterSame(k, a + b, a, n);
      AfterNone(Exec(k, a), b);
    } else if n <= |a| + |b| {
      AfterAppend(k, a, b, n - 1);
      AfterStep(k, a + b, n, b[n - |a| - 1]);
      AfterStep(Exec(k, a), b, n - |a|, b[n - |a| - 1]);
    } else {
      AfterAppend(k, a, b, |a| + |b|);
      AfterAll(k, a + b, n);
      AfterAll(Exec(k, a), b, n - |a|);
    }
  }

  lemma ExecAppend(k: Disk, a: seq<Op>, b: seq<Op>)
    ensures Exec(k, a + b) == Exec(Exec(k, a), b)
  {
    AfterAppend(k, a, b, |a| + |b|);
  }

  lemma AfterCons(k: Disk, op: Op, ops: seq<Op>, n: nat)
    requires n > 0
    ensures After(k, [op] + ops, n) == After(Perform(k, op), ops, n - 1)
  {
    AfterAppend(k, [op], ops, n);
    ExecOne(k, op);
  }

  lemma ExecCons(k: Disk, op: Op, ops: seq<Op>)
    ensures Exec(k, [op] + ops) == Exec(Perform(k, op), ops)
  {
    AfterCons(k, op, ops, 1 + |ops|);
  }

  // ----- Where the data is -----

  ghost predicate InTrees(trees: map<Scope, Tree>, d: nat) {
    exists s :: s in trees && d in trees[s].data
  }

  ghost predicate InArchive(k: Disk, d: nat) {
    exists a :: a in k.retired && InTrees(k.retired[a].trees, d)
  }

  ghost predicate InBackup(k: Disk, d: nat) {
    exists a :: a in k.backups && InTrees(k.backups[a].trees, d)
  }

  ghost predicate Held(k: Disk, d: nat) {
    InTrees(k.roots, d) || InArchive(k, d) || InBackup(k, d)
  }

  ghost predicate Inv(k: Disk) {
    // collected data is in its root or in an archive, unless its deletion was confirmed
    && (forall d :: d in k.collected ==> Held(k, d) || d in k.purged)
    // a completion receipt exists only for a session whose probe succeeded
    && (forall s :: s in k.complete ==> s in k.probed && k.complete[s].session == s)
    && (forall a :: a in k.retired && k.retired[a].receipt.Some? ==> k.retired[a].receipt.value.session in k.probed)
    && (forall a :: a in k.retired || a in k.backups ==> a < k.names)
  }

  predicate Erasing(op: Op) {
    op.TearRoot? || op.RemoveRoot? || op.TearRetired? || op.RemoveRetired?
  }

  /** What one operation does to the data: what was held is held or given up, and only an erasing
      operation gives anything up. */
  ghost predicate Accounted(k: Disk, next: Disk, erasing: bool) {
    && (forall d :: Held(k, d) ==> Held(next, d) || d in next.purged)
    && (forall d :: d in next.collected ==> d in k.collected || Held(next, d))
    && k.collected <= next.collected && k.purged <= next.purged && k.probed <= next.probed
    && (!erasing ==> next.purged == k.purged)
  }

  lemma TreesKept(a: map<Scope, Tree>, b: map<Scope, Tree>, s: Scope, d: nat)
    requires InTrees(a, d)
    requires forall r :: r in a && r != s ==> r in b && a[r].data <= b[r].data
    ensures InTrees(b, d) || (s in a && d in a[s].data)
  {
    var r :| r in a && d in a[r].data;
    assert r == s || d in b[r].data;
  }

  lemma RootAccounted(k: Disk, next: Disk, s: Scope)
    requires next == k.(roots := next.roots, collected := next.collected) && s in next.roots
    requires next.roots == k.roots[s := next.roots[s]] && next.collected == k.collected + next.roots[s].data
    requires s in k.roots ==> k.roots[s].data <= next.roots[s].data
    ensures Accounted(k, next, false)
  {
    forall d | InTrees(k.roots, d) ensures InTrees(next.roots, d) {
      TreesKept(k.roots, next.roots, s, d);
      if s in k.roots && d in k.roots[s].data { assert d in next.roots[s].data; }
    }
    forall d | d in next.roots[s].data ensures InTrees(next.roots, d) {}
    forall d | InArchive(k, d) ensures InArchive(next, d) {}
    forall d | InBackup(k, d) ensures InBackup(next, d) {}
  }

  lemma RootGoneAccounted(k: Disk, next: Disk, s: Scope)
    requires s in k.roots && next == k.(roots := next.roots, purged := k.purged + k.roots[s].data)
    requires forall r :: r in k.roots && r != s ==> r in next.roots && next.roots[r] == k.roots[r]
    ensures Accounted(k, next, true)
  {
    forall d | InTrees(k.roots, d) ensures InTrees(next.roots, d) || d in next.purged {
      TreesKept(k.roots, next.roots, s, d);
    }
    forall d | InArchive(k, d) ensures InArchive(next, d) {}
    forall d | InBackup(k, d) ensures InBackup(next, d) {}
  }

  /** An archive changed: all its trees but one keep their data, and the data of that one is given up. */
  lemma ArchiveAccounted(k: Disk, next: Disk, id: nat, s: Scope)
    requires id in k.retired && id in next.retired
    requires next == k.(retired := k.retired[id := next.retired[id]], purged := next.purged, complete := next.complete)
    requires k.purged <= next.purged
    requires forall r :: r in k.retired[id].trees && r != s ==>
                           r in next.retired[id].trees && k.retired[id].trees[r].data <= next.retired[id].trees[r].data
    requires s in k.retired[id].trees ==>
               k.retired[id].trees[s].data <= next.purged
               || (s in next.retired[id].trees && k.retired[id].trees[s].data <= next.retired[id].trees[s].data)
    ensures Accounted(k, next, next.purged != k.purged)
  {
    forall d | InArchive(k, d) ensures InArchive(next, d) || d in next.purged {
      var a :| a in k.retired && InTrees(k.retired[a].trees, d);
      if a != id {
        assert a in next.retired && next.retired[a] == k.retired[a];
      } else {
        TreesKept(k.retired[id].trees, next.retired[id].trees, s, d);
      }
    }
    forall d | InBackup(k, d) ensures InBackup(next, d) {}
  }

  lemma RetireRootAccounted(k: Disk, id: nat, s: Scope)
    ensures Accounted(k, Perform(k, RetireRoot(id, s)), false)
  {
    var next := Perform(k, RetireRoot(id, s));
    if id in k.retired && s in k.roots && s !in k.retired[id].trees {
      assert id in next.retired && next.retired[id].trees[s] == k.roots[s];
      forall d | InTrees(k.roots, d) ensures Held(next, d) {
        TreesKept(k.roots, next.roots, s, d);
        if d in k.roots[s].data {
          assert InTrees(next.retired[id].trees, d);
        }
      }
      forall d | InArchive(k, d) ensures InArchive(next, d) {
        var a :| a in k.retired && InTrees(k.retired[a].trees, d);
        TreesKept(k.retired[a].trees, next.retired[a].trees, s, d);
        assert a in next.retired && InTrees(next.retired[a].trees, d);
      }
      forall d | InBackup(k, d) ensures InBackup(next, d) {}
    }
  }

  lemma SetAsideAccounted(k: Disk, id: nat, s: Scope)
    ensures Accounted(k, Perform(k, SetAside(id, s)), false)
  {
    var next := Perform(k, SetAside(id, s));
    if id in k.backups && s in k.roots && s !in k.backups[id].trees {
      assert id in next.backups && next.backups[id].trees[s] == k.roots[s];
      forall d | InTrees(k.roots, d) ensures Held(next, d) {
        TreesKept(k.roots, next.roots, s, d);
        if d in k.roots[s].data {
          assert InTrees(next.backups[id].trees, d);
        }
      }
      forall d | InBackup(k, d) ensures InBackup(next, d) {
        var a :| a in k.backups && InTrees(k.backups[a].trees, d);
        TreesKept(k.backups[a].trees, next.backups[a].trees, s, d);
        assert a in next.backups && InTrees(next.backups[a].trees, d);
      }
      forall d | InArchive(k, d) ensures InArchive(next, d) {}
    }
  }

  /** Directories are made under fresh names, and units move: no tree changes. */
  lemma SameTreesAccounted(k: Disk, next: Disk)
    requires next.roots == k.roots && next.collected == k.collected && next.purged == k.purged && k.probed <= next.probed
    requires forall a :: a in k.retired ==> a in next.retired && next.retired[a].trees == k.retired[a].trees
    requires forall a :: a in k.backups ==> a in next.backups && next.backups[a].trees == k.backups[a].trees
    ensures Accounted(k, next, false)
  {
    forall d | InArchive(k, d) ensures InArchive(next, d) {
      var a :| a in k.retired && InTrees(k.retired[a].trees, d);
      assert a in next.retired && InTrees(next.retired[a].trees, d);
    }
    forall d | InBackup(k, d) ensures InBackup(next, d) {
      var a :| a in k.backups && InTrees(k.backups[a].trees, d);
      assert a in next.backups && InTrees(next.backups[a].trees, d);
    }
  }

  lemma ArchivesAccounted(k: Disk, op: Op)
    requires Inv(k) && OnArchives(op)
    ensures Accounted(k, PerformOnArchives(k, op), Erasing(op))
  {
    var next := PerformOnArchives(k, op);
    if next == k {
    } else if op.RetireRoot? {
      RetireRootAccounted(k, op.id, op.scope);
    } else if op.TearRetired? || op.RemoveRetired? {
      ArchiveAccounted(k, next, op.id, op.scope);
    } else {
      SameTreesAccounted(k, next);
    }
  }

  lemma RootsAccounted(k: Disk, op: Op)
    requires OnRoots(op)
    ensures Accounted(k, PerformOnRoots(k, op), Erasing(op))
  {
    var next := PerformOnRoots(k, op);
    if next == k {
    } else if op.TearRoot? || op.RemoveRoot? {
      RootGoneAccounted(k, next, op.scope);
    } else {
      RootAccounted(k, next, op.scope);
    }
  }

  lemma DirectoriesAccounted(k: Disk, op: Op)
    requires Inv(k) && (op.MakeBackup? || op.MoveUnit?)
    ensures Accounted(k, PerformOnRecords(k, op), false)
  {
    SameTreesAccounted(k, PerformOnRecords(k, op));
  }

  lemma RecordsAccounted(k: Disk, op: Op)
    requires Inv(k) && !OnArchives(op) && !OnRoots(op)
    ensures Accounted(k, PerformOnRecords(k, op), false)
  {
    if op.SetAside? {
      SetAsideAccounted(k, op.id, op.scope);
    } else if op.MakeBackup? || op.MoveUnit? {
      DirectoriesAccounted(k, op);
    } else {
      var next := PerformOnRecords(k, op);
      assert next.retired == k.retired && next.backups == k.backups;
      SameTreesAccounted(k, next);
    }
  }

  /** Every operation accounts for the data. */
  lemma PerformAccounted(k: Disk, op: Op)
    requires Inv(k)
    ensures Accounted(k, Perform(k, op), Erasing(op))
  {
    if OnArchives(op) {
      ArchivesAccounted(k, op);
    } else if OnRoots(op) {
      RootsAccounted(k, op);
    } else {
      RecordsAccounted(k, op);
    }
  }

  /** The invariant survives every operation, a completion receipt being written only after its probe. */
  lemma PerformInv(k: Disk, op: Op)
    requires Inv(k) && (op.WriteComplete? ==> op.receipt.session in k.probed)
    ensures Inv(Perform(k, op))
  {
    PerformAccounted(k, op);
    var next := Perform(k, op);
    forall d | d in next.collected ensures Held(next, d) || d in next.purged {
      if d in k.collected && Held(k, d) { assert Held(next, d) || d in next.purged; }
    }
    PerformReceipts(k, op);
    PerformNames(k, op);
  }

  lemma PerformReceipts(k: Disk, op: Op)
    requires Inv(k) && (op.WriteComplete? ==> op.receipt.session in k.probed)
    ensures var next := Perform(k, op);
            && (forall s :: s in next.complete ==> s in next.probed && next.complete[s].session == s)
            && (forall a :: a in next.retired && next.retired[a].receipt.Some? ==> next.retired[a].receipt.value.session in next.probed)
  {
    if op.ArchiveReceipt? {
      ArchivedProbed(k, op.id, op.session);
    } else if !op.WriteComplete? {
      OtherReceipts(k, op);
    }
  }

  lemma ArchivedProbed(k: Disk, id: nat, session: string)
    requires Inv(k)
    ensures var next := Perform(k, ArchiveReceipt(id, session));
            && next.complete.Keys <= k.complete.Keys && (forall s :: s in next.complete ==> next.complete[s] == k.complete[s])
            && (forall a :: a in next.retired && next.retired[a].receipt.Some? ==> next.retired[a].receipt.value.session in k.probed)
  {
  }

  lemma OtherReceipts(k: Disk, op: Op)
    requires !op.ArchiveReceipt? && !op.WriteComplete?
    ensures var next := Perform(k, op);
            && next.complete == k.complete && k.probed <= next.probed
            && (forall a :: a in next.retired && next.retired[a].receipt.Some? ==>
                              a in k.retired && next.retired[a].receipt == k.retired[a].receipt)
  {
    if OnArchives(op) {
      OnlyArchives(k, op);
    } else if OnRoots(op) {
      OnlyRoots(k, op);
    } else {
      OnlyRecords(k, op);
    }
  }

  lemma OnlyArchives(k: Disk, op: Op)
    requires OnArchives(op) && !op.ArchiveReceipt?
    ensures var next := PerformOnArchives(k, op);
            && next.complete == k.complete && next.probed == k.probed && next.backups == k.backups && k.names <= next.names
            && (forall a :: a in next.retired && next.retired[a].receipt.Some? ==>
                              a in k.retired && next.retired[a].receipt == k.retired[a].receipt)
            && (forall a :: a in next.retired ==> a in k.retired || a == k.names < next.names)
  {
    var next := PerformOnArchives(k, op);
    if op.MakeArchive? {
      assert next.retired == k.retired[k.names := Archive(None, map[], None)];
    } else if next != k {
      assert op.id in k.retired && next.retired == k.retired[op.id := next.retired[op.id]];
    }
  }

  lemma OnlyRoots(k: Disk, op: Op)
    ensures PerformOnRoots(k, op) ==
            k.(roots := PerformOnRoots(k, op).roots, collected := PerformOnRoots(k, op).collected, purged := PerformOnRoots(k, op).purged)
  {
  }

  lemma OnlyRecords(k: Disk, op: Op)
    ensures var next := PerformOnRecords(k, op);
            && next.retired == k.retired && k.names <= next.names && k.probed <= next.probed
            && (op.WriteComplete? || next.complete == k.complete)
            && (op.Probe? || next.probed == k.probed)
            && (forall a :: a in next.backups ==> a in k.backups || a == k.names < next.names)
  {
  }

  lemma PerformNames(k: Disk, op: Op)
    requires Inv(k)
    ensures var next := Perform(k, op); forall a :: a in next.retired || a in next.backups ==> a < next.names
  {
    if op.ArchiveReceipt? {
    } else if OnArchives(op) {
      OnlyArchives(k, op);
    } else if OnRoots(op) {
      OnlyRoots(k, op);
    } else {
      OnlyRecords(k, op);
    }
  }

  // ----- Whole lists of operations -----

  /** Every completion receipt is written right after its own probe. */
  predicate ProbedFirst(ops: seq<Op>) {
    forall i :: 0 <= i < |ops| && ops[i].WriteComplete? ==> i > 0 && ops[i - 1] == Probe(ops[i].receipt.session)
  }

  predicate Preserving(ops: seq<Op>) {
    forall i :: 0 <= i < |ops| ==> !Erasing(ops[i])
  }

  /** Wherever a list of operations stops, the invariant holds and the data is accounted for. */
  lemma {:induction false} ExecInv(k: Disk, ops: seq<Op>)
    requires Inv(k) && ProbedFirst(ops)
    ensures var next := Exec(k, ops);
            && Inv(next) && k.collected <= next.collected && k.purged <= next.purged && k.probed <= next.probed
            && (Preserving(ops) ==> next.purged == k.purged)
    ensures ops != [] && ops[|ops| - 1].Probe? ==> ops[|ops| - 1].session in Exec(k, ops).probed
    decreases |ops|
  {
    if ops == [] {
      AfterNone(k, []);
    } else {
      var n := |ops| - 1;
      ExecLast(k, ops);
      ExecInv(k, ops[..n]);
      PerformAccounted(Exec(k, ops[..n]), ops[n]);
      PerformInv(Exec(k, ops[..n]), ops[n]);
    }
  }

  lemma ProbedBy(k: Disk, op: Op, session: string)
    requires session in Perform(k, op).probed && session !in k.probed
    ensures op == Probe(session)
  {
    if OnArchives(op) {
      if !op.ArchiveReceipt? { OnlyArchives(k, op); }
    } else if OnRoots(op) {
      OnlyRoots(k, op);
    } else {
      OnlyRecords(k, op);
    }
  }

  /** A session counts as probed only after a probe of it. */
  lemma {:induction false} OnlyProbes(k: Disk, ops: seq<Op>, session: string)
    requires session in Exec(k, ops).probed && session !in k.probed
    ensures Probe(session) in ops
    decreases |ops|
  {
    if ops == [] {
      AfterNone(k, []);
    } else {
      var n := |ops| - 1;
      ExecLast(k, ops);
      if session in Exec(k, ops[..n]).probed {
        OnlyProbes(k, ops[..n], session);
        assert forall op :: op in ops[..n] ==> op in ops;
      } else {
        ProbedBy(Exec(k, ops[..n]), ops[n], session);
      }
    }
  }

  // ----- The machine the commands run on -----

  datatype Outcome = Ok | Refused | Cancelled | Failed | Killed

  /** What a command does on a given disk: its file operations, and how it ends when it performs them all. */
  datatype Plan = Plan(ops: seq<Op>, outcome: Outcome)

  ghost function Reached(k: Disk, p: Plan, fuse: nat): Disk {
    After(k, p.ops, fuse)
  }

  function OutcomeOf(p: Plan, fuse: nat): Outcome {
    if |p.ops| <= fuse then p.outcome else Killed
  }

  /** First one plan, then, if it ends well, the operations and the outcome of the next. */
  function Then(p: Plan, q: Plan): Plan {
    if p.outcome == Ok then Plan(p.ops + q.ops, q.outcome) else p
  }

  lemma ThenStop(k: Disk, p: Plan, q: Plan, fuse: nat)
    requires p.outcome == Ok
    ensures fuse < |p.ops| ==> Reached(k, Then(p, q), fuse) == Reached(k, p, fuse) && OutcomeOf(Then(p, q), fuse) == Killed
    ensures fuse >= |p.ops| ==> && Reached(k, Then(p, q), fuse) == Reached(Exec(k, p.ops), q, fuse - |p.ops|)
                                && OutcomeOf(Then(p, q), fuse) == OutcomeOf(q, fuse - |p.ops|)
  {
    AfterAppend(k, p.ops, q.ops, fuse);
  }

  /** The disk, and how many more file operations are performed before the process ends. */
  class Machine {
    var disk: Disk
    var fuse: nat

    constructor (disk: Disk, fuse: nat)
      ensures this.disk == disk && this.fuse == fuse
    {
      this.disk, this.fuse := disk, fuse;
    }

    method Do(op: Op) returns (alive: bool)
      modifies this
      ensures Did(old(disk), old(fuse), [op], disk, fuse, alive)
    {
      ghost var was := disk;
      alive := fuse > 0;
      if alive { disk, fuse := Perform(disk, op), fuse - 1; }
      ExecOne(was, op);
      AfterNone(was, [op]);
    }

    /** A straight list of operations. */
    method DoAll(ops: seq<Op>) returns (alive: bool)
      modifies this
      ensures Did(old(disk), old(fuse), ops, disk, fuse, alive)
    {
      ghost var was, fuel := disk, fuse;
      DidNothing(disk, fuse);
      for i := 0 to |ops|
        invariant Did(was, fuel, ops[..i], disk, fuse, true)
      {
        ghost var mid, left := disk, fuse;
        alive := Do(ops[i]);
        assert ops[..i + 1] == ops[..i] + [ops[i]];
        DidThen(was, fuel, ops[..i], mid, left, [ops[i]], disk, fuse, alive);
        if !alive {
          assert ops == ops[..i + 1] + ops[i + 1..];
          DidStop(was, fuel, ops[..i + 1], disk, fuse, ops[i + 1..]);
          return;
        }
      }
      assert ops[..|ops|] == ops;
      alive := true;
    }
  }

  /** The operations were performed as far as the fuse reached. */
  ghost predicate Did(k: Disk, fuse: nat, ops: seq<Op>, next: Disk, left: nat, alive: bool) {
    && alive == (|ops| <= fuse)
    && next == After(k, ops, fuse)
    && left == if alive then fuse - |ops| else 0
  }

  /** A whole plan was carried out as far as the fuse reached. */
  ghost predicate Ran(k: Disk, fuse: nat, p: Plan, next: Disk, left: nat, outcome: Outcome) {
    Did(k, fuse, p.ops, next, left, |p.ops| <= fuse) && outcome == OutcomeOf(p, fuse)
  }

  lemma DidNothing(k: Disk, fuse: nat)
    ensures Did(k, fuse, [], k, fuse, true)
  {
    AfterNone(k, []);
  }

  lemma DidThen(k: Disk, fuse: nat, a: seq<Op>, mid: Disk, left: nat, b: seq<Op>, next: Disk, end: nat, alive: bool)
    requires Did(k, fuse, a, mid, left, true) && Did(mid, left, b, next, end, alive)
    ensures Did(k, fuse, a + b, next, end, alive)
  {
    AfterAll(k, a, fuse);
    AfterAppend(k, a, b, fuse);
  }

  lemma DidStop(k: Disk, fuse: nat, a: seq<Op>, next: Disk, left: nat, b: seq<Op>)
    requires Did(k, fuse, a, next, left, false)
    ensures Did(k, fuse, a + b, next, left, false)
  {
    AfterAppend(k, a, b, fuse);
  }

  /** One piece of work after another, the second only while alive. */
  lemma DidBoth(k: Disk, fuse: nat, a: seq<Op>, mid: Disk, left: nat, first: bool, b: seq<Op>, next: Disk, end: nat, alive: bool)
    requires Did(k, fuse, a, mid, left, first)
    requires if first then Did(mid, left, b, next, end, alive) else next == mid && end == left && !alive
    ensures Did(k, fuse, a + b, next, end, alive)
  {
    if first { DidThen(k, fuse, a, mid, left, b, next, end, alive); } else { DidStop(k, fuse, a, mid, left, b); }
  }

  lemma RanThen(k: Disk, fuse: nat, p: Plan, mid: Disk, left: nat, q: Plan, next: Disk, end: nat, outcome: Outcome)
    requires p.outcome == Ok && Ran(k, fuse, p, mid, left, Ok) && Ran(mid, left, q, next, end, outcome)
    ensures Ran(k, fuse, Then(p, q), next, end, outcome)
  {
    DidThen(k, fuse, p.ops, mid, left, q.ops, next, end, |q.ops| <= left);
  }

  lemma RanStop(k: Disk, fuse: nat, p: Plan, next: Disk, left: nat, outcome: Outcome, q: Plan)
    requires Ran(k, fuse, p, next, left, outcome) && outcome != Ok
    ensures Ran(k, fuse, Then(p, q), next, left, outcome)
  {
    if p.outcome == Ok { DidStop(k, fuse, p.ops, next, left, q.ops); }
  }

  lemma RanNothing(k: Disk, fuse: nat, outcome: Outcome)
    ensures Ran(k, fuse, Plan([], outcome), k, fuse, outcome)
  {
    DidNothing(k, fuse);
  }
}
