/** The operations of installations and re-enrollments (deploy/agents/enrollment-linux.py, `execute`), and what
    the disk is like after any number of them. */
module Attempts {
  import opened Wrappers
  import opened CollectorDisk
  import opened Enrollment

  // ----- What the lists of operations do, wherever they stop -----

  /** Roots keep their owners and their data. */
  ghost predicate InPlace(k: Disk, next: Disk) {
    && next == k.(roots := next.roots, collected := next.collected)
    && next.roots.Keys == k.roots.Keys
    && forall s :: s in k.roots ==> next.roots[s].owner == k.roots[s].owner && k.roots[s].data <= next.roots[s].data
  }

  ghost predicate SameFiles(k: Disk, next: Disk) {
    forall s :: s in k.roots ==> s in next.roots && next.roots[s].files == k.roots[s].files
  }

  lemma InPlaceThen(a: Disk, b: Disk, c: Disk)
    requires InPlace(a, b) && InPlace(b, c)
    ensures InPlace(a, c)
  {
  }

  lemma SameFilesThen(a: Disk, b: Disk, c: Disk)
    requires SameFiles(a, b) && SameFiles(b, c)
    ensures SameFiles(a, c)
  {
  }

  lemma GatherValue(k: Disk, s: Scope, data: set<nat>)
    requires s in k.roots
    ensures InPlace(k, WithRoot(k, s, k.roots[s].(data := k.roots[s].data + data)))
    ensures SameFiles(k, WithRoot(k, s, k.roots[s].(data := k.roots[s].data + data)))
  {
  }

  lemma GatherOne(k: Disk, s: Scope, data: set<nat>)
    ensures InPlace(k, Perform(k, Gather(s, data))) && SameFiles(k, Perform(k, Gather(s, data)))
  {
    if s in k.roots && Service(s) in k.running {
      assert Perform(k, Gather(s, data)) == WithRoot(k, s, k.roots[s].(data := k.roots[s].data + data));
      GatherValue(k, s, data);
    } else {
      assert Perform(k, Gather(s, data)) == k;
    }
  }

  lemma {:induction false} GathersStop(k: Disk, roles: seq<Scope>, data: Both<set<nat>>, n: nat)
    requires n <= |roles|
    ensures InPlace(k, After(k, Gathers(roles, data), n)) && SameFiles(k, After(k, Gathers(roles, data), n))
  {
    if n > 0 {
      var ops := Gathers(roles, data);
      GathersStop(k, roles, data, n - 1);
      AfterStep(k, ops, n, Gather(roles[n - 1], data.Of(roles[n - 1])));
      GatherOne(After(k, ops, n - 1), roles[n - 1], data.Of(roles[n - 1]));
      InPlaceThen(k, After(k, ops, n - 1), After(k, ops, n));
      SameFilesThen(k, After(k, ops, n - 1), After(k, ops, n));
    }
  }

  /** The roles rewritten so far have the new files. */
  ghost predicate Rewritten(k: Disk, next: Disk, done: seq<Scope>, files: Both<Files>) {
    forall s :: s in k.roots ==> s in next.roots && next.roots[s].files == if s in done then files.Of(s) else k.roots[s].files
  }

  lemma RewriteValue(k: Disk, mid: Disk, done: seq<Scope>, s: Scope, files: Both<Files>)
    requires InPlace(k, mid) && Rewritten(k, mid, done, files) && s in mid.roots
    ensures InPlace(k, WithRoot(mid, s, mid.roots[s].(files := files.Of(s))))
    ensures Rewritten(k, WithRoot(mid, s, mid.roots[s].(files := files.Of(s))), done + [s], files)
  {
  }

  lemma RewriteOne(k: Disk, mid: Disk, done: seq<Scope>, s: Scope, files: Both<Files>)
    requires InPlace(k, mid) && Rewritten(k, mid, done, files)
    ensures InPlace(k, Perform(mid, Rewrite(s, files.Of(s)))) && Rewritten(k, Perform(mid, Rewrite(s, files.Of(s))), done + [s], files)
  {
    if s in mid.roots {
      assert Perform(mid, Rewrite(s, files.Of(s))) == WithRoot(mid, s, mid.roots[s].(files := files.Of(s)));
      RewriteValue(k, mid, done, s, files);
    } else {
      assert Perform(mid, Rewrite(s, files.Of(s))) == mid;
    }
  }

  lemma {:induction false} RewritesStop(k: Disk, roles: seq<Scope>, files: Both<Files>, n: nat)
    requires n <= |roles|
    ensures InPlace(k, After(k, Rewrites(roles, files), n)) && Rewritten(k, After(k, Rewrites(roles, files), n), roles[..n], files)
  {
    if n > 0 {
      var ops := Rewrites(roles, files);
      RewritesStop(k, roles, files, n - 1);
      AfterStep(k, ops, n, Rewrite(roles[n - 1], files.Of(roles[n - 1])));
      assert roles[..n] == roles[..n - 1] + [roles[n - 1]];
      RewriteOne(k, After(k, ops, n - 1), roles[..n - 1], roles[n - 1], files);
    }
  }

  /** One installer script: the root is made, marked, populated, and then its units are placed. */
  ghost predicate ScriptState(k: Disk, next: Disk, s: Scope, owner: string, course: Course, n: nat) {
    && next == k.(roots := next.roots, units := next.units, collected := next.collected)
    && next.roots == (if n == 0 then k.roots else k.roots[s := Tree(
                        if n == 1 then None else Some(owner),
                        if n <= 2 then map[] else course.laid.Of(s),
                        if n <= 2 then {} else course.seeded.Of(s))])
    && next.units == if n < 4 then k.units else k.units + UnitsFor(s)
  }

  lemma ScriptStop(k: Disk, s: Scope, owner: string, course: Course, n: nat)
    requires s !in k.roots && n <= 4
    ensures ScriptState(k, After(k, Script(s, owner, course), n), s, owner, course, n)
  {
    var ops := Script(s, owner, course);
    if n == 1 {
      ScriptMade(k, s, owner, course);
    } else if n == 2 {
      ScriptMarked(k, s, owner, course);
    } else if n == 3 {
      ScriptPopulated(k, s, owner, course);
    } else if n == 4 {
      ScriptPopulated(k, s, owner, course);
      AfterStep(k, ops, 4, PlaceUnits(s));
    }
  }

  lemma ScriptMade(k: Disk, s: Scope, owner: string, course: Course)
    requires s !in k.roots
    ensures ScriptState(k, After(k, Script(s, owner, course), 1), s, owner, course, 1)
  {
    AfterStep(k, Script(s, owner, course), 1, MakeRoot(s));
  }

  lemma ScriptMarked(k: Disk, s: Scope, owner: string, course: Course)
    requires s !in k.roots
    ensures ScriptState(k, After(k, Script(s, owner, course), 2), s, owner, course, 2)
  {
    ScriptMade(k, s, owner, course);
    AfterStep(k, Script(s, owner, course), 2, MarkRoot(s, owner));
  }

  lemma ScriptPopulated(k: Disk, s: Scope, owner: string, course: Course)
    requires s !in k.roots
    ensures ScriptState(k, After(k, Script(s, owner, course), 3), s, owner, course, 3)
  {
    ScriptMarked(k, s, owner, course);
    AfterStep(k, Script(s, owner, course), 3, Populate(s, course.laid.Of(s), course.seeded.Of(s)));
    assert {} + course.seeded.Of(s) == course.seeded.Of(s);
  }

  predicate Distinct(roles: seq<Scope>) {
    forall i, j :: 0 <= i < j < |roles| ==> roles[i] != roles[j]
  }

  /** The scripts ran for these roles, and nothing else changed. */
  ghost predicate Laid(k: Disk, next: Disk, roles: seq<Scope>, owner: string, course: Course) {
    && next == k.(roots := next.roots, units := next.units, collected := next.collected)
    && (forall s :: s in next.roots <==> s in k.roots || s in roles)
    && (forall s :: s in k.roots && s !in roles ==> next.roots[s] == k.roots[s])
    && (forall s :: s in roles && s in next.roots ==>
                      next.roots[s].owner == Some(owner) && next.roots[s].files == course.laid.Of(s))
    && k.units <= next.units && (forall s :: s in roles ==> UnitsFor(s) <= next.units)
  }

  lemma ScriptsSnoc(roles: seq<Scope>, owner: string, course: Course)
    requires roles != []
    ensures var n := |roles| - 1;
            Scripts(roles, owner, course) == Scripts(roles[..n], owner, course) + Script(roles[n], owner, course)
  {
  }

  lemma {:induction false} ScriptsDone(k: Disk, roles: seq<Scope>, owner: string, course: Course)
    requires Distinct(roles) && forall s :: s in roles ==> s !in k.roots
    ensures Laid(k, Exec(k, Scripts(roles, owner, course)), roles, owner, course)
  {
    if roles != [] {
      var n := |roles| - 1;
      var mid := Exec(k, Scripts(roles[..n], owner, course));
      ScriptsDone(k, roles[..n], owner, course);
      assert roles == roles[..n] + [roles[n]];
      ScriptsSnoc(roles, owner, course);
      ExecAppend(k, Scripts(roles[..n], owner, course), Script(roles[n], owner, course));
      ScriptStop(mid, roles[n], owner, course, 4);
      assert Script(roles[n], owner, course)[..4] == Script(roles[n], owner, course);
    }
  }

  /** All made roots of these roles bear the mark. */
  predicate AllMarked(k: Disk, roles: seq<Scope>, owner: string) {
    forall s :: s in roles && s in k.roots ==> k.roots[s].owner == Some(owner)
  }

  ghost predicate OnlyRoles(k: Disk, next: Disk, roles: seq<Scope>) {
    && next == k.(roots := next.roots, units := next.units, collected := next.collected)
    && (forall s :: s in next.roots ==> s in k.roots || s in roles)
  }

  lemma LastScript(k: Disk, mid: Disk, next: Disk, roles: seq<Scope>, s: Scope, owner: string, course: Course, n: nat)
    requires s !in roles && Laid(k, mid, roles, owner, course) && 0 < n <= 4 && ScriptState(mid, next, s, owner, course, n)
    ensures OnlyRoles(k, next, roles + [s]) && (AllMarked(next, roles + [s], owner) <==> n > 1)
  {
    assert s in roles + [s];
    forall r | r in roles ensures r in next.roots && next.roots[r].owner == Some(owner) {
      assert next.roots[r] == mid.roots[r];
    }
  }

  predicate MadeLast(ops: seq<Op>, n: nat)
    requires n <= |ops|
  {
    n > 0 && ops[n - 1].MakeRoot?
  }

  lemma MadeLastAppend(a: seq<Op>, b: seq<Op>, n: nat)
    requires n <= |a| + |b|
    ensures MadeLast(a + b, n) == if n <= |a| then MadeLast(a, n) else MadeLast(b, n - |a|)
  {
  }

  /** The scripts of these roles, stopped after n operations: all made roots bear the mark, unless the last
      operation made a root. */
  ghost predicate ScriptsStopped(k: Disk, next: Disk, roles: seq<Scope>, owner: string, madeLast: bool) {
    OnlyRoles(k, next, roles) && (AllMarked(next, roles, owner) <==> !madeLast)
  }

  lemma {:induction false} ScriptsStop(k: Disk, roles: seq<Scope>, owner: string, course: Course, n: nat)
    requires Distinct(roles) && (forall s :: s in roles ==> s !in k.roots) && n <= |Scripts(roles, owner, course)|
    ensures var ops := Scripts(roles, owner, course);
            ScriptsStopped(k, After(k, ops, n), roles, owner, MadeLast(ops, n))
    decreases |roles|
  {
    if roles == [] {
      AfterNone(k, []);
    } else {
      var m := |roles| - 1;
      var first, last := Scripts(roles[..m], owner, course), Script(roles[m], owner, course);
      assert roles == roles[..m] + [roles[m]];
      ScriptsSnoc(roles, owner, course);
      ScriptsDone(k, roles[..m], owner, course);
      if n <= |first| { ScriptsStop(k, roles[..m], owner, course, n); }
      ScriptsJoin(k, first, roles[..m], roles[m], owner, course, n);
    }
  }

  lemma ScriptsJoin(k: Disk, first: seq<Op>, roles: seq<Scope>, s: Scope, owner: string, course: Course, n: nat)
    requires s !in roles && s !in k.roots && n <= |first| + 4
    requires Laid(k, Exec(k, first), roles, owner, course)
    requires n <= |first| ==> ScriptsStopped(k, After(k, first, n), roles, owner, MadeLast(first, n))
    ensures var ops := first + Script(s, owner, course);
            ScriptsStopped(k, After(k, ops, n), roles + [s], owner, MadeLast(ops, n))
  {
    var last := Script(s, owner, course);
    AfterAppend(k, first, last, n);
    MadeLastAppend(first, last, n);
    if n <= |first| {
      OneMoreRole(k, After(k, first, n), roles, s, owner, MadeLast(first, n));
    } else {
      InLastScript(k, Exec(k, first), roles, s, owner, course, n - |first|);
    }
  }

  lemma OneMoreRole(k: Disk, next: Disk, roles: seq<Scope>, s: Scope, owner: string, madeLast: bool)
    requires ScriptsStopped(k, next, roles, owner, madeLast) && s !in k.roots && s !in roles
    ensures ScriptsStopped(k, next, roles + [s], owner, madeLast)
  {
  }

  lemma InLastScript(k: Disk, mid: Disk, roles: seq<Scope>, s: Scope, owner: string, course: Course, n: nat)
    requires s !in roles && s !in k.roots && Laid(k, mid, roles, owner, course) && 0 < n <= 4
    ensures ScriptsStopped(k, After(mid, Script(s, owner, course), n), roles + [s], owner, MadeLast(Script(s, owner, course), n))
  {
    ScriptStop(mid, s, owner, course, n);
    LastScript(k, mid, After(mid, Script(s, owner, course), n), roles, s, owner, course, n);
  }

  /** Setting aside: these roots and units are in the new backup directory, and nowhere else. */
  ghost predicate Aside(k: Disk, next: Disk, gone: set<Scope>, moved: set<Unit>) {
    && next == k.(roots := k.roots - gone, units := k.units - moved, backups := next.backups, names := k.names + 1)
    && k.names in next.backups && next.backups == k.backups[k.names := next.backups[k.names]]
    && InBackupNow(k, next.backups[k.names], gone, moved)
  }

  ghost predicate InBackupNow(k: Disk, b: Backup, gone: set<Scope>, moved: set<Unit>) {
    && (forall s :: s in b.trees <==> s in k.roots && s in gone)
    && (forall s :: s in b.trees ==> b.trees[s] == k.roots[s])
    && b.units == k.units * moved
  }

  lemma MakeBackupAside(k: Disk)
    ensures Aside(k, Perform(k, MakeBackup), {}, {})
  {
    assert k.roots - {} == k.roots && k.units - {} == k.units;
  }

  lemma SetAsideValue(k: Disk, mid: Disk, gone: set<Scope>, s: Scope)
    requires Aside(k, mid, gone, {}) && s !in gone && s in k.roots
    ensures var b := mid.backups[k.names];
            && s in mid.roots && s !in b.trees
            && Aside(k, mid.(backups := mid.backups[k.names := b.(trees := b.trees[s := mid.roots[s]])], roots := mid.roots - {s}),
                     gone + {s}, {})
  {
    assert k.roots - (gone + {s}) == (k.roots - gone) - {s};
  }

  lemma SetAsideOne(k: Disk, mid: Disk, gone: set<Scope>, s: Scope)
    requires Aside(k, mid, gone, {}) && s !in gone
    ensures Aside(k, Perform(mid, SetAside(k.names, s)), gone + {s}, {})
  {
    if s in k.roots {
      SetAsideValue(k, mid, gone, s);
      var b := mid.backups[k.names];
      assert Perform(mid, SetAside(k.names, s))
          == mid.(backups := mid.backups[k.names := b.(trees := b.trees[s := mid.roots[s]])], roots := mid.roots - {s});
    } else {
      assert k.roots - (gone + {s}) == k.roots - gone;
      assert Perform(mid, SetAside(k.names, s)) == mid;
    }
  }

  lemma MoveUnitValue(k: Disk, mid: Disk, gone: set<Scope>, moved: set<Unit>, u: Unit)
    requires Aside(k, mid, gone, moved) && u in mid.units
    ensures var b := mid.backups[k.names];
            Aside(k, mid.(backups := mid.backups[k.names := b.(units := b.units + {u})], units := mid.units - {u}), gone, moved + {u})
  {
    assert k.units - (moved + {u}) == (k.units - moved) - {u};
    assert k.units * (moved + {u}) == k.units * moved + {u};
  }

  lemma MoveUnitOne(k: Disk, mid: Disk, gone: set<Scope>, moved: set<Unit>, u: Unit)
    requires Aside(k, mid, gone, moved)
    ensures Aside(k, Perform(mid, MoveUnit(k.names, u)), gone, moved + {u})
  {
    if u in mid.units {
      MoveUnitValue(k, mid, gone, moved, u);
      var b := mid.backups[k.names];
      assert Perform(mid, MoveUnit(k.names, u))
          == mid.(backups := mid.backups[k.names := b.(units := b.units + {u})], units := mid.units - {u});
    } else {
      assert k.units - (moved + {u}) == k.units - moved && k.units * (moved + {u}) == k.units * moved;
      assert Perform(mid, MoveUnit(k.names, u)) == mid;
    }
  }

  function Elements<T>(xs: seq<T>): set<T> {
    set x | x in xs
  }

  lemma ElementsSnoc<T>(xs: seq<T>, n: nat)
    requires 0 < n <= |xs|
    ensures Elements(xs[..n]) == Elements(xs[..n - 1]) + {xs[n - 1]}
  {
    assert xs[..n] == xs[..n - 1] + [xs[n - 1]];
  }

  lemma {:induction false} SetAsidesStop(k: Disk, roles: seq<Scope>, n: nat)
    requires Distinct(roles) && n <= |roles|
    ensures Aside(k, After(Perform(k, MakeBackup), SetAsides(roles, k.names), n), Elements(roles[..n]), {})
  {
    if n == 0 {
      MakeBackupAside(k);
      assert Elements(roles[..0]) == {};
    } else {
      var ops, start := SetAsides(roles, k.names), Perform(k, MakeBackup);
      SetAsidesStop(k, roles, n - 1);
      AfterStep(start, ops, n, SetAside(k.names, roles[n - 1]));
      ElementsSnoc(roles, n);
      SetAsideOne(k, After(start, ops, n - 1), Elements(roles[..n - 1]), roles[n - 1]);
    }
  }

  lemma {:induction false} MoveUnitsStop(k: Disk, mid: Disk, gone: set<Scope>, units: seq<Unit>, n: nat)
    requires Aside(k, mid, gone, {}) && n <= |units|
    ensures Aside(k, After(mid, MoveUnits(units, k.names), n), gone, Elements(units[..n]))
  {
    if n == 0 {
      assert Elements(units[..0]) == {};
    } else {
      var ops := MoveUnits(units, k.names);
      MoveUnitsStop(k, mid, gone, units, n - 1);
      AfterStep(mid, ops, n, MoveUnit(k.names, units[n - 1]));
      ElementsSnoc(units, n);
      MoveUnitOne(k, After(mid, ops, n - 1), gone, Elements(units[..n - 1]), units[n - 1]);
    }
  }

  lemma BundleElements(spec: Spec)
    ensures Elements(Roles(spec)) == RoleSet(spec) && Elements(Units(spec)) == UnitSet(spec)
    ensures Distinct(Roles(spec))
  {
    var roles, units := Roles(spec), Units(spec);
    if spec.network {
      assert roles[0] == HostScope && roles[1] == NetworkScope;
      assert units[0] == Service(HostScope) && units[1] == Service(NetworkScope) && units[2] == DiscoveryService && units[3] == DiscoveryTimer;
    } else {
      assert roles[0] == HostScope;
      assert units[0] == Service(HostScope) && units[1] == DiscoveryService && units[2] == DiscoveryTimer;
    }
  }

  lemma AllAside(k: Disk, spec: Spec)
    ensures Aside(k, Exec(Perform(k, MakeBackup), SetAsides(Roles(spec), k.names)), RoleSet(spec), {})
  {
    var roles := Roles(spec);
    BundleElements(spec);
    SetAsidesStop(k, roles, |roles|);
    AfterAll(Perform(k, MakeBackup), SetAsides(roles, k.names), |roles|);
    assert roles[..|roles|] == roles;
  }

  /** Stopped anywhere, what has left its place is in the new backup. */
  lemma AsideStop(k: Disk, spec: Spec, n: nat) returns (gone: set<Scope>, moved: set<Unit>)
    requires n <= |AsideOps(spec, k.names)|
    ensures After(k, AsideOps(spec, k.names), n) == k || Aside(k, After(k, AsideOps(spec, k.names), n), gone, moved)
  {
    var sets, moves := SetAsides(Roles(spec), k.names), MoveUnits(Units(spec), k.names);
    var start := Perform(k, MakeBackup);
    gone, moved := {}, {};
    if n > 0 {
      AfterCons(k, MakeBackup, sets + moves, n);
      AfterAppend(start, sets, moves, n - 1);
      BundleElements(spec);
      if n - 1 <= |sets| {
        gone := Elements(Roles(spec)[..n - 1]);
        SetAsidesStop(k, Roles(spec), n - 1);
      } else {
        AllAside(k, spec);
        gone, moved := RoleSet(spec), Elements(Units(spec)[..n - 1 - |sets|]);
        MoveUnitsStop(k, Exec(start, sets), gone, Units(spec), n - 1 - |sets|);
      }
    }
  }

  /** At the end, every root and every unit of the bundle has moved there. */
  lemma AsideDone(k: Disk, spec: Spec)
    ensures Aside(k, Exec(k, AsideOps(spec, k.names)), RoleSet(spec), UnitSet(spec))
  {
    var sets, moves := SetAsides(Roles(spec), k.names), MoveUnits(Units(spec), k.names);
    ExecCons(k, MakeBackup, sets + moves);
    ExecAppend(Perform(k, MakeBackup), sets, moves);
    AllAside(k, spec);
    AllMoved(k, Exec(Perform(k, MakeBackup), sets), spec);
  }

  lemma AllMoved(k: Disk, mid: Disk, spec: Spec)
    requires Aside(k, mid, RoleSet(spec), {})
    ensures Aside(k, Exec(mid, MoveUnits(Units(spec), k.names)), RoleSet(spec), UnitSet(spec))
  {
    var units := Units(spec);
    BundleElements(spec);
    MoveUnitsStop(k, mid, RoleSet(spec), units, |units|);
    AfterAll(mid, MoveUnits(units, k.names), |units|);
    assert units[..|units|] == units;
  }

  lemma {:induction false} StartsStop(k: Disk, units: seq<Unit>, n: nat)
    requires n <= |units| && forall u :: u in units ==> u in k.units
    ensures After(k, StartOps(units), n) == k.(running := k.running + Elements(units[..n]))
  {
    if n == 0 {
      assert Elements(units[..0]) == {} && k.running + {} == k.running && StartOps(units)[..0] == [];
    } else {
      StartsStop(k, units, n - 1);
      AfterStep(k, StartOps(units), n, Start(units[n - 1]));
      ElementsSnoc(units, n);
      assert units[n - 1] in units;
      assert k.running + Elements(units[..n]) == k.running + Elements(units[..n - 1]) + {units[n - 1]};
    }
  }

  lemma {:induction false} StopsStop(k: Disk, units: seq<Unit>, n: nat)
    requires n <= |units|
    ensures After(k, StopOps(units), n) == k.(running := k.running - Elements(units[..n]))
  {
    if n == 0 {
      assert Elements(units[..0]) == {} && k.running - {} == k.running && StopOps(units)[..0] == [];
    } else {
      StopsStop(k, units, n - 1);
      AfterStep(k, StopOps(units), n, Stop(units[n - 1]));
      ElementsSnoc(units, n);
      assert k.running - Elements(units[..n]) == k.running - Elements(units[..n - 1]) - {units[n - 1]};
    }
  }

  lemma AllStarted(k: Disk, units: seq<Unit>)
    requires forall u :: u in units ==> u in k.units
    ensures Exec(k, StartOps(units)) == k.(running := k.running + Elements(units))
  {
    StartsStop(k, units, |units|);
    AfterAll(k, StartOps(units), |units|);
    assert units[..|units|] == units;
  }

  /** How many operations of an attempt remain when all its units have been started. */
  function AfterStart(spec: Spec): nat {
    |Roles(spec)| + 3
  }

  /** How many remain just before the first of them is started. */
  function BeforeStart(spec: Spec): nat {
    |StartUnits(spec)| + AfterStart(spec)
  }

  /** The units that an attempt has started when so many of its operations remain. */
  function StartedWith(spec: Spec, remaining: nat): set<Unit> {
    Elements(StartUnits(spec)[..if remaining >= BeforeStart(spec) then 0
                                else if remaining <= AfterStart(spec) then |StartUnits(spec)|
                                else BeforeStart(spec) - remaining])
  }

  lemma StartUnitsPlaced(spec: Spec)
    ensures forall u :: u in StartUnits(spec) ==> u in UnitSet(spec)
    ensures Elements(StartUnits(spec)) <= UnitSet(spec)
  {
  }

  lemma StartedSome(spec: Spec, remaining: nat)
    ensures StartedWith(spec, remaining) <= UnitSet(spec)
    ensures remaining >= BeforeStart(spec) ==> StartedWith(spec, remaining) == {}
    ensures remaining < BeforeStart(spec) ==> Service(HostScope) in StartedWith(spec, remaining)
    ensures remaining <= AfterStart(spec) ==> StartedWith(spec, remaining) == Elements(StartUnits(spec))
  {
    var units := StartUnits(spec);
    StartUnitsPlaced(spec);
    assert units[..|units|] == units;
    if remaining < BeforeStart(spec) {
      var m := if remaining <= AfterStart(spec) then |units| else BeforeStart(spec) - remaining;
      assert units[..m][0] == Service(HostScope);
    }
  }

  /** The tail of an attempt, stopped after n of its operations. */
  ghost predicate TailState(k: Disk, next: Disk, spec: Spec, owner: string, session: string, files: map<Scope, Files>, n: nat, total: nat)
    requires n <= total
  {
    && next.retired == k.retired && next.units == k.units && next.local == k.local && next.backups == k.backups
    && next.running == k.running + StartedWith(spec, total - n)
    && next.roots.Keys == k.roots.Keys
    && (forall s :: s in k.roots ==> next.roots[s].owner == k.roots[s].owner && next.roots[s].files == k.roots[s].files
                                     && k.roots[s].data <= next.roots[s].data)
    && next.pending == (if n == 0 then k.pending else if n < total then Some(Receipt(Starting, owner, spec, session, files)) else None)
    && next.complete == (if n + 1 < total then k.complete else k.complete[session := Receipt(Complete, owner, spec, session, files)])
    && next.probed == (if n + 2 < total then k.probed else k.probed + {session})
  }

  lemma TailLast(k: Disk, spec: Spec, owner: string, session: string, files: map<Scope, Files>, n: nat)
    requires n <= 3
    ensures After(k, Receipts(spec, owner, session, files), n) == Noted(k, spec, owner, session, files, n)
  {
    var ops := Receipts(spec, owner, session, files);
    if n == 0 {
      assert ops[..0] == [];
      AfterNone(k, []);
    } else {
      TailLast(k, spec, owner, session, files, n - 1);
      AfterStep(k, ops, n, ops[n - 1]);
      NotedNext(k, spec, owner, session, files, n);
    }
  }

  /** The probe counts, then the completion receipt is there, then the pending one is gone. */
  function Noted(k: Disk, spec: Spec, owner: string, session: string, files: map<Scope, Files>, n: nat): Disk {
    k.(probed := if n > 0 then k.probed + {session} else k.probed,
    complete := if n > 1 then k.complete[session := Receipt(Complete, owner, spec, session, files)] else k.complete,
    pending := if n > 2 then None else k.pending)
  }

  lemma NotedNext(k: Disk, spec: Spec, owner: string, session: string, files: map<Scope, Files>, n: nat)
    requires 0 < n <= 3
    ensures Perform(Noted(k, spec, owner, session, files, n - 1), Receipts(spec, owner, session, files)[n - 1])
         == Noted(k, spec, owner, session, files, n)
  {
    var op, mid := Receipts(spec, owner, session, files)[n - 1], Noted(k, spec, owner, session, files, n - 1);
    if n == 1 {
      assert op == Probe(session) && Perform(mid, op) == mid.(probed := mid.probed + {session});
    } else if n == 2 {
      var r := Receipt(Complete, owner, spec, session, files);
      assert op == WriteComplete(r) && Perform(mid, op) == mid.(complete := mid.complete[session := r]);
    } else {
      assert op == DropPending && Perform(mid, op) == mid.(pending := None);
    }
  }

  lemma TailStop(k: Disk, spec: Spec, owner: string, session: string, files: map<Scope, Files>, course: Course, n: nat)
    requires UnitSet(spec) <= k.units && n <= |Tail(spec, owner, session, files, course)|
    ensures var ops := Tail(spec, owner, session, files, course);
            TailState(k, After(k, ops, n), spec, owner, session, files, n, |ops|)
  {
    var starts, ends := StartOps(StartUnits(spec)), Gathers(Roles(spec), course.gathered) + Receipts(spec, owner, session, files);
    var first := WritePending(Receipt(Starting, owner, spec, session, files));
    if n == 0 {
      TailAtStart(k, spec, owner, session, files, course);
    } else {
      AfterCons(k, first, starts + ends, n);
      TailFrom(k, Perform(k, first), spec, owner, session, files, course, starts, ends, n - 1);
    }
  }

  lemma TailFrom(k: Disk, begun: Disk, spec: Spec, owner: string, session: string, files: map<Scope, Files>, course: Course,
                 starts: seq<Op>, ends: seq<Op>, n: nat)
    requires UnitSet(spec) <= k.units && begun == k.(pending := Some(Receipt(Starting, owner, spec, session, files)))
    requires starts == StartOps(StartUnits(spec)) && n <= |starts| + |ends|
    requires ends == Gathers(Roles(spec), course.gathered) + Receipts(spec, owner, session, files)
    ensures TailState(k, After(begun, starts + ends, n), spec, owner, session, files, 1 + n, 1 + BeforeStart(spec))
  {
    TailStarting(begun, spec, owner, session, files, starts, ends, n);
    if n <= |starts| {
      TailBegun(k, spec, owner, session, files, n);
    } else {
      var started := begun.(running := k.running + Elements(StartUnits(spec)));
      TailEnding(started, spec, owner, session, files, course, n - |starts|);
      TailStates(k, started, After(started, ends, n - |starts|), spec, owner, session, files, n - |starts|);
    }
  }

  lemma TailAtStart(k: Disk, spec: Spec, owner: string, session: string, files: map<Scope, Files>, course: Course)
    ensures var ops := Tail(spec, owner, session, files, course);
            TailState(k, After(k, ops, 0), spec, owner, session, files, 0, |ops|)
  {
    assert Tail(spec, owner, session, files, course)[..0] == [];
    AfterNone(k, []);
    StartedSome(spec, |Tail(spec, owner, session, files, course)|);
  }

  lemma TailBegun(k: Disk, spec: Spec, owner: string, session: string, files: map<Scope, Files>, n: nat)
    requires n <= |StartUnits(spec)|
    ensures TailState(k, k.(pending := Some(Receipt(Starting, owner, spec, session, files)), running := k.running + Elements(StartUnits(spec)[..n])),
                      spec, owner, session, files, 1 + n, 1 + BeforeStart(spec))
  {
    var units := StartUnits(spec);
    assert units[..|units|] == units;
  }

  lemma TailStates(k: Disk, started: Disk, next: Disk, spec: Spec, owner: string, session: string, files: map<Scope, Files>, n: nat)
    requires 0 < n <= AfterStart(spec)
    requires started == k.(pending := Some(Receipt(Starting, owner, spec, session, files)), running := k.running + Elements(StartUnits(spec)))
    requires EndingState(started, next, spec, owner, session, files, n)
    ensures TailState(k, next, spec, owner, session, files, 1 + |StartUnits(spec)| + n, 1 + BeforeStart(spec))
  {
    StartedSome(spec, AfterStart(spec) - n);
  }

  ghost predicate EndingState(k: Disk, next: Disk, spec: Spec, owner: string, session: string, files: map<Scope, Files>, n: nat) {
    && InPlace(k, next.(probed := k.probed, complete := k.complete, pending := k.pending)) && SameFiles(k, next)
    && next.pending == (if n < AfterStart(spec) then k.pending else None)
    && next.complete == (if n + 1 < AfterStart(spec) then k.complete else k.complete[session := Receipt(Complete, owner, spec, session, files)])
    && next.probed == (if n + 2 < AfterStart(spec) then k.probed else k.probed + {session})
  }

  lemma TailStarting(k: Disk, spec: Spec, owner: string, session: string, files: map<Scope, Files>, starts: seq<Op>, rest: seq<Op>, n: nat)
    requires UnitSet(spec) <= k.units && starts == StartOps(StartUnits(spec)) && n <= |starts| + |rest|
    ensures After(k, starts + rest, n) ==
            if n <= |starts| then k.(running := k.running + Elements(StartUnits(spec)[..n]))
            else After(k.(running := k.running + Elements(StartUnits(spec))), rest, n - |starts|)
  {
    StartUnitsPlaced(spec);
    AfterAppend(k, starts, rest, n);
    if n <= |starts| { StartsStop(k, StartUnits(spec), n); } else { AllStarted(k, StartUnits(spec)); }
  }

  lemma TailEnding(k: Disk, spec: Spec, owner: string, session: string, files: map<Scope, Files>, course: Course, n: nat)
    requires n <= AfterStart(spec) && k.pending == Some(Receipt(Starting, owner, spec, session, files))
    ensures EndingState(k, After(k, Gathers(Roles(spec), course.gathered) + Receipts(spec, owner, session, files), n),
                        spec, owner, session, files, n)
  {
    var gathers, ends := Gathers(Roles(spec), course.gathered), Receipts(spec, owner, session, files);
    AfterAppend(k, gathers, ends, n);
    if n <= |gathers| {
      GathersStop(k, Roles(spec), course.gathered, n);
    } else {
      GathersStop(k, Roles(spec), course.gathered, |gathers|);
      AfterAll(k, gathers, |gathers|);
      TailLast(Exec(k, gathers), spec, owner, session, files, n - |gathers|);
    }
  }

  /** The installation is complete: its receipt describes the roots and units as they are. */
  predicate Installed(k: Disk, spec: Spec, session: string) {
    && session in k.complete && k.complete[session].phase == Complete && k.complete[session].spec == spec
    && IsStable(k, spec, k.complete[session].owner) && FilesOf(k, spec) == k.complete[session].files
    && k.pending.None?
  }

  lemma StableSame(k: Disk, next: Disk, spec: Spec, owner: string)
    requires next.units == k.units && next.roots.Keys == k.roots.Keys
    requires forall s :: s in k.roots ==> next.roots[s].owner == k.roots[s].owner && next.roots[s].files == k.roots[s].files
    ensures IsStable(next, spec, owner) == IsStable(k, spec, owner) && FilesOf(next, spec) == FilesOf(k, spec)
    ensures Marked(next, spec, owner) == Marked(k, spec, owner)
  {
  }

  /** What the record of a stopped attempt says of the roots, and what the attempt leaves when it ends well. */
  ghost predicate Stopped(next: Disk, spec: Spec, session: string, owner: string, ended: bool) {
    && (ended ==> Installed(next, spec, session))
    && (!ended ==> next.pending.Some? && next.pending.value.owner == owner && next.pending.value.spec == spec
                   && next.pending.value.phase in {Preparing, Starting} && (Consistent(next, spec) <==> Marked(next, spec, owner)))
  }

  /** Between the two disks an attempt, of which so many operations remain, has started its units, and only
      over stable roots whose files it had recorded. */
  predicate RunsWith(k: Disk, next: Disk, spec: Spec, owner: string, remaining: nat) {
    && next.running == k.running + StartedWith(spec, remaining)
    && (remaining < BeforeStart(spec) ==> IsStable(next, spec, owner) && !PartialPending(next))
  }

  lemma NotStarted(k: Disk, next: Disk, spec: Spec, owner: string, remaining: nat)
    requires next.running == k.running && remaining >= BeforeStart(spec)
    ensures RunsWith(k, next, spec, owner, remaining)
  {
    StartedSome(spec, remaining);
  }

  lemma TailLong(spec: Spec, owner: string, session: string, files: map<Scope, Files>, course: Course)
    ensures |Tail(spec, owner, session, files, course)| == BeforeStart(spec) + 1
  {
  }

  lemma TailStopped(k: Disk, spec: Spec, owner: string, session: string, files: map<Scope, Files>, course: Course, n: nat)
    requires n <= |Tail(spec, owner, session, files, course)| && files != map[]
    requires IsStable(k, spec, owner) && FilesOf(k, spec) == files
    requires k.pending == Some(Receipt(Preparing, owner, spec, session, map[]))
    ensures var ops := Tail(spec, owner, session, files, course);
            Stopped(After(k, ops, n), spec, session, owner, n == |ops|) && IsStable(After(k, ops, n), spec, owner)
            && Kept(k, After(k, ops, n), spec) && RunsWith(k, After(k, ops, n), spec, owner, |ops| - n)
  {
    TailStop(k, spec, owner, session, files, course, n);
    StableSame(k, After(k, Tail(spec, owner, session, files, course), n), spec, owner);
  }

  lemma FreshLong(spec: Spec, session: string, owner: string, course: Course)
    ensures |FreshOps(spec, session, owner, course)| >= BeforeStart(spec) + 2
  {
    TailLong(spec, owner, session, FilesFor(spec, course.laid), course);
  }

  // ----- Where a whole attempt stops -----

  lemma MarkedAll(k: Disk, spec: Spec, owner: string)
    ensures Marked(k, spec, owner) <==> AllMarked(k, Roles(spec), owner)
  {
    RolesElements(spec);
  }

  lemma RolesElements(spec: Spec)
    ensures forall s :: s in Roles(spec) <==> s in RoleSet(spec)
  {
    BundleElements(spec);
    assert forall s :: s in Roles(spec) <==> s in Elements(Roles(spec));
  }

  /** After all scripts, the installation is stable, with the files laid down. */
  lemma ScriptsStable(k: Disk, spec: Spec, owner: string, course: Course)
    requires forall s :: s in RoleSet(spec) ==> s !in k.roots
    ensures var next := Exec(k, Scripts(Roles(spec), owner, course));
            IsStable(next, spec, owner) && FilesOf(next, spec) == FilesFor(spec, course.laid)
            && next.pending == k.pending && next.running == k.running
  {
    BundleElements(spec);
    RolesElements(spec);
    ScriptsDone(k, Roles(spec), owner, course);
    var next := Exec(k, Scripts(Roles(spec), owner, course));
    UnitsOfRoles(spec, next);
    assert forall s :: s in RoleSet(spec) ==> s in Roles(spec) && s in next.roots;
  }

  lemma UnitsOfRoles(spec: Spec, k: Disk)
    requires forall s :: s in Roles(spec) ==> UnitsFor(s) <= k.units
    ensures UnitSet(spec) <= k.units
  {
    RolesElements(spec);
    assert HostScope in Roles(spec) && (spec.network ==> NetworkScope in Roles(spec));
  }

  lemma MadeLastCons(op: Op, ops: seq<Op>, n: nat)
    requires 0 < n <= 1 + |ops| && !op.MakeRoot?
    ensures MadeLast([op] + ops, n) == MadeLast(ops, n - 1)
  {
  }

  lemma TailMakesNone(spec: Spec, owner: string, session: string, files: map<Scope, Files>, course: Course, n: nat)
    requires n <= |Tail(spec, owner, session, files, course)|
    ensures !MadeLast(Tail(spec, owner, session, files, course), n)
  {
  }

  /** A fresh attempt, stopped after n operations. */
  ghost predicate FreshStopped(k: Disk, next: Disk, spec: Spec, session: string, owner: string, madeLast: bool, n: nat, total: nat) {
    && (n > 0 ==> Stopped(next, spec, session, owner, n == total))
    && (Marked(next, spec, owner) <==> !madeLast)
    && n <= total && RunsWith(k, next, spec, owner, total - n)
  }

  lemma FreshStop(k: Disk, spec: Spec, session: string, owner: string, course: Course, n: nat)
    requires (forall s :: s in RoleSet(spec) ==> s !in k.roots) && n <= |FreshOps(spec, session, owner, course)|
    ensures var ops := FreshOps(spec, session, owner, course);
            FreshStopped(k, After(k, ops, n), spec, session, owner, MadeLast(ops, n), n, |ops|)
  {
    if n == 0 {
      FreshNone(k, spec, session, owner, course);
    } else {
      var scripts, tail := Scripts(Roles(spec), owner, course), Tail(spec, owner, session, FilesFor(spec, course.laid), course);
      FreshPrepared(k, Prepared(k, spec, owner, session), spec, session, owner, course, scripts, tail, n - 1);
      FreshLate(k, spec, session, owner, scripts + tail, n);
    }
  }

  lemma FreshLate(k: Disk, spec: Spec, session: string, owner: string, rest: seq<Op>, n: nat)
    requires 0 < n <= 1 + |rest|
    requires FreshStopped(k, After(Prepared(k, spec, owner, session), rest, n - 1), spec, session, owner, MadeLast(rest, n - 1), n, 1 + |rest|)
    ensures var ops := [Preparation(spec, owner, session)] + rest;
            FreshStopped(k, After(k, ops, n), spec, session, owner, MadeLast(ops, n), n, |ops|)
  {
    AfterCons(k, Preparation(spec, owner, session), rest, n);
    MadeLastCons(Preparation(spec, owner, session), rest, n);
  }

  lemma FreshNone(k: Disk, spec: Spec, session: string, owner: string, course: Course)
    requires forall s :: s in RoleSet(spec) ==> s !in k.roots
    ensures var ops := FreshOps(spec, session, owner, course);
            After(k, ops, 0) == k && Marked(k, spec, owner) && !MadeLast(ops, 0) && RunsWith(k, k, spec, owner, |ops|)
  {
    TailLong(spec, owner, session, FilesFor(spec, course.laid), course);
    assert FreshOps(spec, session, owner, course)[..0] == [];
    AfterNone(k, []);
    NotStarted(k, k, spec, owner, |FreshOps(spec, session, owner, course)|);
  }

  lemma FreshPrepared(k: Disk, start: Disk, spec: Spec, session: string, owner: string, course: Course, scripts: seq<Op>, tail: seq<Op>, n: nat)
    requires forall s :: s in RoleSet(spec) ==> s !in k.roots
    requires start == k.(pending := Some(Receipt(Preparing, owner, spec, session, map[])))
    requires scripts == Scripts(Roles(spec), owner, course) && tail == Tail(spec, owner, session, FilesFor(spec, course.laid), course)
    requires 0 < |scripts| && n <= |scripts| + |tail|
    ensures FreshStopped(k, After(start, scripts + tail, n), spec, session, owner, MadeLast(scripts + tail, n), n + 1, 1 + |scripts| + |tail|)
  {
    AfterAppend(start, scripts, tail, n);
    MadeLastAppend(scripts, tail, n);
    if n <= |scripts| {
      FreshEarly(k, start, spec, session, owner, course, scripts, tail, n);
    } else {
      ScriptsStable(start, spec, owner, course);
      FreshInTail(k, Exec(start, scripts), spec, session, owner, course, tail, n - |scripts|);
    }
  }

  lemma FreshEarly(k: Disk, start: Disk, spec: Spec, session: string, owner: string, course: Course, scripts: seq<Op>, tail: seq<Op>, n: nat)
    requires forall s :: s in RoleSet(spec) ==> s !in k.roots
    requires start == k.(pending := Some(Receipt(Preparing, owner, spec, session, map[])))
    requires scripts == Scripts(Roles(spec), owner, course) && tail == Tail(spec, owner, session, FilesFor(spec, course.laid), course)
    requires n <= |scripts|
    ensures FreshStopped(k, After(start, scripts, n), spec, session, owner, MadeLast(scripts, n), n + 1, 1 + |scripts| + |tail|)
  {
    TailLong(spec, owner, session, FilesFor(spec, course.laid), course);
    FreshInScripts(start, spec, session, owner, course, n);
    NotStarted(k, After(start, scripts, n), spec, owner, |scripts| + |tail| - n);
  }

  lemma FreshInTail(k: Disk, laid: Disk, spec: Spec, session: string, owner: string, course: Course, tail: seq<Op>, n: nat)
    requires IsStable(laid, spec, owner) && FilesOf(laid, spec) == FilesFor(spec, course.laid) && laid.running == k.running
    requires laid.pending == Some(Receipt(Preparing, owner, spec, session, map[]))
    requires tail == Tail(spec, owner, session, FilesFor(spec, course.laid), course) && n <= |tail|
    ensures var next := After(laid, tail, n);
            && Stopped(next, spec, session, owner, n == |tail|) && Marked(next, spec, owner) && !MadeLast(tail, n)
            && RunsWith(k, next, spec, owner, |tail| - n)
  {
    TailStopped(laid, spec, owner, session, FilesFor(spec, course.laid), course, n);
    TailMakesNone(spec, owner, session, FilesFor(spec, course.laid), course, n);
  }

  lemma FreshInScripts(k: Disk, spec: Spec, session: string, owner: string, course: Course, n: nat)
    requires (forall s :: s in RoleSet(spec) ==> s !in k.roots) && n <= |Scripts(Roles(spec), owner, course)|
    requires k.pending == Some(Receipt(Preparing, owner, spec, session, map[]))
    ensures var ops := Scripts(Roles(spec), owner, course);
            var next := After(k, ops, n);
            Stopped(next, spec, session, owner, false) && (Marked(next, spec, owner) <==> !MadeLast(ops, n))
            && next.running == k.running
  {
    BundleElements(spec);
    RolesElements(spec);
    ScriptsStop(k, Roles(spec), owner, course, n);
    MarkedAll(After(k, Scripts(Roles(spec), owner, course), n), spec, owner);
  }

  /** The roots of the bundle stay in place with all their data. */
  predicate Kept(k: Disk, next: Disk, spec: Spec) {
    forall s :: s in RoleSet(spec) && s in k.roots ==> s in next.roots && k.roots[s].data <= next.roots[s].data
  }

  /** The configurations rewritten by the first n operations are the ones that were there. */
  predicate Unchanged(k: Disk, spec: Spec, course: Course, n: nat) {
    forall s :: s in RoleSet(spec) && s in k.roots && s in Roles(spec)[..if n <= |Roles(spec)| then n else |Roles(spec)|] ==>
                  course.configured.Of(s) == k.roots[s].files
  }

  lemma ConfiguredStop(k: Disk, spec: Spec, owner: string, course: Course, n: nat)
    requires IsStable(k, spec, owner) && n <= |Roles(spec)|
    ensures var next := After(k, Rewrites(Roles(spec), course.configured), n);
            && InPlace(k, next) && IsStable(next, spec, owner)
            && (FilesOf(next, spec) == FilesOf(k, spec) <==> Unchanged(k, spec, course, n))
  {
    var next := After(k, Rewrites(Roles(spec), course.configured), n);
    RewritesStop(k, Roles(spec), course.configured, n);
    forall s | s in RoleSet(spec)
      ensures s in k.roots && s in next.roots && FilesOf(k, spec)[s] == k.roots[s].files && FilesOf(next, spec)[s] == next.roots[s].files
    {
    }
    if FilesOf(next, spec) == FilesOf(k, spec) {
      forall s | s in RoleSet(spec) && s in Roles(spec)[..n] ensures course.configured.Of(s) == k.roots[s].files {
        assert FilesOf(next, spec)[s] == FilesOf(k, spec)[s];
      }
    }
  }

  /** An attempt over intact roots, stopped after n operations: until its record is written the old one holds
      exactly when no file has changed, and from then on its own always does. */
  ghost predicate IntactStopped(k: Disk, next: Disk, spec: Spec, session: string, owner: string, course: Course, n: nat, total: nat) {
    && Kept(k, next, spec) && IsStable(next, spec, owner) && n <= total && RunsWith(k, next, spec, owner, total - n)
    && (n <= |Roles(spec)| ==> next.pending == k.pending && (Consistent(next, spec) <==> Unchanged(k, spec, course, n)))
    && (n > |Roles(spec)| ==> Stopped(next, spec, session, owner, n == total))
  }

  lemma IntactStop(k: Disk, spec: Spec, session: string, owner: string, course: Course, n: nat)
    requires Consistent(k, spec) && k.pending.value.owner == owner && k.pending.value.files != map[]
    requires n <= |IntactOps(spec, session, owner, course)|
    ensures var ops := IntactOps(spec, session, owner, course);
            IntactStopped(k, After(k, ops, n), spec, session, owner, course, n, |ops|)
  {
    var configs, rest := Rewrites(Roles(spec), course.configured), IntactTail(spec, session, owner, course);
    if n <= |configs| {
      IntactTailLong(spec, session, owner, course);
      IntactBegins(k, spec, session, owner, course, configs, [Preparation(spec, owner, session)] + rest, n);
    } else {
      IntactRest(k, spec, session, owner, course, configs, n - |configs| - 1);
      IntactLate(k, spec, session, owner, course, configs, Preparation(spec, owner, session), rest, n);
    }
  }

  /** What an attempt over intact roots does after its record. */
  function IntactTail(spec: Spec, session: string, owner: string, course: Course): seq<Op> {
    Rewrites(Roles(spec), course.keyed) + Tail(spec, owner, session, FilesFor(spec, course.keyed), course)
  }

  lemma IntactTailLong(spec: Spec, session: string, owner: string, course: Course)
    ensures |IntactTail(spec, session, owner, course)| >= BeforeStart(spec)
  {
    TailLong(spec, owner, session, FilesFor(spec, course.keyed), course);
  }

  lemma IntactBegins(k: Disk, spec: Spec, session: string, owner: string, course: Course, configs: seq<Op>, rest: seq<Op>, n: nat)
    requires Consistent(k, spec) && k.pending.value.owner == owner && k.pending.value.files != map[]
    requires configs == Rewrites(Roles(spec), course.configured) && 0 < |configs| && n <= |configs| && |rest| >= BeforeStart(spec)
    ensures IntactStopped(k, After(k, configs + rest, n), spec, session, owner, course, n, |configs| + |rest|)
  {
    AfterAppend(k, configs, rest, n);
    ConfiguredStop(k, spec, owner, course, n);
    IntactEarly(k, After(k, configs, n), spec, session, owner, course, n, |configs| + |rest|);
  }

  lemma IntactLate(k: Disk, spec: Spec, session: string, owner: string, course: Course, configs: seq<Op>, prep: Op, rest: seq<Op>, n: nat)
    requires 0 < |Roles(spec)| == |configs| < n <= |configs| + 1 + |rest|
    requires IntactGone(k, After(Perform(Exec(k, configs), prep), rest, n - |configs| - 1), spec, session, owner, |configs| + 1 + |rest| - n)
    ensures IntactStopped(k, After(k, configs + ([prep] + rest), n), spec, session, owner, course, n, |configs| + 1 + |rest|)
  {
    AfterAppend(k, configs, [prep] + rest, n);
    AfterCons(Exec(k, configs), prep, rest, n - |configs|);
  }

  lemma IntactEarly(k: Disk, next: Disk, spec: Spec, session: string, owner: string, course: Course, n: nat, total: nat)
    requires Consistent(k, spec) && k.pending.value.owner == owner && k.pending.value.files != map[] && n <= |Roles(spec)|
    requires InPlace(k, next) && IsStable(next, spec, owner)
    requires FilesOf(next, spec) == FilesOf(k, spec) <==> Unchanged(k, spec, course, n)
    requires total >= n + BeforeStart(spec)
    ensures IntactStopped(k, next, spec, session, owner, course, n, total)
  {
    NotStarted(k, next, spec, owner, total - n);
  }

  lemma ConfiguredDone(k: Disk, spec: Spec, owner: string, course: Course)
    requires IsStable(k, spec, owner)
    ensures var next := Exec(k, Rewrites(Roles(spec), course.configured)); InPlace(k, next) && IsStable(next, spec, owner)
  {
    ConfiguredStop(k, spec, owner, course, |Roles(spec)|);
    AfterAll(k, Rewrites(Roles(spec), course.configured), |Roles(spec)|);
  }

  lemma IntactRest(k: Disk, spec: Spec, session: string, owner: string, course: Course, configs: seq<Op>, n: nat)
    requires IsStable(k, spec, owner) && configs == Rewrites(Roles(spec), course.configured)
    requires n <= |IntactTail(spec, session, owner, course)|
    ensures var rest := IntactTail(spec, session, owner, course);
            IntactGone(k, After(Prepared(Exec(k, configs), spec, owner, session), rest, n), spec, session, owner, |rest| - n)
  {
    ConfiguredDone(k, spec, owner, course);
    var start, rest := Prepared(Exec(k, configs), spec, owner, session), IntactTail(spec, session, owner, course);
    var keys, tail := Rewrites(Roles(spec), course.keyed), Tail(spec, owner, session, FilesFor(spec, course.keyed), course);
    PreparedStop(start, spec, session, owner, course, keys, tail, n);
    IntactAfter(k, start, After(start, rest, n), spec, session, owner, |rest| - n);
  }

  /** After the first record of an attempt. */
  function Prepared(k: Disk, spec: Spec, owner: string, session: string): (next: Disk)
    ensures next == k.(pending := Some(Receipt(Preparing, owner, spec, session, map[])))
  {
    Perform(k, Preparation(spec, owner, session))
  }

  /** From its record on, with so many operations remaining. */
  ghost predicate IntactGone(k: Disk, next: Disk, spec: Spec, session: string, owner: string, remaining: nat) {
    && Kept(k, next, spec) && IsStable(next, spec, owner) && Stopped(next, spec, session, owner, remaining == 0)
    && RunsWith(k, next, spec, owner, remaining)
  }

  lemma IntactAfter(k: Disk, start: Disk, next: Disk, spec: Spec, session: string, owner: string, remaining: nat)
    requires InPlace(k, start.(pending := k.pending)) && IntactGone(start, next, spec, session, owner, remaining)
    ensures IntactGone(k, next, spec, session, owner, remaining)
  {
    KeptThen(k, start, next, spec);
  }

  lemma KeptThen(a: Disk, b: Disk, c: Disk, spec: Spec)
    requires Kept(a, b, spec) && Kept(b, c, spec)
    ensures Kept(a, c, spec)
  {
  }

  /** From its record on, an attempt over intact roots keeps them stable. */
  lemma PreparedStop(k: Disk, spec: Spec, session: string, owner: string, course: Course, keys: seq<Op>, tail: seq<Op>, n: nat)
    requires IsStable(k, spec, owner) && k.pending == Some(Receipt(Preparing, owner, spec, session, map[]))
    requires keys == Rewrites(Roles(spec), course.keyed) && tail == Tail(spec, owner, session, FilesFor(spec, course.keyed), course)
    requires |keys| > 0 && n <= |keys| + |tail|
    ensures IntactGone(k, After(k, keys + tail, n), spec, session, owner, |keys| + |tail| - n)
  {
    AfterAppend(k, keys, tail, n);
    if n <= |keys| {
      RewritesStop(k, Roles(spec), course.keyed, n);
      TailLong(spec, owner, session, FilesFor(spec, course.keyed), course);
      RewritingStopped(k, After(k, keys, n), spec, session, owner, |keys| + |tail| - n);
    } else {
      KeyedThen(k, spec, session, owner, course, keys, tail, n - |keys|);
    }
  }

  lemma KeyedThen(k: Disk, spec: Spec, session: string, owner: string, course: Course, keys: seq<Op>, tail: seq<Op>, n: nat)
    requires IsStable(k, spec, owner) && k.pending == Some(Receipt(Preparing, owner, spec, session, map[]))
    requires keys == Rewrites(Roles(spec), course.keyed) && tail == Tail(spec, owner, session, FilesFor(spec, course.keyed), course)
    requires n <= |tail|
    ensures IntactGone(k, After(Exec(k, keys), tail, n), spec, session, owner, |tail| - n)
  {
    KeyedStable(k, spec, owner, course);
    TailStopped(Exec(k, keys), spec, owner, session, FilesFor(spec, course.keyed), course, n);
    IntactAfter(k, Exec(k, keys), After(Exec(k, keys), tail, n), spec, session, owner, |tail| - n);
  }

  lemma RewritingStopped(k: Disk, next: Disk, spec: Spec, session: string, owner: string, remaining: nat)
    requires IsStable(k, spec, owner) && k.pending == Some(Receipt(Preparing, owner, spec, session, map[])) && InPlace(k, next)
    requires remaining >= BeforeStart(spec)
    ensures IntactGone(k, next, spec, session, owner, remaining)
  {
    NotStarted(k, next, spec, owner, remaining);
  }

  lemma KeyedStable(k: Disk, spec: Spec, owner: string, course: Course)
    requires IsStable(k, spec, owner)
    ensures var next := Exec(k, Rewrites(Roles(spec), course.keyed));
            InPlace(k, next) && IsStable(next, spec, owner) && FilesOf(next, spec) == FilesFor(spec, course.keyed)
  {
    var roles := Roles(spec);
    RewritesStop(k, roles, course.keyed, |roles|);
    AfterAll(k, Rewrites(roles, course.keyed), |roles|);
    assert roles[..|roles|] == roles;
    RolesElements(spec);
  }

  /** An attempt over partial roots, stopped after n operations, of which the first `turn` set them aside. */
  ghost predicate PartialStopped(k: Disk, next: Disk, spec: Spec, session: string, newOwner: string, madeLast: bool, n: nat, turn: nat, total: nat)
    requires k.pending.Some?
  {
    && n <= total && RunsWith(k, next, spec, newOwner, total - n)
    && (n <= turn ==> next.pending == k.pending && Consistent(next, spec) && Marked(next, spec, k.pending.value.owner))
    && (n >= turn ==> (Marked(next, spec, newOwner) <==> !madeLast))
    && (n > turn ==> Stopped(next, spec, session, newOwner, n == total))
  }

  lemma PartialStop(k: Disk, spec: Spec, session: string, newOwner: string, course: Course, aside: seq<Op>, anew: seq<Op>, n: nat)
    requires Consistent(k, spec) && k.pending.value.files == map[]
    requires aside == AsideOps(spec, k.names) && anew == FreshOps(spec, session, newOwner, course) && n <= |aside| + |anew|
    ensures PartialStopped(k, After(k, aside + anew, n), spec, session, newOwner, MadeLast(aside + anew, n), n, |aside|, |aside| + |anew|)
  {
    AllGone(k, spec);
    if n <= |aside| {
      AsideMakesNone(spec, k.names);
      StillConsistent(k, spec, n);
      FreshLong(spec, session, newOwner, course);
      PartialBegins(k, spec, session, newOwner, aside, anew, n);
    } else {
      PartialAnew(k, Exec(k, aside), spec, session, newOwner, course, aside, anew, n);
    }
  }

  lemma PartialAnew(k: Disk, mid: Disk, spec: Spec, session: string, newOwner: string, course: Course, aside: seq<Op>, anew: seq<Op>, n: nat)
    requires k.pending.Some? && mid == Exec(k, aside) && mid.running == k.running && forall s :: s in RoleSet(spec) ==> s !in mid.roots
    requires anew == FreshOps(spec, session, newOwner, course) && 0 < |aside| < n <= |aside| + |anew|
    ensures PartialStopped(k, After(k, aside + anew, n), spec, session, newOwner, MadeLast(aside + anew, n), n, |aside|, |aside| + |anew|)
  {
    FreshStop(mid, spec, session, newOwner, course, n - |aside|);
    PartialGoesOn(k, spec, session, newOwner, aside, anew, n);
  }

  lemma PartialBegins(k: Disk, spec: Spec, session: string, newOwner: string, aside: seq<Op>, anew: seq<Op>, n: nat)
    requires 0 < |aside| && n <= |aside| && k.pending.Some? && |anew| >= BeforeStart(spec) && forall i :: 0 <= i < |aside| ==> !aside[i].MakeRoot?
    requires var next := After(k, aside, n);
             && next.pending == k.pending && Consistent(next, spec) && Marked(next, spec, k.pending.value.owner) && next.running == k.running
    requires forall s :: s in RoleSet(spec) ==> s !in Exec(k, aside).roots
    ensures PartialStopped(k, After(k, aside + anew, n), spec, session, newOwner, MadeLast(aside + anew, n), n, |aside|, |aside| + |anew|)
  {
    AfterAppend(k, aside, anew, n);
    NotStarted(k, After(k, aside, n), spec, newOwner, |aside| + |anew| - n);
    if n == |aside| { AfterAll(k, aside, n); }
  }

  lemma PartialGoesOn(k: Disk, spec: Spec, session: string, newOwner: string, aside: seq<Op>, anew: seq<Op>, n: nat)
    requires 0 < |aside| < n <= |aside| + |anew| && k.pending.Some? && Exec(k, aside).running == k.running
    requires FreshStopped(Exec(k, aside), After(Exec(k, aside), anew, n - |aside|), spec, session, newOwner,
                          MadeLast(anew, n - |aside|), n - |aside|, |anew|)
    ensures PartialStopped(k, After(k, aside + anew, n), spec, session, newOwner, MadeLast(aside + anew, n), n, |aside|, |aside| + |anew|)
  {
    AfterAppend(k, aside, anew, n);
    MadeLastAppend(aside, anew, n);
  }

  lemma StillConsistent(k: Disk, spec: Spec, n: nat)
    requires Consistent(k, spec) && k.pending.value.files == map[] && n <= |AsideOps(spec, k.names)|
    ensures var next := After(k, AsideOps(spec, k.names), n);
            next.pending == k.pending && Consistent(next, spec) && Marked(next, spec, k.pending.value.owner) && next.running == k.running
  {
    var gone, moved := AsideStop(k, spec, n);
  }

  lemma AllGone(k: Disk, spec: Spec)
    ensures forall s :: s in RoleSet(spec) ==> s !in Exec(k, AsideOps(spec, k.names)).roots
    ensures Exec(k, AsideOps(spec, k.names)).running == k.running
  {
    AsideDone(k, spec);
  }

  lemma AsideMakesNone(spec: Spec, id: nat)
    ensures forall i :: 0 <= i < |AsideOps(spec, id)| ==> !AsideOps(spec, id)[i].MakeRoot?
  {
    var sets, moves := SetAsides(Roles(spec), id), MoveUnits(Units(spec), id);
    assert forall i :: 0 <= i < |AsideOps(spec, id)| ==>
                         AsideOps(spec, id)[i] == if i == 0 then MakeBackup else if i <= |sets| then sets[i - 1] else moves[i - 1 - |sets|];
  }

  // ----- Exceptions -----

  /** What stopping these units makes of a disk. */
  function Halted(k: Disk, units: seq<Unit>): Disk {
    k.(running := k.running - Elements(units))
  }

  /** What the record of a failure makes of a disk. */
  ghost function Recorded(k: Disk, spec: Spec, owner: string, session: string): Disk {
    Halted(k, MarkedUnits(k, spec, owner)).(pending := Some(FailureRecord(k, spec, owner, session)))
  }

  lemma RecordedConsistent(k: Disk, spec: Spec, owner: string, session: string)
    ensures var next := Recorded(k, spec, owner, session);
            && (Consistent(next, spec) <==> Marked(next, spec, owner)) && (Marked(next, spec, owner) <==> Marked(k, spec, owner))
            && next.pending.Some? && next.pending.value.owner == owner && next.pending.value.phase == Failing
  {
    var next := Recorded(k, spec, owner, session);
    StableSame(k, next, spec, owner);
    if IsStable(k, spec, owner) {
      assert HostScope in FilesOf(k, spec);
    }
  }

  /** The record of a failure leaves nothing running: units were started only over marked roots. */
  lemma RecordedIdle(k: Disk, mid: Disk, spec: Spec, owner: string, session: string, remaining: nat)
    requires Idle(k, spec) && RunsWith(k, mid, spec, owner, remaining)
    ensures Idle(Recorded(mid, spec, owner, session), spec)
  {
    StartedSome(spec, remaining);
    if remaining < BeforeStart(spec) {
      var units := MarkedUnits(mid, spec, owner);
      assert units[0] == Service(HostScope) && units[1] == DiscoveryTimer && units[2] == DiscoveryService;
      assert spec.network ==> units[3] == Service(NetworkScope);
    }
  }

  /** How an attempt stopped: n of its operations were performed, then, if an exception ended it, some of the
      marked units were stopped, and perhaps the failure was recorded. */
  datatype End = End(n: nat, stops: nat, recorded: bool)

  ghost predicate EndsWith(k: Disk, next: Disk, spec: Spec, session: string, a: Attempt, end: End)
    requires end.n <= |a.ops|
  {
    var mid, owner := After(k, a.ops, end.n), a.OwnerAt(end.n);
    var units := MarkedUnits(mid, spec, owner);
    && end.stops <= |units|
    && next == if end.recorded then Recorded(mid, spec, owner, session) else Halted(mid, units[..end.stops])
  }

  lemma HaltedNone(k: Disk, units: seq<Unit>)
    ensures Halted(k, units[..0]) == k
  {
    assert Elements(units[..0]) == {} && k.running - {} == k.running;
  }

  /** The handling of a failure, stopped after m operations. */
  lemma FailureStop(k: Disk, spec: Spec, owner: string, session: string, m: nat)
    ensures var ops, units := FailureOps(k, spec, owner, session), MarkedUnits(k, spec, owner);
            |ops| == |units| + 1 &&
            After(k, ops, m) == if m < |ops| then Halted(k, units[..m]) else Recorded(k, spec, owner, session)
  {
    var units, r := MarkedUnits(k, spec, owner), WritePending(FailureRecord(k, spec, owner, session));
    AfterAppend(k, StopOps(units), [r], m);
    StopsStop(k, units, if m < |units| then m else |units|);
    assert units[..|units|] == units;
    if m >= |units| {
      AfterAll(k, StopOps(units), |units|);
      AfterNone(Exec(k, StopOps(units)), [r]);
      ExecOne(Exec(k, StopOps(units)), r);
      if m > |units| { AfterAll(Exec(k, StopOps(units)), [r], m - |units|); }
    }
  }

  /** However an attempt stops. */
  lemma TriedStop(k: Disk, spec: Spec, session: string, a: Attempt, raises: Option<nat>, fuse: nat) returns (end: End)
    ensures var p := Tried(k, spec, session, a, raises);
            var outcome := OutcomeOf(p, fuse);
            && end.n <= |a.ops| && EndsWith(k, Reached(k, p, fuse), spec, session, a, end)
            && outcome in {Ok, Failed, Killed}
            && (outcome == Ok <==> end.n == |a.ops|)
            && (outcome == Failed ==> end.recorded || Probe(session) in a.ops[..end.n])
            && (outcome == Failed ==> (end.recorded <==> Probe(session) !in p.ops))
            && (outcome == Killed ==> !end.recorded && end.n == if raises.Some? && raises.value < fuse then raises.value else fuse)
            && (raises.None? || outcome == Ok || (outcome == Failed && !end.recorded) ==> end.stops == 0)
            && (raises.None? || outcome == Ok ==> !end.recorded)
            && (end.recorded ==> end.n < |a.ops| && Probe(session) !in a.ops[..end.n])
  {
    var p := Tried(k, spec, session, a, raises);
    if raises.None? || raises.value >= |a.ops| {
      end := End(if |a.ops| <= fuse then |a.ops| else fuse, 0, false);
      assert a.ops[..|a.ops|] == a.ops;
      HaltedNone(After(k, a.ops, end.n), MarkedUnits(After(k, a.ops, end.n), spec, a.OwnerAt(end.n)));
    } else {
      end := RaisedStop(k, spec, session, a, raises.value, fuse);
    }
  }

  lemma RaisedStop(k: Disk, spec: Spec, session: string, a: Attempt, raise: nat, fuse: nat) returns (end: End)
    requires raise < |a.ops|
    ensures var p := Tried(k, spec, session, a, Some(raise));
            end.n < |a.ops| && EndsWith(k, Reached(k, p, fuse), spec, session, a, end)
            && RaisedEnd(OutcomeOf(p, fuse), p.ops, session, a, raise, fuse, end)
  {
    var done := a.ops[..raise];
    if Probe(session) in done {
      end := CutShort(k, spec, session, a, raise, fuse);
      if fuse < raise { AfterSame(k, done, a.ops, fuse); } else { AfterAll(k, done, fuse); }
      AfterSame(k, done, a.ops, raise);
    } else {
      var fail := FailureOps(Exec(k, done), spec, a.OwnerAt(raise), session);
      end := RaisedEarly(k, spec, session, a, raise, fuse, done, fail);
    }
  }

  ghost predicate RaisedEnd(outcome: Outcome, ops: seq<Op>, session: string, a: Attempt, raise: nat, fuse: nat, end: End)
    requires end.n <= |a.ops|
  {
    && outcome in {Failed, Killed}
    && (outcome == Failed ==> (end.recorded <==> Probe(session) !in ops))
    && (outcome == Failed && !end.recorded ==> Probe(session) in a.ops[..end.n] && end.stops == 0)
    && (outcome == Killed ==> !end.recorded && end.n == if raise < fuse then raise else fuse)
    && (end.recorded ==> Probe(session) !in a.ops[..end.n])
  }

  /** The exception came before the probe. */
  lemma RaisedEarly(k: Disk, spec: Spec, session: string, a: Attempt, raise: nat, fuse: nat, done: seq<Op>, fail: seq<Op>) returns (end: End)
    requires raise < |a.ops| && done == a.ops[..raise] && Probe(session) !in done
    requires fail == FailureOps(Exec(k, done), spec, a.OwnerAt(raise), session)
    ensures end.n < |a.ops| && EndsWith(k, After(k, done + fail, fuse), spec, session, a, end)
    ensures RaisedEnd(if |done + fail| <= fuse then Failed else Killed, done + fail, session, a, raise, fuse, end)
  {
    AfterAppend(k, done, fail, fuse);
    AfterSame(k, done, a.ops, raise);
    if fuse < raise {
      end := CutShort(k, spec, session, a, raise, fuse);
      AfterSame(k, done, a.ops, fuse);
    } else {
      end := Handled(k, Exec(k, done), spec, session, a, raise, fuse - raise);
      StopsOnly(Exec(k, done), spec, a.OwnerAt(raise), session);
    }
  }

  lemma StopsOnly(k: Disk, spec: Spec, owner: string, session: string)
    ensures Probe(session) !in FailureOps(k, spec, owner, session)
  {
  }

  /** Stopped before the exception, or right at it when the probe was made. */
  lemma CutShort(k: Disk, spec: Spec, session: string, a: Attempt, raise: nat, fuse: nat) returns (end: End)
    requires raise < |a.ops|
    ensures end == End(if fuse < raise then fuse else raise, 0, false)
    ensures EndsWith(k, After(k, a.ops, end.n), spec, session, a, end)
  {
    end := End(if fuse < raise then fuse else raise, 0, false);
    HaltedNone(After(k, a.ops, end.n), MarkedUnits(After(k, a.ops, end.n), spec, a.OwnerAt(end.n)));
  }

  /** Stopped m operations after the exception. */
  lemma Handled(k: Disk, mid: Disk, spec: Spec, session: string, a: Attempt, raise: nat, m: nat) returns (end: End)
    requires raise < |a.ops| && mid == After(k, a.ops, raise)
    ensures var ops := FailureOps(mid, spec, a.OwnerAt(raise), session);
            && end == End(raise, if m < |ops| then m else 0, m >= |ops|)
            && EndsWith(k, After(mid, ops, m), spec, session, a, end)
  {
    var ops := FailureOps(mid, spec, a.OwnerAt(raise), session);
    end := End(raise, if m < |ops| then m else 0, m >= |ops|);
    FailureStop(mid, spec, a.OwnerAt(raise), session, m);
  }
}
