/** Installations and re-enrollments that stop: killed between any two operations, or ended by an exception
    anywhere (deploy/agents/enrollment-linux.py, `execute`).

    A stopped attempt can be re-enrolled exactly when every root that exists bears the owner's mark and no unit of
    the bundle is active, except that one over intact roots also needs their files unchanged until its own record
    is written. */
module Recovery {
  import opened Wrappers
  import opened CollectorDisk
  import opened Enrollment
  import opened Attempts

  // ----- Main results -----

  /** A fresh installation is refused exactly when some archive may not be retired, or something is in place. */
  lemma InstallRefused(k: Disk, spec: Spec, session: string, owner: string, order: seq<nat>, course: Course)
    ensures InstallPlan(k, spec, session, owner, order, course).outcome == Refused <==>
            Blocked(k, spec) || exists i :: 0 <= i < |Listing(k, order)| && !AcceptedAt(k, Listing(k, order), i)
  {
    var listing := Listing(k, order);
    RetireShape(k, listing);
    RetireExact(k, listing);
    RetiredWhole(k, listing);
  }

  lemma RetiredWhole(k: Disk, listing: seq<nat>)
    ensures OnlyReceiptsArchived(k, Exec(k, RetirePlan(k, listing).ops))
    ensures forall spec :: Blocked(Exec(k, RetirePlan(k, listing).ops), spec) == Blocked(k, spec)
  {
    RetireStop(k, listing, |RetirePlan(k, listing).ops|);
  }

  /** What is left of an attempt that did not end well: its record can be re-enrolled exactly when every root that
      exists bears the mark and no unit is active, and the record of a failure leaves no unit active. */
  ghost predicate Leaves(k: Disk, next: Disk, spec: Spec, owner: string) {
    && next.pending.Some? && next.pending.value.owner == owner
    && (Repeatable(next, spec) <==> Marked(next, spec, owner) && Idle(next, spec))
    && (next.pending.value.phase == Failing && Idle(k, spec) ==> Idle(next, spec))
  }

  ghost predicate Active(next: Disk, spec: Spec, session: string) {
    Installed(next, spec, session) && Elements(StartUnits(spec)) <= next.running
  }

  /** An attempt stopped after its own record was written. */
  lemma EndLeaves(k: Disk, next: Disk, spec: Spec, session: string, a: Attempt, end: End)
    requires end.n <= |a.ops| && EndsWith(k, next, spec, session, a, end)
    requires RunsWith(k, After(k, a.ops, end.n), spec, a.OwnerAt(end.n), |a.ops| - end.n)
    requires end.recorded || Stopped(After(k, a.ops, end.n), spec, session, a.OwnerAt(end.n), end.n == |a.ops|)
    ensures if end.n == |a.ops| && end.stops == 0 && !end.recorded then Active(next, spec, session)
            else end.n == |a.ops| || Leaves(k, next, spec, a.OwnerAt(end.n))
  {
    var mid, owner := After(k, a.ops, end.n), a.OwnerAt(end.n);
    if end.recorded {
      RecordedConsistent(mid, spec, owner, session);
      if Idle(k, spec) { RecordedIdle(k, mid, spec, owner, session, |a.ops| - end.n); }
    } else {
      StableSame(mid, next, spec, owner);
      StartedSome(spec, |a.ops| - end.n);
      if end.stops == 0 { HaltedNone(mid, MarkedUnits(mid, spec, owner)); }
    }
  }

  /** What is left of a fresh installation, wherever it stops. */
  ghost predicate InstallLeft(k: Disk, next: Disk, spec: Spec, session: string, owner: string, end: Outcome) {
    && (end == Ok ==> Active(next, spec, session))
    && (next.pending.Some? ==> Leaves(k, next, spec, owner))
  }

  /** Killed between any two operations, or ended by an exception anywhere. */
  lemma InstallStopped(k: Disk, spec: Spec, session: string, owner: string, order: seq<nat>, course: Course, fuse: nat)
    requires k.pending.None?
    ensures var p := InstallPlan(k, spec, session, owner, order, course);
            InstallLeft(k, Reached(k, p, fuse), spec, session, owner, OutcomeOf(p, fuse))
  {
    var retired := RetirePlan(k, Listing(k, order));
    RetireShape(k, Listing(k, order));
    RetireStop(k, Listing(k, order), fuse);
    if retired.outcome == Ok {
      RetiredWhole(k, Listing(k, order));
      RetiredThen(k, retired, FreshPlan(Exec(k, retired.ops), spec, session, owner, course), spec, session, owner, course, fuse);
    }
  }

  lemma RetiredThen(k: Disk, retired: Plan, rest: Plan, spec: Spec, session: string, owner: string, course: Course, fuse: nat)
    requires retired.outcome == Ok && Reached(k, retired, fuse).pending.None? && Exec(k, retired.ops).pending.None?
    requires Exec(k, retired.ops).running == k.running
    requires rest == FreshPlan(Exec(k, retired.ops), spec, session, owner, course)
    ensures var p := Then(retired, rest); InstallLeft(k, Reached(k, p, fuse), spec, session, owner, OutcomeOf(p, fuse))
  {
    ThenStop(k, retired, rest, fuse);
    if fuse >= |retired.ops| {
      FreshPlanStopped(Exec(k, retired.ops), spec, session, owner, course, fuse - |retired.ops|);
      LeftSince(k, Exec(k, retired.ops), Reached(Exec(k, retired.ops), rest, fuse - |retired.ops|), spec, session, owner,
                OutcomeOf(rest, fuse - |retired.ops|));
    }
  }

  lemma LeftSince(k: Disk, mid: Disk, next: Disk, spec: Spec, session: string, owner: string, end: Outcome)
    requires mid.running == k.running && InstallLeft(mid, next, spec, session, owner, end)
    ensures InstallLeft(k, next, spec, session, owner, end)
  {
  }

  lemma FreshPlanStopped(k: Disk, spec: Spec, session: string, owner: string, course: Course, fuse: nat)
    requires k.pending.None?
    ensures var p := FreshPlan(k, spec, session, owner, course);
            InstallLeft(k, Reached(k, p, fuse), spec, session, owner, OutcomeOf(p, fuse))
  {
    if !Blocked(k, spec) && course.enrolled {
      FreshTried(k, spec, session, owner, course, fuse);
    } else {
      AfterNone(k, []);
    }
  }

  lemma FreshTried(k: Disk, spec: Spec, session: string, owner: string, course: Course, fuse: nat)
    requires k.pending.None? && !Blocked(k, spec)
    ensures var p := Tried(k, spec, session, Fresh(spec, session, owner, course), course.raises);
            InstallLeft(k, Reached(k, p, fuse), spec, session, owner, OutcomeOf(p, fuse))
  {
    var a := Fresh(spec, session, owner, course);
    var end := TriedStop(k, spec, session, a, course.raises, fuse);
    FreshStop(k, spec, session, owner, course, end.n);
    if end.n > 0 || end.recorded {
      EndLeaves(k, Reached(k, Tried(k, spec, session, a, course.raises), fuse), spec, session, a, end);
    } else {
      AfterNone(k, a.ops);
    }
  }

  /** How many operations of an attempt a killed command had performed. */
  function KilledAt(course: Course, fuse: nat): nat {
    if course.raises.Some? && course.raises.value < fuse then course.raises.value else fuse
  }

  /** A re-enrollment killed before it wrote its own record over intact roots. */
  predicate EarlyStop(k: Disk, spec: Spec, course: Course, end: Outcome, fuse: nat)
    requires k.pending.Some?
  {
    k.pending.value.files != map[] && end == Killed && KilledAt(course, fuse) <= |Roles(spec)|
  }

  /** What is left of a re-enrollment that was accepted, wherever it stops.  One killed before its own record was
      written over intact roots can be repeated exactly when the probe marker changed no file. */
  ghost predicate ReenrollLeft(k: Disk, next: Disk, spec: Spec, session: string, course: Course, end: Outcome, fuse: nat)
    requires k.pending.Some?
  {
    && (end == Ok ==> Active(next, spec, session))
    && (end != Ok && !EarlyStop(k, spec, course, end, fuse) ==> next.pending.Some? && Leaves(k, next, spec, next.pending.value.owner))
    && (EarlyStop(k, spec, course, end, fuse) ==>
          next.pending == k.pending && Idle(next, spec) && (Repeatable(next, spec) <==> Unchanged(k, spec, course, KilledAt(course, fuse))))
  }

  lemma ReenrollStopped(k: Disk, spec: Spec, session: string, newOwner: string, course: Course, fuse: nat)
    ensures var p := ReenrollPlan(k, spec, session, newOwner, course);
            && (p.outcome == Refused <==> !Repeatable(k, spec))
            && (Repeatable(k, spec) ==>
                  && OutcomeOf(p, fuse) in {Ok, Failed, Killed}
                  && ReenrollLeft(k, Reached(k, p, fuse), spec, session, course, OutcomeOf(p, fuse), fuse)
                  && (k.pending.value.files != map[] ==> Kept(k, Reached(k, p, fuse), spec)))
  {
    if Repeatable(k, spec) {
      if !course.enrolled {
        NotBegun(k, spec);
      } else if k.pending.value.files != map[] {
        ReenrollIntact(k, spec, session, newOwner, course, fuse);
      } else {
        ReenrollPartial(k, spec, session, newOwner, course, fuse);
      }
    }
  }

  lemma NotBegun(k: Disk, spec: Spec)
    requires Repeatable(k, spec)
    ensures Leaves(k, k, spec, k.pending.value.owner)
  {
  }

  /** The probe is the third operation from the end. */
  predicate ProbesLast(ops: seq<Op>) {
    forall i :: 0 <= i < |ops| && ops[i].Probe? ==> i + 3 == |ops|
  }

  predicate ProbesNone(ops: seq<Op>) {
    forall i :: 0 <= i < |ops| ==> !ops[i].Probe?
  }

  lemma ProbesLastAppend(a: seq<Op>, b: seq<Op>)
    requires ProbesLast(b) && ProbesNone(a)
    ensures ProbesLast(a + b)
  {
  }

  lemma TailProbes(spec: Spec, owner: string, session: string, files: map<Scope, Files>, course: Course)
    ensures ProbesLast(Tail(spec, owner, session, files, course))
  {
    var gathers, ends := Gathers(Roles(spec), course.gathered), Receipts(spec, owner, session, files);
    assert ends[0] == Probe(session);
    ProbesLastAppend(gathers, ends);
    ProbesLastAppend(StartOps(StartUnits(spec)), gathers + ends);
  }

  lemma {:induction false} ScriptsProbeNone(roles: seq<Scope>, owner: string, course: Course)
    ensures ProbesNone(Scripts(roles, owner, course))
  {
    if roles != [] {
      ScriptsProbeNone(roles[..|roles| - 1], owner, course);
      ScriptsSnoc(roles, owner, course);
    }
  }

  lemma FreshProbes(spec: Spec, session: string, owner: string, course: Course)
    ensures ProbesLast(FreshOps(spec, session, owner, course))
  {
    TailProbes(spec, owner, session, FilesFor(spec, course.laid), course);
    ScriptsProbeNone(Roles(spec), owner, course);
    var scripts, tail := Scripts(Roles(spec), owner, course), Tail(spec, owner, session, FilesFor(spec, course.laid), course);
    ProbesLastAppend(scripts, tail);
    ProbesLastAppend([Preparation(spec, owner, session)], scripts + tail);
  }

  lemma IntactProbes(spec: Spec, session: string, owner: string, course: Course)
    ensures ProbesLast(IntactOps(spec, session, owner, course))
  {
    var keys, tail := Rewrites(Roles(spec), course.keyed), Tail(spec, owner, session, FilesFor(spec, course.keyed), course);
    TailProbes(spec, owner, session, FilesFor(spec, course.keyed), course);
    ProbesLastAppend(keys, tail);
    ProbesLastAppend([Preparation(spec, owner, session)], keys + tail);
    ProbesLastAppend(Rewrites(Roles(spec), course.configured), [Preparation(spec, owner, session)] + (keys + tail));
  }

  lemma PartialProbes(k: Disk, spec: Spec, session: string, owner: string, course: Course)
    ensures ProbesLast(AsideOps(spec, k.names) + FreshOps(spec, session, owner, course))
  {
    var sets, moves := SetAsides(Roles(spec), k.names), MoveUnits(Units(spec), k.names);
    FreshProbes(spec, session, owner, course);
    assert ProbesNone(sets + moves);
    ProbesLastAppend(AsideOps(spec, k.names), FreshOps(spec, session, owner, course));
  }

  lemma ProbeMade(ops: seq<Op>, session: string, n: nat)
    requires ProbesLast(ops) && n <= |ops| && Probe(session) in ops[..n]
    ensures n + 2 >= |ops|
  {
    var i :| 0 <= i < n && ops[..n][i] == Probe(session);
    assert ops[i].Probe?;
  }

  lemma ReenrollIntact(k: Disk, spec: Spec, session: string, newOwner: string, course: Course, fuse: nat)
    requires Repeatable(k, spec) && course.enrolled && k.pending.value.files != map[]
    ensures var p := ReenrollPlan(k, spec, session, newOwner, course);
            && OutcomeOf(p, fuse) in {Ok, Failed, Killed}
            && ReenrollLeft(k, Reached(k, p, fuse), spec, session, course, OutcomeOf(p, fuse), fuse)
            && Kept(k, Reached(k, p, fuse), spec)
  {
    var owner := k.pending.value.owner;
    var a := Intact(spec, session, owner, course);
    var end := TriedStop(k, spec, session, a, course.raises, fuse);
    var mid, next := After(k, a.ops, end.n), Reached(k, ReenrollPlan(k, spec, session, newOwner, course), fuse);
    IntactStop(k, spec, session, owner, course, end.n);
    if end.n > |Roles(spec)| || end.recorded {
      EndLeaves(k, next, spec, session, a, end);
    } else {
      IntactProbes(spec, session, owner, course);
      TailLong(spec, owner, session, FilesFor(spec, course.keyed), course);
      if Probe(session) in a.ops[..end.n] { ProbeMade(a.ops, session, end.n); }
      IntactUnstarted(k, mid, next, spec, session, a, end);
    }
    EndKept(k, mid, next, spec, session, a, end);
  }

  lemma EndKept(k: Disk, mid: Disk, next: Disk, spec: Spec, session: string, a: Attempt, end: End)
    requires end.n <= |a.ops| && mid == After(k, a.ops, end.n) && EndsWith(k, next, spec, session, a, end) && Kept(k, mid, spec)
    ensures Kept(k, next, spec)
  {
  }

  /** Stopped before its own record: nothing was started. */
  lemma IntactUnstarted(k: Disk, mid: Disk, next: Disk, spec: Spec, session: string, a: Attempt, end: End)
    requires end.n <= |a.ops| && mid == After(k, a.ops, end.n) && EndsWith(k, next, spec, session, a, end) && !end.recorded
    requires Idle(k, spec) && RunsWith(k, mid, spec, a.OwnerAt(end.n), |a.ops| - end.n) && |a.ops| - end.n >= BeforeStart(spec)
    ensures Idle(next, spec) && next == mid.(running := next.running) && (Repeatable(next, spec) <==> Consistent(mid, spec))
  {
    StartedSome(spec, |a.ops| - end.n);
  }

  lemma ReenrollPartial(k: Disk, spec: Spec, session: string, newOwner: string, course: Course, fuse: nat)
    requires Repeatable(k, spec) && course.enrolled && k.pending.value.files == map[]
    ensures var p := ReenrollPlan(k, spec, session, newOwner, course);
            && OutcomeOf(p, fuse) in {Ok, Failed, Killed}
            && ReenrollLeft(k, Reached(k, p, fuse), spec, session, course, OutcomeOf(p, fuse), fuse)
  {
    var owner := k.pending.value.owner;
    var aside, anew := AsideOps(spec, k.names), FreshOps(spec, session, newOwner, course);
    var a := Partial(k, spec, session, owner, newOwner, course);
    var end := TriedStop(k, spec, session, a, course.raises, fuse);
    var mid, next := After(k, a.ops, end.n), Reached(k, ReenrollPlan(k, spec, session, newOwner, course), fuse);
    PartialStop(k, spec, session, newOwner, course, aside, anew, end.n);
    FreshLong(spec, session, newOwner, course);
    if end.n < |aside| { PartialRuns(k, mid, spec, owner, newOwner, |a.ops| - end.n); }
    if end.n > |aside| || end.recorded {
      EndLeaves(k, next, spec, session, a, end);
    } else {
      IntactUnstarted(k, mid, next, spec, session, a, end);
      StableSame(mid, next, spec, owner);
    }
  }

  lemma PartialRuns(k: Disk, mid: Disk, spec: Spec, owner: string, newOwner: string, remaining: nat)
    requires RunsWith(k, mid, spec, newOwner, remaining) && remaining >= BeforeStart(spec)
    ensures RunsWith(k, mid, spec, owner, remaining)
  {
  }

  // ----- Where something runs, and where an attempt can be repeated -----

  ghost predicate Runs(k: Disk, spec: Spec, a: Attempt) {
    ProbesLast(a.ops) && forall n: nat :: n <= |a.ops| ==> RunsWith(k, After(k, a.ops, n), spec, a.OwnerAt(n), |a.ops| - n)
  }

  lemma FreshRuns(k: Disk, spec: Spec, session: string, owner: string, course: Course)
    requires forall s :: s in RoleSet(spec) ==> s !in k.roots
    ensures Runs(k, spec, Fresh(spec, session, owner, course))
  {
    var a := Fresh(spec, session, owner, course);
    FreshProbes(spec, session, owner, course);
    forall n: nat | n <= |a.ops| ensures RunsWith(k, After(k, a.ops, n), spec, owner, |a.ops| - n) {
      FreshStop(k, spec, session, owner, course, n);
    }
  }

  lemma ReattemptRuns(k: Disk, spec: Spec, session: string, newOwner: string, course: Course)
    requires Consistent(k, spec)
    ensures Runs(k, spec, Reattempt(k, spec, session, newOwner, course))
  {
    var a, owner := Reattempt(k, spec, session, newOwner, course), k.pending.value.owner;
    if k.pending.value.files != map[] {
      IntactProbes(spec, session, owner, course);
      forall n: nat | n <= |a.ops| ensures RunsWith(k, After(k, a.ops, n), spec, owner, |a.ops| - n) {
        IntactStop(k, spec, session, owner, course, n);
      }
    } else {
      PartialProbes(k, spec, session, newOwner, course);
      forall n: nat | n <= |a.ops| ensures RunsWith(k, After(k, a.ops, n), spec, a.OwnerAt(n), |a.ops| - n) {
        PartialStop(k, spec, session, newOwner, course, AsideOps(spec, k.names), FreshOps(spec, session, newOwner, course), n);
        FreshLong(spec, session, newOwner, course);
        if n < |AsideOps(spec, k.names)| { PartialRuns(k, After(k, a.ops, n), spec, owner, newOwner, |a.ops| - n); }
      }
    }
  }

  /** A plan that ends in an attempt which began with nothing running.  Killed, it leaves something running exactly
      when it had begun to start its units; ended by an exception, exactly when the probe had been made. */
  ghost predicate RunsAfter(k: Disk, p: Plan, spec: Spec, session: string, fuse: nat) {
    && (OutcomeOf(p, fuse) == Failed ==> (Idle(Reached(k, p, fuse), spec) <==> Probe(session) !in p.ops))
    && (OutcomeOf(p, fuse) == Killed && p.outcome == Ok ==>
          (Idle(Reached(k, p, fuse), spec) <==> fuse + BeforeStart(spec) <= |p.ops|))
  }

  lemma AttemptRuns(k: Disk, spec: Spec, session: string, a: Attempt, raises: Option<nat>, fuse: nat)
    requires Idle(k, spec) && Runs(k, spec, a)
    ensures RunsAfter(k, Tried(k, spec, session, a, raises), spec, session, fuse)
  {
    var p := Tried(k, spec, session, a, raises);
    var end := TriedStop(k, spec, session, a, raises, fuse);
    var mid, owner := After(k, a.ops, end.n), a.OwnerAt(end.n);
    StartedSome(spec, |a.ops| - end.n);
    if OutcomeOf(p, fuse) == Failed && end.recorded {
      RecordedIdle(k, mid, spec, owner, session, |a.ops| - end.n);
      assert Probe(session) !in p.ops;
    } else if end.stops == 0 {
      HaltedNone(mid, MarkedUnits(mid, spec, owner));
      if OutcomeOf(p, fuse) == Failed { ProbeMade(a.ops, session, end.n); }
    }
  }

  /** A fresh installation that began with nothing running. */
  lemma InstallRuns(k: Disk, spec: Spec, session: string, owner: string, order: seq<nat>, course: Course, fuse: nat)
    requires k.pending.None? && Idle(k, spec)
    ensures RunsAfter(k, InstallPlan(k, spec, session, owner, order, course), spec, session, fuse)
  {
    var listing := Listing(k, order);
    var retired := RetirePlan(k, listing);
    RetireShape(k, listing);
    RetireStop(k, listing, fuse);
    if retired.outcome == Ok {
      RetiredWhole(k, listing);
      var mid := Exec(k, retired.ops);
      var rest := FreshPlan(mid, spec, session, owner, course);
      if !Blocked(mid, spec) && course.enrolled {
        FreshRuns(mid, spec, session, owner, course);
        if fuse >= |retired.ops| { AttemptRuns(mid, spec, session, Fresh(spec, session, owner, course), course.raises, fuse - |retired.ops|); }
        FreshLong(spec, session, owner, course);
      }
      ThenStop(k, retired, rest, fuse);
      RunsThen(k, mid, retired, rest, spec, session, fuse);
    }
  }

  lemma RunsThen(k: Disk, mid: Disk, retired: Plan, rest: Plan, spec: Spec, session: string, fuse: nat)
    requires retired.outcome == Ok && mid == Exec(k, retired.ops) && Idle(Reached(k, retired, fuse), spec) && Idle(mid, spec)
    requires forall i :: 0 <= i < |retired.ops| ==> retired.ops[i].ArchiveReceipt?
    requires rest.outcome == Ok ==> |rest.ops| > BeforeStart(spec)
    requires rest == Plan([], rest.outcome) || (fuse >= |retired.ops| ==> RunsAfter(mid, rest, spec, session, fuse - |retired.ops|))
    ensures RunsAfter(k, Then(retired, rest), spec, session, fuse)
  {
    ThenStop(k, retired, rest, fuse);
    assert Probe(session) in Then(retired, rest).ops <==> Probe(session) in rest.ops;
  }

  /** A re-enrollment: it is accepted only while nothing runs. */
  lemma ReenrollRuns(k: Disk, spec: Spec, session: string, newOwner: string, course: Course, fuse: nat)
    requires Repeatable(k, spec)
    ensures RunsAfter(k, ReenrollPlan(k, spec, session, newOwner, course), spec, session, fuse)
  {
    if course.enrolled {
      ReattemptRuns(k, spec, session, newOwner, course);
      AttemptRuns(k, spec, session, Reattempt(k, spec, session, newOwner, course), course.raises, fuse);
    }
  }

  /** A fresh installation that began with nothing running and was killed can be re-enrolled exactly when it had
      not just made a root and had not begun to start its units. */
  lemma InstallKilled(k: Disk, spec: Spec, session: string, owner: string, order: seq<nat>, course: Course, fuse: nat)
    requires k.pending.None? && Idle(k, spec)
    ensures var p := InstallPlan(k, spec, session, owner, order, course);
            var next := Reached(k, p, fuse);
            p.outcome == Ok && fuse < |p.ops| && next.pending.Some? ==>
              (Repeatable(next, spec) <==> !MadeLast(p.ops, fuse) && fuse + BeforeStart(spec) <= |p.ops|)
  {
    var listing := Listing(k, order);
    var retired := RetirePlan(k, listing);
    var p := InstallPlan(k, spec, session, owner, order, course);
    RetireShape(k, listing);
    if p.outcome == Ok && fuse < |p.ops| && Reached(k, p, fuse).pending.Some? {
      InstallStopped(k, spec, session, owner, order, course, fuse);
      InstallRuns(k, spec, session, owner, order, course, fuse);
      InstallMarks(k, retired, spec, session, owner, order, course, fuse);
    }
  }

  lemma InstallMarks(k: Disk, retired: Plan, spec: Spec, session: string, owner: string, order: seq<nat>, course: Course, fuse: nat)
    requires k.pending.None? && retired == RetirePlan(k, Listing(k, order))
    requires var p := InstallPlan(k, spec, session, owner, order, course);
             p.outcome == Ok && fuse < |p.ops| && Reached(k, p, fuse).pending.Some?
    ensures var p := InstallPlan(k, spec, session, owner, order, course);
            Marked(Reached(k, p, fuse), spec, owner) <==> !MadeLast(p.ops, fuse)
  {
    RetireShape(k, Listing(k, order));
    RetireStop(k, Listing(k, order), fuse);
    RetiredWhole(k, Listing(k, order));
    var mid := Exec(k, retired.ops);
    FreshMarks(mid, spec, session, owner, course);
    ThenMarks(k, mid, retired, FreshPlan(mid, spec, session, owner, course), spec, owner, fuse);
  }

  /** An attempt marks every root that it makes, with the very next operation. */
  ghost predicate Marking(k: Disk, ops: seq<Op>, spec: Spec, owner: string) {
    forall n: nat :: n < |ops| ==> (Marked(After(k, ops, n), spec, owner) <==> !MadeLast(ops, n))
  }

  lemma FreshMarks(k: Disk, spec: Spec, session: string, owner: string, course: Course)
    requires !Blocked(k, spec)
    ensures Marking(k, FreshOps(spec, session, owner, course), spec, owner)
  {
    var ops := FreshOps(spec, session, owner, course);
    forall n: nat | n < |ops| ensures Marked(After(k, ops, n), spec, owner) <==> !MadeLast(ops, n) {
      FreshStop(k, spec, session, owner, course, n);
    }
  }

  lemma ThenMarks(k: Disk, mid: Disk, p: Plan, q: Plan, spec: Spec, owner: string, fuse: nat)
    requires p.outcome == Ok && mid == Exec(k, p.ops) && mid.pending.None? && Marking(mid, q.ops, spec, owner)
    requires fuse < |p.ops| + |q.ops| && (fuse < |p.ops| ==> Reached(k, p, fuse).pending.None?)
    requires Reached(k, Then(p, q), fuse).pending.Some?
    ensures Marked(Reached(k, Then(p, q), fuse), spec, owner) <==> !MadeLast(Then(p, q).ops, fuse)
  {
    ThenStop(k, p, q, fuse);
    MadeLastAppend(p.ops, q.ops, fuse);
    if fuse == |p.ops| { AfterNone(mid, q.ops); }
  }

  /** A re-enrollment that was killed can be repeated exactly when, besides, it had changed no file or had written
      its own record. */
  lemma ReenrollKilled(k: Disk, spec: Spec, session: string, newOwner: string, course: Course, fuse: nat)
    requires Repeatable(k, spec)
    ensures var p := ReenrollPlan(k, spec, session, newOwner, course);
            var next := Reached(k, p, fuse);
            p.outcome == Ok && fuse < |p.ops| ==>
              (Repeatable(next, spec) <==>
               && !MadeLast(p.ops, fuse) && fuse + BeforeStart(spec) <= |p.ops|
               && (k.pending.value.files != map[] && fuse <= |Roles(spec)| ==> Unchanged(k, spec, course, fuse)))
  {
    var p := ReenrollPlan(k, spec, session, newOwner, course);
    if p.outcome == Ok && fuse < |p.ops| {
      ReenrollRuns(k, spec, session, newOwner, course, fuse);
      if k.pending.value.files != map[] {
        IntactStop(k, spec, session, k.pending.value.owner, course, fuse);
        IntactMakesNone(spec, session, k.pending.value.owner, course, fuse);
      } else {
        PartialStop(k, spec, session, newOwner, course, AsideOps(spec, k.names), FreshOps(spec, session, newOwner, course), fuse);
        if fuse <= |AsideOps(spec, k.names)| { PartialMakes(spec, k.names, session, newOwner, course, fuse); }
      }
    }
  }

  lemma IntactMakesNone(spec: Spec, session: string, owner: string, course: Course, n: nat)
    requires n <= |IntactOps(spec, session, owner, course)|
    ensures !MadeLast(IntactOps(spec, session, owner, course), n)
  {
    var configs, keys := Rewrites(Roles(spec), course.configured), Rewrites(Roles(spec), course.keyed);
    var tail, prep := Tail(spec, owner, session, FilesFor(spec, course.keyed), course), Preparation(spec, owner, session);
    MadeLastAppend(configs, [prep] + (keys + tail), n);
    if n > |configs| + 1 {
      MadeLastCons(prep, keys + tail, n - |configs|);
      MadeLastAppend(keys, tail, n - |configs| - 1);
      if n - |configs| - 1 > |keys| { TailMakesNone(spec, owner, session, FilesFor(spec, course.keyed), course, n - |configs| - 1 - |keys|); }
    }
  }

  lemma PartialMakes(spec: Spec, id: nat, session: string, owner: string, course: Course, n: nat)
    requires n <= |AsideOps(spec, id)|
    ensures !MadeLast(AsideOps(spec, id) + FreshOps(spec, session, owner, course), n)
  {
    MadeLastAppend(AsideOps(spec, id), FreshOps(spec, session, owner, course), n);
  }

  // ----- Stops after which an attempt cannot be repeated -----

  const EMPTY_DISK := Disk(map[], {}, {}, None, map[], map[], map[], 0, map[], {}, {}, {})

  /** Killed between making a root and writing its mark, a fresh installation is not accepted for re-enrollment. */
  lemma KilledBeforeMark(spec: Spec, session: string, owner: string, course: Course)
    requires course.enrolled && course.raises.None?
    ensures var p := InstallPlan(EMPTY_DISK, spec, session, owner, [], course);
            OutcomeOf(p, 2) == Killed && Reached(EMPTY_DISK, p, 2).pending.Some? && !Repeatable(Reached(EMPTY_DISK, p, 2), spec)
  {
    var k, ops := EMPTY_DISK, FreshOps(spec, session, owner, course);
    FromEmpty(spec, session, owner, course);
    FirstScript(spec, owner, course);
    assert ops[1] == MakeRoot(HostScope);
    FreshStop(k, spec, session, owner, course, 2);
  }

  /** Killed after its units were started, or ended by an exception after its probe, a fresh installation leaves
      marked roots and running units, and is not accepted for re-enrollment. */
  lemma KilledWhileRunning(spec: Spec, session: string, owner: string, course: Course, fuse: nat)
    requires course.enrolled && course.raises.None?
    requires var total := |FreshOps(spec, session, owner, course)|; fuse < total < fuse + BeforeStart(spec)
    ensures var p := InstallPlan(EMPTY_DISK, spec, session, owner, [], course);
            var next := Reached(EMPTY_DISK, p, fuse);
            && OutcomeOf(p, fuse) == Killed && next.pending.Some? && Marked(next, spec, owner)
            && !Idle(next, spec) && !Repeatable(next, spec)
  {
    FromEmpty(spec, session, owner, course);
    FreshLong(spec, session, owner, course);
    FreshStop(EMPTY_DISK, spec, session, owner, course, fuse);
    FreshMakesEarly(spec, session, owner, course, fuse);
    InstallRuns(EMPTY_DISK, spec, session, owner, [], course, fuse);
  }

  lemma FailedAfterProbe(spec: Spec, session: string, owner: string, course: Course)
    requires course.enrolled && course.raises == Some(|FreshOps(spec, session, owner, course)| - 2)
    ensures var p := InstallPlan(EMPTY_DISK, spec, session, owner, [], course);
            var next := Reached(EMPTY_DISK, p, |p.ops|);
            && OutcomeOf(p, |p.ops|) == Failed && next.pending.Some? && Marked(next, spec, owner)
            && !Idle(next, spec) && !Repeatable(next, spec)
  {
    var ops, n := FreshOps(spec, session, owner, course), |FreshOps(spec, session, owner, course)| - 2;
    FromEmpty(spec, session, owner, course);
    FreshLong(spec, session, owner, course);
    ProbeAt(spec, session, owner, course);
    AfterSame(EMPTY_DISK, ops, ops[..n], n);
    FreshStop(EMPTY_DISK, spec, session, owner, course, n);
    FreshMakesEarly(spec, session, owner, course, n);
    InstallRuns(EMPTY_DISK, spec, session, owner, [], course, n);
  }

  lemma ProbeAt(spec: Spec, session: string, owner: string, course: Course)
    ensures var ops := FreshOps(spec, session, owner, course); |ops| > 3 && Probe(session) in ops[..|ops| - 2]
  {
    var ops := FreshOps(spec, session, owner, course);
    FreshLong(spec, session, owner, course);
    assert ops[|ops| - 3] == Probe(session) && ops[..|ops| - 2][|ops| - 3] == ops[|ops| - 3];
  }

  /** On an empty disk there is nothing to retire. */
  lemma FromEmpty(spec: Spec, session: string, owner: string, course: Course)
    requires course.enrolled
    ensures InstallPlan(EMPTY_DISK, spec, session, owner, [], course)
         == Tried(EMPTY_DISK, spec, session, Fresh(spec, session, owner, course), course.raises)
  {
    assert Listing(EMPTY_DISK, []) == [];
    AfterNone(EMPTY_DISK, []);
    var p := Tried(EMPTY_DISK, spec, session, Fresh(spec, session, owner, course), course.raises);
    assert [] + p.ops == p.ops;
  }

  /** Once the tail of an attempt has begun, no root is made. */
  lemma FreshMakesEarly(spec: Spec, session: string, owner: string, course: Course, n: nat)
    requires var total := |FreshOps(spec, session, owner, course)|; n <= total < n + BeforeStart(spec)
    ensures !MadeLast(FreshOps(spec, session, owner, course), n)
  {
    var scripts, tail := Scripts(Roles(spec), owner, course), Tail(spec, owner, session, FilesFor(spec, course.laid), course);
    TailLong(spec, owner, session, FilesFor(spec, course.laid), course);
    MadeLastCons(Preparation(spec, owner, session), scripts + tail, n);
    MadeLastAppend(scripts, tail, n - 1);
    TailMakesNone(spec, owner, session, FilesFor(spec, course.laid), course, n - 1 - |scripts|);
  }

  lemma FirstScript(spec: Spec, owner: string, course: Course)
    ensures var scripts := Scripts(Roles(spec), owner, course); |scripts| >= 4 && scripts[0] == MakeRoot(HostScope)
  {
    var roles := Roles(spec);
    assert Scripts([], owner, course) == [];
    if spec.network {
      assert roles[..1] == [HostScope];
      assert [HostScope][..0] == [];
      assert Scripts([HostScope], owner, course) == Script(HostScope, owner, course);
    } else {
      assert roles[..0] == [];
    }
  }

  /** Killed after the probe marker changed the first configuration, a re-enrollment cannot be repeated. */
  lemma KilledAfterMarker(k: Disk, spec: Spec, session: string, newOwner: string, course: Course)
    requires Repeatable(k, spec) && k.pending.value.files != map[] && course.enrolled && course.raises.None?
    requires HostScope in k.roots && course.configured.host != k.roots[HostScope].files
    ensures var p := ReenrollPlan(k, spec, session, newOwner, course);
            OutcomeOf(p, 1) == Killed && !Repeatable(Reached(k, p, 1), spec)
  {
    ReenrollStopped(k, spec, session, newOwner, course, 1);
    assert Roles(spec)[..1][0] == HostScope;
    assert !Unchanged(k, spec, course, 1);
  }

  /** Such a disk: an intact failed installation. */
  lemma FailedIntact(spec: Spec, owner: string, session: string, files: Both<Files>)
    ensures var roots := map s | s in RoleSet(spec) :: Tree(Some(owner), files.Of(s), {});
            var k := EMPTY_DISK.(roots := roots, units := UnitSet(spec),
                     pending := Some(Receipt(Failing, owner, spec, session, FilesFor(spec, files))));
            Repeatable(k, spec) && k.pending.value.files != map[] && HostScope in k.roots && k.roots[HostScope].files == files.host && Inv(k)
  {
    var roots := map s | s in RoleSet(spec) :: Tree(Some(owner), files.Of(s), {});
    var k := EMPTY_DISK.(roots := roots, units := UnitSet(spec));
    assert FilesOf(k, spec) == FilesFor(spec, files);
  }

  // ----- execute -----

  /** The guarded part: an exception before the probe is verified is recorded as a failure. */
  method Try(m: Machine, spec: Spec, session: string, a: Attempt, raises: Option<nat>) returns (outcome: Outcome)
    modifies m
    ensures Ran(old(m.disk), old(m.fuse), Tried(old(m.disk), spec, session, a, raises), m.disk, m.fuse, outcome)
  {
    ghost var was, fuel := m.disk, m.fuse;
    var alive;
    if raises.None? || raises.value >= |a.ops| {
      alive := m.DoAll(a.ops);
      return if alive then Ok else Killed;
    }
    var done := a.ops[..raises.value];
    alive := m.DoAll(done);
    if Probe(session) in done { return if alive then Failed else Killed; }
    ghost var mid, left, first, ops := m.disk, m.fuse, alive, FailureOps(Exec(was, done), spec, a.OwnerAt(raises.value), session);
    if alive { alive := Fail(m, spec, a.OwnerAt(raises.value), session); }
    DidBoth(was, fuel, done, mid, left, first, ops, m.disk, m.fuse, alive);
    outcome := if alive then Failed else Killed;
  }

  /** The marked units are stopped, and the failure is recorded as the roots then are. */
  method Fail(m: Machine, spec: Spec, owner: string, session: string) returns (alive: bool)
    modifies m
    ensures Did(old(m.disk), old(m.fuse), FailureOps(old(m.disk), spec, owner, session), m.disk, m.fuse, alive)
  {
    ghost var was, fuel := m.disk, m.fuse;
    var stops := StopOps(MarkedUnits(m.disk, spec, owner));
    alive := m.DoAll(stops);
    ghost var mid, left, first := m.disk, m.fuse, alive;
    if alive {
      StopsStop(was, MarkedUnits(was, spec, owner), |stops|);
      AfterAll(was, stops, |stops|);
      StableSame(was, mid, spec, owner);
      alive := m.Do(WritePending(FailureRecord(m.disk, spec, owner, session)));
    }
    DidBoth(was, fuel, stops, mid, left, first, [WritePending(FailureRecord(was, spec, owner, session))], m.disk, m.fuse, alive);
  }

  method Install(m: Machine, spec: Spec, session: string, owner: string, order: seq<nat>, course: Course) returns (outcome: Outcome)
    modifies m
    ensures Ran(old(m.disk), old(m.fuse), InstallPlan(old(m.disk), spec, session, owner, order, course), m.disk, m.fuse, outcome)
    ensures old(m.disk).pending.None? ==> InstallLeft(old(m.disk), m.disk, spec, session, owner, outcome)
  {
    if m.disk.pending.None? { InstallStopped(m.disk, spec, session, owner, order, course, m.fuse); }
    outcome := RetireAndInstall(m, spec, session, owner, order, course);
  }

  method RetireAndInstall(m: Machine, spec: Spec, session: string, owner: string, order: seq<nat>, course: Course) returns (outcome: Outcome)
    modifies m
    ensures Ran(old(m.disk), old(m.fuse), InstallPlan(old(m.disk), spec, session, owner, order, course), m.disk, m.fuse, outcome)
  {
    ghost var was, fuel, retired := m.disk, m.fuse, RetirePlan(m.disk, Listing(m.disk, order));
    outcome := RetireRemoved(m, order);
    RetireShape(was, Listing(was, order));
    ghost var mid, left := m.disk, m.fuse;
    ghost var rest := FreshPlan(Exec(was, retired.ops), spec, session, owner, course);
    if outcome != Ok {
      RanStop(was, fuel, retired, m.disk, m.fuse, outcome, rest);
      return;
    }
    if Blocked(m.disk, spec) {
      outcome := Refused;
      RanNothing(mid, left, Refused);
    } else if !course.enrolled {
      outcome := Failed;
      RanNothing(mid, left, Failed);
    } else {
      outcome := Try(m, spec, session, Fresh(spec, session, owner, course), course.raises);
    }
    RanThen(was, fuel, retired, mid, left, rest, m.disk, m.fuse, outcome);
  }

  method Reenroll(m: Machine, spec: Spec, session: string, newOwner: string, course: Course) returns (outcome: Outcome)
    modifies m
    ensures Ran(old(m.disk), old(m.fuse), ReenrollPlan(old(m.disk), spec, session, newOwner, course), m.disk, m.fuse, outcome)
    ensures outcome == Refused <==> !Repeatable(old(m.disk), spec)
    ensures outcome == Refused ==> m.disk == old(m.disk)
    ensures outcome != Refused ==> ReenrollLeft(old(m.disk), m.disk, spec, session, course, outcome, old(m.fuse))
  {
    ReenrollStopped(m.disk, spec, session, newOwner, course, m.fuse);
    if !Repeatable(m.disk, spec) {
      RanNothing(m.disk, m.fuse, Refused);
      return Refused;
    }
    if !course.enrolled {
      RanNothing(m.disk, m.fuse, Failed);
      return Failed;
    }
    outcome := Try(m, spec, session, Reattempt(m.disk, spec, session, newOwner, course), course.raises);
  }
}
