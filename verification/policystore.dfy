/** The versioned policy store of deploy/agents/policy.py (`current`, `update`): an authoritative
    pointer file replaced atomically, one history file per earlier version, and an audit record written
    before publication.  The process may stop between any two file operations, and inside the write of
    a history file, whose content is then arbitrary. */
module PolicyStore {
  import opened Wrappers
  import opened PolicyText

  /** The files of the installation; an audit record is named by its version and policy text (the
      source uses the text's digest). */
  datatype Files = Files(pointer: Option<string>, history: map<nat, string>, audits: set<(nat, string)>, legacy: seq<string>)

  /** What the store needs of a platform's policy format (`validate`, `encode`, `decode`). */
  datatype Platform = Platform(
    validate: Policy -> Option<Policy>, encode: (Policy, nat) -> string, decode: string -> Option<(Policy, nat)>)

  const LINUX := Platform(Validate, Encode, Decode)

  ghost predicate Canonical(c: Platform, p: Policy) {
    c.validate(p) == Some(p)
  }

  /** Validation is idempotent, and canonical policies are read back as written and fit the size limit. */
  ghost predicate Lawful(c: Platform) {
    && (forall p :: c.validate(p).Some? ==> Canonical(c, c.validate(p).value))
    && (forall p, v: nat :: Canonical(c, p) && v <= MAX_VERSION ==>
                              c.decode(c.encode(p, v)) == Some((p, v)) && |c.encode(p, v)| <= MAX_FILE)
  }

  lemma LinuxLawful()
    ensures Lawful(LINUX)
  {
    forall p | Validate(p).Some? ensures Canonical(LINUX, Validate(p).value) { ValidateFixed(p); }
    forall p, v: nat | Canonical(LINUX, p) && v <= MAX_VERSION
      ensures Decode(Encode(p, v)) == Some((p, v)) && |Encode(p, v)| <= MAX_FILE
    {
      RoundTrip(p, v);
      EncodedFits(p, v);
    }
  }

  datatype Request = NewPolicy(policy: Policy) | Rollback(version: int)

  /** Where the process stops, if it does. */
  datatype Stop = Never | BeforeArchive | InsideArchive(torn: string) | AfterArchive | AfterAudit | AfterPublish

  datatype Attempt = Attempt(request: Request, expected: Option<int>, apply: bool, isDirectory: string -> bool, stop: Stop)

  datatype Reason = Unreadable | Stale | NoSuchVersion | Invalid | RootMissing | Exhausted | Conflict

  datatype Outcome = Refused(reason: Reason) | DryRun(version: nat) | Stopped | Applied(version: nat)

  function Current(c: Platform, f: Files): Option<(Policy, nat)> {
    match f.pointer
    case Some(data) => if |data| > MAX_FILE then None else c.decode(data)
    case None =>
      var p := c.validate(Policy(f.legacy, []));
      if p.None? then None else Some((p.value, 0))
  }

  /** The policy an attempt asks for, before validation. */
  function Wanted(c: Platform, f: Files, version: nat, request: Request): Option<Policy> {
    match request
    case NewPolicy(p) => Some(p)
    case Rollback(v) =>
      if v < 0 || v >= version || v !in f.history then None
      else
        var saved := c.decode(f.history[v]);
        if saved.None? then None else Some(saved.value.0)
  }

  datatype Plan = Refuse(reason: Reason) | Publish(previous: Policy, version: nat, policy: Policy)

  function PlanFor(c: Platform, f: Files, a: Attempt): Plan {
    var now := Current(c, f);
    if now.None? then Refuse(Unreadable)
    else
      var (previous, version) := now.value;
      var wanted := Wanted(c, f, version, a.request);
      if a.apply && a.expected != Some(version) then Refuse(Stale)
      else if wanted.None? then Refuse(NoSuchVersion)
      else
        var policy := c.validate(wanted.value);
        if policy.None? then Refuse(Invalid)
        else if exists i :: 0 <= i < |policy.value.roots| && !a.isDirectory(policy.value.roots[i]) then Refuse(RootMissing)
        else if version >= MAX_VERSION then Refuse(Exhausted)
        else Publish(previous, version, policy.value)
  }

  function Try(c: Platform, f: Files, a: Attempt): (Files, Outcome) {
    var plan := PlanFor(c, f, a);
    if plan.Refuse? then (f, Refused(plan.reason))
    else
      var Publish(previous, version, policy) := plan;
      var text, data := c.encode(previous, version), c.encode(policy, version + 1);
      var archived := f.(history := f.history[version := text]);
      var audited := archived.(audits := f.audits + {(version + 1, data)});
      if !a.apply then (f, DryRun(version + 1))
      else if a.stop.BeforeArchive? then (f, Stopped)
      else if version in f.history && f.history[version] != text then (f, Refused(Conflict))
      else if a.stop.InsideArchive? then
        (if version in f.history then f else f.(history := f.history[version := a.stop.torn]), Stopped)
      else if a.stop.AfterArchive? then (archived, Stopped)
      else if a.stop.AfterAudit? then (audited, Stopped)
      else (audited.(pointer := Some(data)), if a.stop.AfterPublish? then Stopped else Applied(version + 1))
  }

  class Installation {
    const c: Platform
    const legacy: seq<string>
    var pointer: Option<string>
    var history: map<nat, string>
    var audits: set<(nat, string)>

    ghost function View(): Files
      reads this
    {
      Files(pointer, history, audits, legacy)
    }

    constructor (platform: Platform, legacy: seq<string>)
      ensures View() == Files(None, map[], {}, legacy) && c == platform
    {
      c, this.legacy := platform, legacy;
      pointer, history, audits := None, map[], {};
    }

    method ReadCurrent() returns (r: Option<(Policy, nat)>)
      ensures r == Current(c, View())
    {
      if pointer.Some? {
        return if |pointer.value| > MAX_FILE then None else c.decode(pointer.value);
      }
      var p := c.validate(Policy(legacy, []));
      return if p.None? then None else Some((p.value, 0));
    }

    /** One run of the command under the discovery lock. */
    method Update(a: Attempt) returns (out: Outcome)
      modifies this
      ensures (View(), out) == Try(c, old(View()), a)
    {
      var now := ReadCurrent();
      if now.None? { return Refused(Unreadable); }
      var (previous, version) := now.value;
      if a.apply && a.expected != Some(version) { return Refused(Stale); }
      var policy: Policy;
      match a.request {
        case NewPolicy(p) => policy := p;
        case Rollback(v) =>
          if v < 0 || v >= version || v !in history { return Refused(NoSuchVersion); }
          var saved := c.decode(history[v]);
          if saved.None? { return Refused(NoSuchVersion); }
          policy := saved.value.0;
      }
      var valid := c.validate(policy);
      if valid.None? { return Refused(Invalid); }
      policy := valid.value;
      for i := 0 to |policy.roots|
        invariant forall j :: 0 <= j < i ==> a.isDirectory(policy.roots[j])
      {
        if !a.isDirectory(policy.roots[i]) { return Refused(RootMissing); }
      }
      if version >= MAX_VERSION { return Refused(Exhausted); }
      var data := c.encode(policy, version + 1);
      if !a.apply { return DryRun(version + 1); }
      if a.stop.BeforeArchive? { return Stopped; }
      var text := c.encode(previous, version);
      if version in history {
        if history[version] != text { return Refused(Conflict); }
        if a.stop.InsideArchive? { return Stopped; }
      } else {
        if a.stop.InsideArchive? {
          history := history[version := a.stop.torn];
          return Stopped;
        }
        history := history[version := text];
      }
      assert history == old(history)[version := text];
      if a.stop.AfterArchive? { return Stopped; }
      audits := audits + {(version + 1, data)};
      if a.stop.AfterAudit? { return Stopped; }
      pointer := Some(data);
      if a.stop.AfterPublish? { return Stopped; }
      return Applied(version + 1);
    }
  }

  // ----- Every run -----

  /** The policies that were current at versions 0, 1, ..., n, as far as the files tell. */
  ghost predicate Inv(c: Platform, f: Files, log: seq<Policy>) {
    && 0 < |log| <= MAX_VERSION + 1
    && Current(c, f) == Some((log[|log| - 1], |log| - 1))
    && (forall v :: 0 <= v < |log| ==> Canonical(c, log[v]))
    && (forall v :: 0 <= v < |log| - 1 ==> v in f.history && f.history[v] == c.encode(log[v], v))
    && (forall v :: v in f.history ==> v < |log|)
    && (|log| > 1 ==> var data := c.encode(log[|log| - 1], |log| - 1);
                      f.pointer == Some(data) && (|log| - 1, data) in f.audits)
  }

  /** The policy an attempt publishes, if it gets that far. */
  function Published(c: Platform, f: Files, a: Attempt): Option<Policy> {
    var plan := PlanFor(c, f, a);
    if plan.Publish? && Try(c, f, a).0.pointer != f.pointer then Some(plan.policy) else None
  }

  function NextLog(c: Platform, f: Files, log: seq<Policy>, a: Attempt): seq<Policy> {
    var p := Published(c, f, a);
    if p.Some? then log + [p.value] else log
  }

  lemma InitialInv(c: Platform, legacy: seq<string>)
    requires Lawful(c) && c.validate(Policy(legacy, [])).Some?
    ensures Inv(c, Fresh(legacy), [c.validate(Policy(legacy, [])).value])
  {
  }

  lemma CurrentOfEncoded(c: Platform, f: Files, p: Policy, version: nat)
    requires Lawful(c) && Canonical(c, p) && version <= MAX_VERSION && f.pointer == Some(c.encode(p, version))
    ensures Current(c, f) == Some((p, version))
  {
  }

  lemma PublishingChangesPointer(c: Platform, f: Files, log: seq<Policy>, a: Attempt)
    requires Lawful(c) && Inv(c, f, log) && PlanFor(c, f, a).Publish?
    ensures f.pointer != Some(c.encode(PlanFor(c, f, a).policy, |log|))
    ensures Canonical(c, PlanFor(c, f, a).policy) && |log| <= MAX_VERSION
  {
    var policy := PlanFor(c, f, a).policy;
    assert c.decode(c.encode(policy, |log|)) == Some((policy, |log|));
  }

  /** One attempt, wherever it stops, keeps the invariant; it appends at most one version to the log,
      and reports an applied version exactly when it appended that very version. */
  lemma AttemptInv(c: Platform, f: Files, log: seq<Policy>, a: Attempt)
    requires Lawful(c) && Inv(c, f, log)
    ensures Inv(c, Try(c, f, a).0, NextLog(c, f, log, a))
    ensures NextLog(c, f, log, a) == log || (a.apply && a.expected == Some(|log| - 1) && |NextLog(c, f, log, a)| == |log| + 1)
    ensures Try(c, f, a).1.Applied? ==> Try(c, f, a).1.version == |log| && |NextLog(c, f, log, a)| == |log| + 1
    ensures Try(c, f, a).1.Refused? || Try(c, f, a).1.DryRun? ==> Try(c, f, a).0 == f
  {
    if PlanFor(c, f, a).Publish? {
      PublishingChangesPointer(c, f, log, a);
      var next := Try(c, f, a).0;
      if next.pointer != f.pointer {
        CurrentOfEncoded(c, next, PlanFor(c, f, a).policy, |log|);
      } else {
        assert Current(c, next) == Current(c, f);
      }
    }
  }

  function Run(c: Platform, f: Files, attempts: seq<Attempt>): Files
    decreases |attempts|
  {
    if attempts == [] then f else Run(c, Try(c, f, attempts[0]).0, attempts[1..])
  }

  function RunLog(c: Platform, f: Files, log: seq<Policy>, attempts: seq<Attempt>): seq<Policy>
    decreases |attempts|
  {
    if attempts == [] then log else RunLog(c, Try(c, f, attempts[0]).0, NextLog(c, f, log, attempts[0]), attempts[1..])
  }

  /** Over every run the log only grows, so every history file of an earlier version holds, for ever,
      the encoding of the policy that was current at that version. */
  lemma {:induction false} RunInv(c: Platform, f: Files, log: seq<Policy>, attempts: seq<Attempt>)
    requires Lawful(c) && Inv(c, f, log)
    ensures Inv(c, Run(c, f, attempts), RunLog(c, f, log, attempts)) && log <= RunLog(c, f, log, attempts)
    decreases |attempts|
  {
    if attempts != [] {
      AttemptInv(c, f, log, attempts[0]);
      RunInv(c, Try(c, f, attempts[0]).0, NextLog(c, f, log, attempts[0]), attempts[1..]);
    }
  }

  lemma HistoryNeverChanges(c: Platform, f: Files, log: seq<Policy>, attempts: seq<Attempt>, v: nat)
    requires Lawful(c) && Inv(c, f, log) && v < |log| - 1
    ensures v in Run(c, f, attempts).history
    ensures Run(c, f, attempts).history[v] == f.history[v] == c.encode(log[v], v)
  {
    RunInv(c, f, log, attempts);
    assert RunLog(c, f, log, attempts)[v] == log[v];
  }

  /** The files of an installation before its first policy update. */
  function Fresh(legacy: seq<string>): Files {
    Files(None, map[], {}, legacy)
  }

  /** Every run from a fresh installation whose discovery roots are valid: there is a log of policies that begins
      with those roots, the last one is current under its number, and the history files hold all earlier ones. */
  lemma FreshRuns(c: Platform, legacy: seq<string>, attempts: seq<Attempt>) returns (log: seq<Policy>)
    requires Lawful(c) && c.validate(Policy(legacy, [])).Some?
    ensures var f := Run(c, Fresh(legacy), attempts);
            && Inv(c, f, log) && log[0] == c.validate(Policy(legacy, [])).value
            && Current(c, f) == Some((log[|log| - 1], |log| - 1))
            && (forall v :: v in f.history ==> v < |log|)
            && forall v :: 0 <= v < |log| - 1 ==> v in f.history && f.history[v] == c.encode(log[v], v)
  {
    var first := [c.validate(Policy(legacy, [])).value];
    InitialInv(c, legacy);
    RunInv(c, Fresh(legacy), first, attempts);
    log := RunLog(c, Fresh(legacy), first, attempts);
    assert log[0] == first[0];
  }

  /** Otherwise nothing is ever published. */
  lemma {:induction false} FreshUnreadable(c: Platform, legacy: seq<string>, attempts: seq<Attempt>)
    requires c.validate(Policy(legacy, [])).None?
    ensures Run(c, Fresh(legacy), attempts) == Fresh(legacy)
    ensures forall a :: Try(c, Fresh(legacy), a) == (Fresh(legacy), Refused(Unreadable))
    decreases |attempts|
  {
    if attempts != [] { FreshUnreadable(c, legacy, attempts[1..]); }
  }

  lemma {:induction false} RunAppend(c: Platform, f: Files, first: seq<Attempt>, more: seq<Attempt>)
    ensures Run(c, f, first + more) == Run(c, Run(c, f, first), more)
    decreases |first|
  {
    if first == [] {
      assert first + more == more;
    } else {
      assert (first + more)[1..] == first[1..] + more;
      RunAppend(c, Try(c, f, first[0]).0, first[1..], more);
    }
  }

  /** In every run from a fresh installation, the history file of an earlier version never changes again. */
  lemma FreshHistory(c: Platform, legacy: seq<string>, first: seq<Attempt>, more: seq<Attempt>, v: nat, version: nat, policy: Policy)
    requires Lawful(c) && Current(c, Run(c, Fresh(legacy), first)) == Some((policy, version)) && v < version
    ensures var f := Run(c, Fresh(legacy), first);
            v in f.history && v in Run(c, Fresh(legacy), first + more).history &&
            Run(c, Fresh(legacy), first + more).history[v] == f.history[v]
  {
    if c.validate(Policy(legacy, [])).None? {
      FreshUnreadable(c, legacy, first);
      assert false;
    } else {
      var log := FreshRuns(c, legacy, first);
      RunAppend(c, Fresh(legacy), first, more);
      HistoryNeverChanges(c, Run(c, Fresh(legacy), first), log, more, v);
    }
  }

  /** A stale or missing expected version changes nothing. */
  lemma StaleChangesNothing(c: Platform, f: Files, log: seq<Policy>, a: Attempt)
    requires Lawful(c) && Inv(c, f, log) && a.apply && a.expected != Some(|log| - 1)
    ensures Try(c, f, a) == (f, Refused(Stale))
  {
  }

  /** The current version's history file is absent or right: no write of it was torn. */
  predicate ArchiveSound(c: Platform, f: Files, policy: Policy, version: nat) {
    version in f.history ==> f.history[version] == c.encode(policy, version)
  }

  /** When a rollback that is not interrupted is applied, exactly: it makes the policy of version v
      current again under the next version number. */
  lemma RollbackRestores(c: Platform, f: Files, log: seq<Policy>, a: Attempt, v: int)
    requires Lawful(c) && Inv(c, f, log) && a.request == Rollback(v) && a.stop.Never?
    ensures Try(c, f, a).1.Applied? <==>
            && a.apply && a.expected == Some(|log| - 1) && 0 <= v < |log| - 1 && |log| <= MAX_VERSION
            && (forall i :: 0 <= i < |log[v].roots| ==> a.isDirectory(log[v].roots[i]))
            && ArchiveSound(c, f, log[|log| - 1], |log| - 1)
    ensures Try(c, f, a).1.Applied? ==> Current(c, Try(c, f, a).0) == Some((log[v], |log|))
  {
    if 0 <= v < |log| - 1 {
      assert Wanted(c, f, |log| - 1, a.request) == Some(log[v]);
    }
    if Try(c, f, a).1.Applied? {
      CurrentOfEncoded(c, Try(c, f, a).0, log[v], |log|);
    }
  }

  /** When a new policy is applied by an attempt that is not interrupted, exactly: it becomes current in its
      canonical form under the next version number. */
  lemma NewPolicyApplied(c: Platform, f: Files, log: seq<Policy>, a: Attempt, p: Policy)
    requires Lawful(c) && Inv(c, f, log) && a.request == NewPolicy(p) && a.stop.Never?
    ensures Try(c, f, a).1.Applied? <==>
            && a.apply && a.expected == Some(|log| - 1) && |log| <= MAX_VERSION
            && c.validate(p).Some? && (forall i :: 0 <= i < |c.validate(p).value.roots| ==> a.isDirectory(c.validate(p).value.roots[i]))
            && ArchiveSound(c, f, log[|log| - 1], |log| - 1)
    ensures Try(c, f, a).1.Applied? ==> Current(c, Try(c, f, a).0) == Some((c.validate(p).value, |log|))
  {
    if Try(c, f, a).1.Applied? {
      CurrentOfEncoded(c, Try(c, f, a).0, c.validate(p).value, |log|);
    }
  }

  /** An attempt makes a sound archive unsound exactly when it is stopped inside the write of a history file that
      did not exist, with anything but the whole text written. */
  lemma TornExactly(c: Platform, f: Files, log: seq<Policy>, a: Attempt)
    requires Lawful(c) && Inv(c, f, log) && ArchiveSound(c, f, log[|log| - 1], |log| - 1)
    ensures var next := NextLog(c, f, log, a);
            !ArchiveSound(c, Try(c, f, a).0, next[|next| - 1], |next| - 1) <==>
            && PlanFor(c, f, a).Publish? && a.apply && a.stop.InsideArchive?
            && (|log| - 1) !in f.history && a.stop.torn != c.encode(log[|log| - 1], |log| - 1)
  {
    AttemptInv(c, f, log, a);
  }

  /** A torn history write blocks every later publication with a conflict, and nothing else: the
      current policy stays readable and unchanged. */
  lemma {:induction false} TornArchiveBlocks(c: Platform, f: Files, log: seq<Policy>, attempts: seq<Attempt>)
    requires Lawful(c) && Inv(c, f, log) && !ArchiveSound(c, f, log[|log| - 1], |log| - 1)
    ensures Run(c, f, attempts) == f && RunLog(c, f, log, attempts) == log
    decreases |attempts|
  {
    if attempts != [] {
      assert Try(c, f, attempts[0]).0 == f;
      TornArchiveBlocks(c, f, log, attempts[1..]);
    }
  }
}
