/** The four-file certificate change of deploy/server/enrollment_pki.py: the apply loop of `_repair` with
    its rollback, and the explicit `restore`.  Each replacement, removal or change of owner is atomic and
    the process may be killed between any two of them. */
module TlsRepair {
  import opened Wrappers

  datatype Path = Cert | Ledger | Number | Crl | Other(name: string)

  /** The changed files, in the order of the source's `changes`. */
  const COUNT := 4

  function Target(i: nat): Path
    requires i < COUNT
  {
    if i == 0 then Cert else if i == 1 then Ledger else if i == 2 then Number else Crl
  }

  /** The place of a path in that order; a file that is not a target comes after all of them. */
  function Rank(p: Path): nat {
    match p
    case Cert => 0
    case Ledger => 1
    case Number => 2
    case Crl => 3
    case Other(_) => COUNT
  }

  predicate IsTarget(p: Path) {
    !p.Other?
  }

  datatype File = File(content: string, mode: nat, uid: nat, gid: nat)

  type Disk = map<Path, File>

  /** A digest that different contents do not share. */
  datatype Digest = Sha256(content: string)

  /** Manifest and saved copies; `before` has no entry for a file that did not exist. */
  datatype Backup = Backup(before: map<Path, Original>, after: map<Path, Digest>, saved: map<Path, string>)

  datatype Original = Original(digest: Digest, mode: nat, uid: nat, gid: nat)

  /** `Broken`: the change failed, and so did its rollback. */
  datatype End = Done | Failed | Broken | Killed | Refused

  const CRL_MODE := 0x1a4  // rw-r--r--
  const PRIVATE_MODE := 0x180  // rw-------

  function OriginalOf(f: File): Original {
    Original(Sha256(f.content), f.mode, f.uid, f.gid)
  }

  /** The backup written before the change starts. */
  function BackupOf(d: Disk, contents: map<Path, string>): Backup {
    Backup(map p | p in d && IsTarget(p) :: OriginalOf(d[p]), map p | p in contents :: Sha256(contents[p]),
           map p | p in d && IsTarget(p) :: d[p].content)
  }

  /** A file is as before the change or as after it: the only states `restore` overwrites. */
  predicate Known(b: Backup, d: Disk, p: Path) {
    if p in d then
      (p in b.before && Sha256(d[p].content) == b.before[p].digest) || (p in b.after && Sha256(d[p].content) == b.after[p])
    else p !in b.before
  }

  predicate AllKnown(b: Backup, d: Disk) {
    Known(b, d, Cert) && Known(b, d, Ledger) && Known(b, d, Number) && Known(b, d, Crl)
  }

  /** The saved copies still are what the manifest says. */
  predicate Intact(b: Backup) {
    forall p :: IsTarget(p) && p in b.before ==> p in b.saved && Sha256(b.saved[p]) == b.before[p].digest
  }

  function OriginalFile(b: Backup, p: Path): File
    requires p in b.before && p in b.saved
  {
    File(b.saved[p], b.before[p].mode, b.before[p].uid, b.before[p].gid)
  }

  // ----- Single operations -----

  datatype Op = Put(path: Path, file: File) | Drop(path: Path)

  function Perform(d: Disk, op: Op): Disk {
    if op.Put? then d[op.path := op.file] else d - {op.path}
  }

  function Exec(d: Disk, ops: seq<Op>): Disk {
    if ops == [] then d else Perform(Exec(d, ops[..|ops| - 1]), ops[|ops| - 1])
  }

  /** What the change, its rollback and a restore ever do: put one of the two versions of a target, or
      remove a target that did not exist before. */
  predicate Harmless(b: Backup, op: Op) {
    IsTarget(op.path) &&
    match op
    case Put(p, f) => (p in b.before && Sha256(f.content) == b.before[p].digest) || (p in b.after && Sha256(f.content) == b.after[p])
    case Drop(p) => p !in b.before
  }

  ghost predicate AllHarmless(b: Backup, ops: seq<Op>) {
    forall i :: 0 <= i < |ops| ==> Harmless(b, ops[i])
  }

  class Server {
    const uid: nat
    const gid: nat
    var disk: Disk

    constructor (uid: nat, gid: nat, disk: Disk)
      ensures this.uid == uid && this.gid == gid && this.disk == disk
    {
      this.uid, this.gid, this.disk := uid, gid, disk;
    }

    /** replace_file: keep mode and owner of the given original, or start with the default ones. */
    method ReplaceFile(p: Path, content: string, metadata: Option<File>, mode: nat) returns (ghost op: Op)
      modifies this
      ensures op.Put? && op.path == p && op.file.content == content && disk == old(disk)[p := op.file]
      ensures op.file == if metadata.Some? then metadata.value.(content := content) else File(content, mode, uid, gid)
    {
      var f := if metadata.Some? then metadata.value.(content := content) else File(content, mode, uid, gid);
      op := Put(p, f);
      disk := disk[p := f];
    }

    /** The apply section of _repair.  `failAt` is the replacement that raises (4: none does), `undoFailsAt` the
        target whose rollback raises, and `budget` the number of file operations before the process is killed. */
    method Apply(contents: map<Path, string>, failAt: nat, undoFailsAt: nat, budget: nat) returns (end: End, ghost ops: seq<Op>)
      requires forall p :: IsTarget(p) <==> p in contents
      modifies this
      ensures AllHarmless(BackupOf(old(disk), contents), ops) && disk == Exec(old(disk), ops)
      ensures end == Done ==> SameOutside(old(disk), disk, COUNT) && AppliedUpTo(old(disk), disk, contents, COUNT, uid, gid)
      ensures end == Done || end == Failed || end == Broken || end == Killed
      ensures end == Failed ==> disk == old(disk)
      ensures end == Broken ==> SameOutside(old(disk), disk, undoFailsAt + 1)
      ensures end == Done <==> failAt >= COUNT && budget >= COUNT
      ensures end == Failed <==> failAt < COUNT && failAt <= undoFailsAt && budget >= 2 * failAt
      ensures end == Broken <==> undoFailsAt < failAt < COUNT && budget >= 2 * failAt - undoFailsAt
    {
      var before, left := disk, budget;
      ghost var b := BackupOf(before, contents);
      var n: nat := 0;  // the first n targets are applied
      ops := [];
      while n < COUNT && n != failAt
        invariant n <= COUNT && n <= failAt && n + left == budget && AllHarmless(b, ops) && disk == Exec(before, ops)
        invariant SameOutside(before, disk, n) && AppliedUpTo(before, disk, contents, n, uid, gid)
      {
        if left == 0 { return Killed, ops; }
        left := left - 1;
        ghost var was := disk;
        var p := Target(n);
        var metadata := if p in before then Some(before[p]) else None;
        ghost var op := ReplaceFile(p, contents[p], metadata, if p == Crl then CRL_MODE else PRIVATE_MODE);
        NewVersionHarmless(before, contents, op);
        HarmlessSnoc(b, before, ops, op);
        AppliedNext(before, was, contents, n, uid, gid);
        ops := ops + [op];
        n := n + 1;
      }
      if n == COUNT { return Done, ops; }
      end, ops := RollBack(before, b, contents, n, undoFailsAt, left, ops);
    }

    /** Undo the applied replacements in reverse order. */
    method RollBack(before: Disk, ghost b: Backup, ghost contents: map<Path, string>, count: nat, failsAt: nat, budget: nat,
                    ghost applied: seq<Op>)
      returns (end: End, ghost ops: seq<Op>)
      requires count <= COUNT && SameOutside(before, disk, count) && b == BackupOf(before, contents)
      requires AllHarmless(b, applied) && disk == Exec(before, applied)
      modifies this
      ensures AllHarmless(b, ops) && disk == Exec(before, ops)
      ensures end == Failed || end == Broken || end == Killed
      ensures end == Failed ==> disk == before
      ensures end == Broken ==> SameOutside(before, disk, failsAt + 1)
      ensures end == Failed <==> count <= failsAt && budget >= count
      ensures end == Broken <==> failsAt < count && budget >= count - failsAt
    {
      var n: nat, left := count, budget;
      ops := applied;
      while n > 0
        invariant n <= count && count - n + left == budget && AllHarmless(b, ops) && disk == Exec(before, ops)
        invariant SameOutside(before, disk, n) && (failsAt < count ==> failsAt < n)
      {
        if left == 0 { return Killed, ops; }
        if n - 1 == failsAt { return Broken, ops; }
        left := left - 1;
        n := n - 1;
        var p := Target(n);
        RankTarget(n);
        ghost var op := Drop(p);
        if p in before {
          op := ReplaceFile(p, before[p].content, Some(before[p]), 0);
        } else {
          disk := disk - {p};
        }
        OldVersionHarmless(before, contents, op);
        HarmlessSnoc(b, before, ops, op);
        ops := ops + [op];
      }
      SameEverywhere(before, disk);
      return Failed, ops;
    }

    /** restore: check everything first, then put every target back. */
    method Restore(b: Backup, keysUnchanged: bool, budget: nat) returns (end: End, ghost ops: seq<Op>)
      modifies this
      ensures end == Refused <==> !(keysUnchanged && AllKnown(b, old(disk)) && Intact(b))
      ensures end == Refused ==> disk == old(disk)
      ensures AllHarmless(b, ops) && disk == Exec(old(disk), ops)
      ensures end == Done ==> disk == Restored(b, old(disk))
      ensures end == Done || end == Killed || end == Refused
    {
      ops := [];
      if !keysUnchanged || !AllKnown(b, disk) || !Intact(b) { return Refused, ops; }
      ghost var start := disk;
      var left := budget;
      for i := 0 to COUNT
        invariant AllHarmless(b, ops) && disk == Exec(start, ops)
        invariant disk == RestoredUpTo(b, start, i)
      {
        var p := Target(i);
        if left == 0 { return Killed, ops; }
        left := left - 1;
        ghost var op := Drop(p);
        ghost var was := disk;
        if p !in b.before {
          disk := disk - {p};
          HarmlessSnoc(b, start, ops, op);
          ops := ops + [op];
        } else {
          op := ReplaceFile(p, b.saved[p], None, b.before[p].mode);
          SavedHarmless(b, op);
          HarmlessSnoc(b, start, ops, op);
          ops := ops + [op];
          if left == 0 { return Killed, ops; }
          left := left - 1;
          ghost var first := op.file;
          op := Put(p, disk[p].(uid := b.before[p].uid, gid := b.before[p].gid));
          SavedHarmless(b, op);
          HarmlessSnoc(b, start, ops, op);
          ops := ops + [op];
          disk := disk[p := disk[p].(uid := b.before[p].uid, gid := b.before[p].gid)];
          PutTwice(was, p, first, op.file, disk);
        }
      }
      return Done, ops;
    }
  }

  lemma ExecSnoc(d: Disk, ops: seq<Op>, op: Op)
    ensures Exec(d, ops + [op]) == Perform(Exec(d, ops), op)
  {
    assert (ops + [op])[..|ops|] == ops;
  }

  /** The two disks agree on every file but the first n targets. */
  ghost predicate SameOutside(a: Disk, b: Disk, n: nat) {
    forall p :: Rank(p) >= n ==> (p in b <==> p in a) && (p in a ==> b[p] == a[p])
  }

  /** A replaced target: new content with the old mode and owner, or the default ones for a new file. */
  function NewFile(before: Disk, p: Path, content: string, uid: nat, gid: nat): File {
    if p in before then before[p].(content := content)
    else File(content, if p == Crl then CRL_MODE else PRIVATE_MODE, uid, gid)
  }

  ghost predicate AppliedUpTo(before: Disk, d: Disk, contents: map<Path, string>, n: nat, uid: nat, gid: nat) {
    forall p :: p in contents && Rank(p) < n ==> p in d && d[p] == NewFile(before, p, contents[p], uid, gid)
  }

  lemma AppliedNext(before: Disk, d: Disk, contents: map<Path, string>, n: nat, uid: nat, gid: nat)
    requires n < COUNT && Target(n) in contents
    requires SameOutside(before, d, n) && AppliedUpTo(before, d, contents, n, uid, gid)
    ensures var next := d[Target(n) := NewFile(before, Target(n), contents[Target(n)], uid, gid)];
            SameOutside(before, next, n + 1) && AppliedUpTo(before, next, contents, n + 1, uid, gid)
  {
    RankTarget(n);
  }

  lemma SameEverywhere(a: Disk, b: Disk)
    requires SameOutside(a, b, 0)
    ensures a == b
  {
    assert forall p :: Rank(p) >= 0 ==> (p in b <==> p in a);
  }

  lemma RankTarget(n: nat)
    requires n < COUNT
    ensures forall p :: Rank(p) == n <==> p == Target(n)
  {
  }

  lemma HarmlessSnoc(b: Backup, d: Disk, ops: seq<Op>, op: Op)
    requires AllHarmless(b, ops) && Harmless(b, op)
    ensures AllHarmless(b, ops + [op]) && Exec(d, ops + [op]) == Perform(Exec(d, ops), op)
  {
    ExecSnoc(d, ops, op);
  }

  lemma SavedHarmless(b: Backup, op: Op)
    requires Intact(b) && op.Put? && IsTarget(op.path) && op.path in b.before && op.file.content == b.saved[op.path]
    ensures Harmless(b, op)
  {
  }

  lemma PutTwice(d: Disk, p: Path, g: File, f: File, next: Disk)
    requires next == d[p := g][p := f]
    ensures next == d[p := f]
  {
  }

  lemma NewVersionHarmless(before: Disk, contents: map<Path, string>, op: Op)
    requires op.Put? && IsTarget(op.path) && op.path in contents && op.file.content == contents[op.path]
    ensures Harmless(BackupOf(before, contents), op)
  {
  }

  lemma OldVersionHarmless(before: Disk, contents: map<Path, string>, op: Op)
    requires IsTarget(op.path)
    requires if op.path in before then op == Put(op.path, before[op.path]) else op.Drop?
    ensures Harmless(BackupOf(before, contents), op)
  {
  }

  /** What a completed restore leaves: every target as before the change. */
  function RestoredUpTo(b: Backup, d: Disk, n: nat): Disk
    requires Intact(b) && n <= COUNT
  {
    if n == 0 then d
    else
      var p := Target(n - 1);
      var rest := RestoredUpTo(b, d, n - 1);
      if p in b.before then rest[p := OriginalFile(b, p)] else rest - {p}
  }

  function Restored(b: Backup, d: Disk): Disk
    requires Intact(b)
  {
    RestoredUpTo(b, d, COUNT)
  }

  // ----- Recovery -----

  /** Files other than the four targets are never touched, and every target stays in a known state. */
  lemma {:induction false} HarmlessRun(b: Backup, d: Disk, ops: seq<Op>)
    requires AllKnown(b, d) && AllHarmless(b, ops)
    ensures AllKnown(b, Exec(d, ops))
    ensures forall p :: !IsTarget(p) ==> (p in Exec(d, ops) <==> p in d) && (p in d ==> Exec(d, ops)[p] == d[p])
  {
    if ops != [] {
      HarmlessRun(b, d, ops[..|ops| - 1]);
      assert Harmless(b, ops[|ops| - 1]);
    }
  }

  lemma RestoredSpec(b: Backup, d: Disk)
    requires Intact(b)
    ensures forall p :: IsTarget(p) ==> (p in Restored(b, d) <==> p in b.before)
    ensures forall p :: IsTarget(p) && p in b.before ==> Restored(b, d)[p] == OriginalFile(b, p)
    ensures forall p :: !IsTarget(p) ==> (p in Restored(b, d) <==> p in d) && (p in d ==> Restored(b, d)[p] == d[p])
  {
    RestoredPart(b, d, COUNT);
  }

  lemma RestoredOne(b: Backup, d: Disk, r: Disk, n: nat)
    requires Intact(b) && n < COUNT
    requires forall p :: Rank(p) < n ==> (p in r <==> p in b.before)
    requires forall p :: Rank(p) < n && p in b.before ==> r[p] == OriginalFile(b, p)
    requires forall p :: Rank(p) >= n ==> (p in r <==> p in d) && (p in d ==> r[p] == d[p])
    ensures var p := Target(n);
            var next := if p in b.before then r[p := OriginalFile(b, p)] else r - {p};
            && (forall q :: Rank(q) <= n ==> (q in next <==> q in b.before))
            && (forall q :: Rank(q) <= n && q in b.before ==> next[q] == OriginalFile(b, q))
            && (forall q :: Rank(q) > n ==> (q in next <==> q in d) && (q in d ==> next[q] == d[q]))
  {
    RankTarget(n);
  }

  lemma {:induction false} RestoredPart(b: Backup, d: Disk, n: nat)
    requires Intact(b) && n <= COUNT
    ensures var r := RestoredUpTo(b, d, n);
            && (forall p :: Rank(p) < n ==> (p in r <==> p in b.before))
            && (forall p :: Rank(p) < n && p in b.before ==> r[p] == OriginalFile(b, p))
            && (forall p :: Rank(p) >= n ==> (p in r <==> p in d) && (p in d ==> r[p] == d[p]))
  {
    if n > 0 {
      RestoredPart(b, d, n - 1);
      RestoredOne(b, d, RestoredUpTo(b, d, n - 1), n - 1);
    }
  }

  /** From the state reached by any prefix of a change, of its rollback and of earlier restores, a
      completed restore brings back the disk exactly as it was: contents, modes, owners, absences. */
  lemma RestoreUndoesEverything(start: Disk, contents: map<Path, string>, ops: seq<Op>)
    requires AllHarmless(BackupOf(start, contents), ops)
    ensures var b := BackupOf(start, contents);
            Intact(b) && AllKnown(b, Exec(start, ops)) && Restored(b, Exec(start, ops)) == start
  {
    var b := BackupOf(start, contents);
    HarmlessRun(b, start, ops);
    RestoredSpec(b, Exec(start, ops));
    var r := Restored(b, Exec(start, ops));
    forall p ensures (p in r <==> p in start) && (p in start ==> r[p] == start[p]) {}
  }

  /** Restoring twice is restoring once, and a restored disk is accepted again. */
  lemma RestoreIdempotent(b: Backup, d: Disk)
    requires Intact(b)
    ensures Restored(b, Restored(b, d)) == Restored(b, d) && AllKnown(b, Restored(b, d))
  {
    RestoredSpec(b, d);
    RestoredSpec(b, Restored(b, d));
    var r, s := Restored(b, d), Restored(b, Restored(b, d));
    forall p ensures (p in s <==> p in r) && (p in r ==> s[p] == r[p]) {}
  }

  lemma {:induction false} ExecAppend(d: Disk, a: seq<Op>, ops: seq<Op>)
    ensures Exec(d, a + ops) == Exec(Exec(d, a), ops)
    decreases |ops|
  {
    if ops == [] {
      assert a + ops == a;
    } else {
      assert (a + ops)[..|a + ops| - 1] == a + ops[..|ops| - 1];
      ExecAppend(d, a, ops[..|ops| - 1]);
    }
  }

  /** The operations of successive interrupted runs count together: after a change and any number of
      restores, each stopped anywhere, the next restore is accepted and recovers the start. */
  lemma RecoverAfterAnyStops(start: Disk, contents: map<Path, string>, change: seq<Op>, restores: seq<Op>)
    requires var b := BackupOf(start, contents); AllHarmless(b, change) && AllHarmless(b, restores)
    ensures var b, d := BackupOf(start, contents), Exec(Exec(start, change), restores);
            Intact(b) && AllKnown(b, d) && Restored(b, d) == start
  {
    ExecAppend(start, change, restores);
    RestoreUndoesEverything(start, contents, change + restores);
  }
}
