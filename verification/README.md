# Cloud SOC: verified model

This project models, in Dafny, the parts of the Cloud SOC repository whose state can go wrong: the
dashboard's grid engine and edit session, the live refresh of a page and its polling protocol, the evidence
store of the Windows discovery agent, the crash-prone local state machines (collection policy, enrollment TLS
repair, collector installation and removal), the scenario collector's framing, grouping and outbox, the
calendar arithmetic of the access-log script, and the page window of the log viewer.

`dafny verify dfyconfig.toml` checks everything.

Each file is one module and stands for one component:

| file | component |
|---|---|
| `grid.dfy` | rectangles on 12 columns: `compact`, `place`, `relocate` |
| `builder.dfy` | the edit session over layouts: remember, update, undo, begin, cancel, switch |
| `reconcile.dfy` | keyed reconciliation of child lists: `patch`, `children` |
| `poller.dfy` | the ticket protocol of `create` |
| `diagnostic.dfy` | locating the event in an indexing diagnostic: `ObjectEnd`, `EventJson` |
| `redaction.dfy` | the canonicalising redactor `Clean` |
| `retention.dfy` | the bounded store of `Collect` |
| `policytext.dfy`, `policystore.dfy` | the versioned collection policy: text format, and updates with crashes |
| `tlsrepair.dfy` | the four-file TLS change, its rollback and its explicit restore |
| `collectordisk.dfy` | the files and services that the collector's local tools share, and single operations on them |
| `enrollment.dfy`, `attempts.dfy`, `recovery.dfy` | retire, install, fail, re-enroll; what is left wherever these stop |
| `removal.dfy`, `removalstops.dfy` | uninstall and purge; what is left wherever an uninstallation stops |
| `commands.dfy`, `purgeruns.dfy`, `purgereach.dfy` | whole runs of these commands; purges that are rerun |
| `framing.dfy`, `audit.dfy`, `outbox.dfy` | the streaming collector |
| `calendar.dfy` | `occurred` |
| `logpages.dfy` | the cursor page window |

Code that changes state is a class, or methods over a `Machine`, proved against a specification function; the
properties are lemmas about that function, stated for every input or every run. Crashes are explicit: a `fuse`
or `budget` is the number of operations performed before the process ends, `stop` names the place, and
`torn` or `Remnant` say what a half-done write or recursive removal leaves. A killed process leaves the services as
they are, and between commands services in place may start and stop for any reason. In `collectordisk.dfy` the sets
`collected`, `purged` and `probed` keep the account the invariant is about; no guard of a command reads them.

The main results:

- Layout: `Grid.RelocateSpec` and `Grid.RelocateRefused` for `Grid.Relocate`, `Grid.CompactSpec`, `Builder.EditStorable`, `Builder.UndoRestores`.
- Live refresh: `Reconcile.Children` with `Reconcile.ReconciledShows`, `Reconcile.SecondRunIsIdle` and `Reconcile.NoIdentityTwice`; `Poller.EveryRun` and `Poller.SupersededNeverApplies`.
- Evidence store: `Diagnostic.ObjectEndExact`, `Diagnostic.EventJsonExact`, `Redaction.CanonicalIffSameContent`, `Redaction.CleanTwice`, `Retention.NewestRetained`.
- Local state machines: `PolicyText.RoundTrip`, `PolicyText.AcceptedPaths`, `PolicyStore.FreshRuns`, `TlsRepair.RecoverAfterAnyStops`, `Commands.RunKeepsData`, `Commands.ReceiptAfterProbe`, `PurgeRuns.PurgeEndsDeleted`, `PurgeReach.EveryPurgeEnds`, `Recovery.InstallStopped` and `Recovery.InstallKilled`, `Recovery.ReenrollStopped` and `Recovery.ReenrollKilled`, `RemovalStops.UninstallStopped`.
- Collector and scripts: `Framing.HandledIsNewlineSplit`, `AuditGroups.InExactlyOneGroup`, `Outbox.DeliveredIsCentral`, `Calendar.OccurredExact`, `LogPages.EveryWindow`.

Results that differ from what one might expect of the code:

- `relocate` needs the moved id to be unique: with a repeated id the second widget is never put down and can
  be covered (`Grid.RepeatedIdCanOverlap`). The portal refuses to store such layouts
  (src/cloud_soc/portal/dashboard_widgets.py:113).
- A widget that already lies below row 240 and is not pushed stays there, so `relocate` bounds only rows it changes.
- A draft's name can be emptied, which the portal then refuses to store (`Builder.EmptyNameNotStorable`).
- A policy path under a forbidden directory is accepted when written with two leading slashes
  (`PolicyText.DoubleSlashAccepted`).
- A kill inside the write of a history file, and nothing else, blocks all later policy publications
  (`PolicyStore.TornExactly`, `PolicyStore.TornArchiveBlocks`).
- An installation or re-enrollment cannot be re-enrolled when it stopped between making a root and marking it; when
  it was killed over intact roots after a configuration changed and before its own record; or while a unit of the
  bundle is active, as after a kill between the start of the services and the end, or an exception after the verified
  probe (`Recovery.KilledBeforeMark`, `Recovery.KilledAfterMarker`, `Recovery.KilledWhileRunning`,
  `Recovery.FailedAfterProbe`). Once a record is written every other stop can, and a recorded failure leaves no unit
  active. Before the completion receipt is written, nothing in these tools stops the services again: the stop action
  needs that receipt.
- An uninstallation stopped after making its archive and before its last operation record blocks every later
  fresh installation (`Commands.StuckForGood`). Before its first unit has gone it can be run again. Stopped between
  its last operation record and managed-local.json it can be neither continued nor purged; a deletion then no longer
  blocks a fresh installation, while preserved data does (`RemovalStops.UninstallStopped`,
  `RemovalStops.KilledBeforeLocal`). In none of these is data lost, except what a confirmed deletion gives up.
- Beside a pending record that describes no files, a re-enrollment would be accepted while preserved data waits to be
  purged, and would block the purge (`PurgeReach.ReenrollBlocksPurge`). From a new machine this is never reached,
  because every enrollment brings a new owner id and a new probe marker (`PurgeReach.PurgeableWaits`).

## Model

| member | source | states |
|---|---|---|
| `Grid.Relocate` | prototype/dashboard-widgets.js:26-48 | the loop that jumps to the lowest blocker bottom terminates and returns exactly what a row-by-row search returns, null cases included |
| `Grid.RowScanLeast` | prototype/dashboard-widgets.js:42-46 | the row-by-row reference stops at the least row, not above the widget's own, that is free of everything placed before it |
| `Grid.JumpMissesNothing` | prototype/dashboard-widgets.js:44 | every row skipped by one jump is blocked, so jumping and searching row by row end in the same row |
| `Grid.Landing` | prototype/dashboard-widgets.js:29-39 | an accepted drop keeps size, id and config and lies inside the 12 columns and rows 0 to 240 |
| `Grid.DropBeside` | prototype/dashboard-widgets.js:29-37 | where a drop before or after another widget lands, and exactly when a drop after a full row is refused |
| `Grid.SettleFirstFit` | prototype/dashboard-widgets.js:41-46 | each pushed widget ends in its first free row with respect to the final places of the moved widget and of the widgets settled before it |
| `Grid.SettleFails` | prototype/dashboard-widgets.js:44 | settling fails exactly when some widget has no free row up to 240 after the earlier ones settled |
| `Grid.SettledOverlapFree` | prototype/dashboard-widgets.js:40-46 | a layout in which every widget is first-fit has no two overlapping widgets |
| `Grid.MovedSpec` | prototype/dashboard-widgets.js:40-46 | the moved widget stays where it landed and all others settle first-fit in reading order |
| `Grid.RelocateSpec` | prototype/dashboard-widgets.js:26-48 | every non-null result is overlap-free, in reading order and the same multiset of widgets up to place; the moved one is at its destination; no other widget changes column or moves up, and none is pushed past row 240 |
| `Grid.RelocateRefused` | prototype/dashboard-widgets.js:28-44 | null is returned exactly when the widget is unknown, the drop is refused, or some widget has no room |
| `Grid.DropInPlace` | prototype/dashboard-widgets.js:26-48 | on an overlap-free layout, dropping a widget where it is only sorts the list |
| `Grid.RepeatedIdCanOverlap` | prototype/dashboard-widgets.js:41 | a concrete layout with a repeated id for which the result overlaps: the uniqueness of the moved id is needed |
| `Grid.PlaceSpec` | prototype/dashboard-widgets.js:19-24 | a placement or resize of an overlap-free layout succeeds exactly when the changed widget fits and overlaps nothing, and changes that widget alone |
| `Grid.ArrangeSpec` | prototype/dashboard-widgets.js:47 | the stable sort keeps the multiset of widgets, their ids and overlap-freedom, and yields reading order |
| `Grid.ArrangeIdempotent` | prototype/dashboard-widgets.js:47 | sorting a sorted layout changes nothing |
| `Grid.Compact` | prototype/dashboard-widgets.js:13-17 | the in-place pass over the array leaves exactly the shelf packing of its old contents |
| `Grid.CompactSpec` | prototype/dashboard-widgets.js:13-17 | shelf packing keeps list order, sizes and ids, overlaps nothing and stays within 12 columns |
| `Grid.CompactIdempotent` | prototype/dashboard-widgets.js:13-17 | packing twice is packing once |
| `Grid.CompactDepth` | prototype/dashboard-widgets.js:13-17 | a packed layout is at most as deep as its number of widgets times the tallest one |
| `Builder.Editor.Remember` | prototype/dashboard-builder.js:14 | the current layout is appended to the history, and the oldest of more than 30 is dropped |
| `Builder.Editor.Update` | prototype/dashboard-builder.js:15 | add, remove, configure, reset and rename: the previous layout is remembered, the edit applied and the grid reflowed when asked, unless locked |
| `Builder.Editor.FinishMove` | prototype/dashboard-builder.js:71-77 | a candidate is taken and the old layout remembered exactly when it changes some place or size |
| `Builder.Editor.Drop` | prototype/dashboard-builder.js:71-77 | a drop is one step of the edit session with the relocated layout as candidate |
| `Builder.Editor.UndoLast` | prototype/dashboard-builder.js:298 | undo pops the last remembered layout, or does nothing when there is none or the editor is locked |
| `Builder.Editor.BeginEditing` | prototype/dashboard-builder.js:38 | a session starts with the shown layout as baseline and an empty history |
| `Builder.Editor.CancelEditing` | prototype/dashboard-builder.js:39 | cancel goes back to the baseline and forgets the history |
| `Builder.Editor.OnTheme` | prototype/dashboard-builder.js:306 | switching the theme changes the draft and is not remembered |
| `Builder.EditStorable` | src/cloud_soc/portal/dashboard_widgets.py:101-136 | a layout the portal would store, once edited, would be stored exactly when the typed-in name or widget settings pass the portal's own checks |
| `Builder.EmptyNameNotStorable` | prototype/dashboard-builder.js:301 | an emptied name is taken by the draft and refused by the portal |
| `Builder.EditValid` | prototype/dashboard-builder.js:53 | every edit the controls offer keeps geometry, widget count, ids, period and theme as the portal demands them, whatever text was typed in |
| `Builder.LegacyValid` | src/cloud_soc/portal/dashboards.py:83-98 | the legacy layout, which a reset may take and which is never checked, keeps geometry, widget count, ids, period and theme as the portal demands them |
| `Builder.RunStaysValid` | src/cloud_soc/portal/dashboard_widgets.py:101-124 | over every run of edits, moves, undos, theme changes, cancels, saves and switches this holds of the draft, the baseline and every undo entry, and the history has at most 30 entries |
| `Builder.RunStaysStorable` | src/cloud_soc/portal/dashboard_widgets.py:101-136 | while every text typed in, and the name of every layout switched to, is acceptable, the draft, the baseline and every undo entry are layouts the portal would store |
| `Builder.EditsRemembered` | prototype/dashboard-builder.js:14-15 | after k edits the last k history entries are, one by one, the layouts the edits started from |
| `Builder.UndoRestores` | prototype/dashboard-builder.js:298 | k edits (at most 30) followed by k undos restore the starting layout |
| `Builder.UndoIsBounded` | prototype/dashboard-builder.js:14 | after 31 edits, 31 undos stop one edit short of the start |
| `Builder.CancelRestores` | prototype/dashboard-builder.js:39 | cancelling restores the layout the session began with, whatever happened in between |
| `Reconcile.Children` | prototype/live-refresh.js:13-22 | the loop over the live child list, moving, inserting, patching and removing nodes, produces exactly the reconciliation defined by occurrence counts |
| `Reconcile.Patch` | prototype/live-refresh.js:5-12 | one node is patched as the reference says, to every depth |
| `Reconcile.PatchAttrs` | prototype/live-refresh.js:9-10 | attributes become the fresh ones, except that `open` keeps its old value |
| `Reconcile.FindMatch` | prototype/live-refresh.js:17 | the match is the first unused live node with the same key, or of the same unkeyed kind |
| `Reconcile.RemoveUnused` | prototype/live-refresh.js:21 | exactly the live nodes that served no position are removed |
| `Reconcile.ReconciledShows` | prototype/live-refresh.js:13-22 | the result equals the fresh tree position by position and at every depth, up to `open` |
| `Reconcile.ServedOnce` | prototype/live-refresh.js:17-18 | no live node serves two positions |
| `Reconcile.IdentityAt` | prototype/live-refresh.js:17-19 | every position keeps the identity of its live node when there is one of the same kind, and takes the fresh node otherwise |
| `Reconcile.KeyedNodeKept` | prototype/live-refresh.js:17-18 | a node whose key occurs once on either side keeps its identity wherever it moves |
| `Reconcile.SecondRunIsIdle` | prototype/live-refresh.js:13-22 | a second run against an equal tree changes nothing, identities included |
| `Reconcile.RefreshIdempotent` | prototype/live-refresh.js:13-22 | refreshing twice with equal content is refreshing once |
| `Reconcile.ReconciledOccurs` | prototype/live-refresh.js:14-20 | at every turn of the loop no identity is held more often than the live and fresh lists held it |
| `Reconcile.NoIdentityTwice` | prototype/live-refresh.js:13-22 | no node occurs twice in the result and none comes from elsewhere |
| `Poller.Live.Cancel` | prototype/live-refresh.js:36 | cancel supersedes the current ticket, aborts its request and disarms the timer |
| `Poller.Live.Schedule` | prototype/live-refresh.js:37 | the timer is armed only while running and visible |
| `Poller.Live.StartRefresh` | prototype/live-refresh.js:38-40 | a refresh either only re-arms the timer or supersedes the running request with a new ticket |
| `Poller.Live.OnLoaded` | prototype/live-refresh.js:43-45 | a loaded value is applied only for the current, live, unaborted ticket |
| `Poller.Live.OnFinished` | prototype/live-refresh.js:46-49 | only the current ticket resets the failures and re-arms the timer |
| `Poller.Live.OnFailed` | prototype/live-refresh.js:48-49 | only the current ticket counts a failure |
| `Poller.Live.OnToggle` | prototype/live-refresh.js:52 | pausing and resuming supersede the running request |
| `Poller.Live.OnVisibility` | prototype/live-refresh.js:51 | hiding and showing the tab supersede the running request |
| `Poller.Live.OnDispose` | prototype/live-refresh.js:54 | dispose supersedes the running request for good |
| `Poller.EveryRun` | prototype/live-refresh.js:28-57 | in every run from the start the tickets applied are strictly increasing, at most one request is not aborted, and no armed delay exceeds 60 s |
| `Poller.AppliedIsCurrent` | prototype/live-refresh.js:44-45 | a value is applied only for the newest request, an automatic one only while visible and not paused |
| `Poller.NeverAppliedLater` | prototype/live-refresh.js:44 | once a ticket is not current any more no later event applies it |
| `Poller.SupersededNeverApplies` | prototype/live-refresh.js:36-54 | a pause, hidden tab, newer refresh, cancel or dispose keeps the values of earlier requests out for ever |
| `Poller.NothingAfterDispose` | prototype/live-refresh.js:54 | after dispose nothing is applied and no timer is armed |
| `Poller.PollingNeverStalls` | prototype/live-refresh.js:37-52 | without an explicit cancel call, a visible running poller always has a timer or a live request |
| `Diagnostic.ObjectEnd` | deploy/agents/discovery-native.cs:539-556 | the scanning loop computes the fold over quoted, escaped and depth |
| `Diagnostic.ValueNeutral` | deploy/agents/discovery-native.cs:542-554 | every JSON value (RFC 8259, any nesting, blanks and escapes) leaves the scanner at the depth it started from |
| `Diagnostic.ObjectEndExact` | deploy/agents/discovery-native.cs:539-556 | the scanner stops exactly at the closing brace of any JSON object, whatever precedes or follows |
| `Diagnostic.AfterEventExact` | deploy/agents/discovery-native.cs:562-569 | all three Meta framings are skipped exactly |
| `Diagnostic.EventJsonExact` | deploy/agents/discovery-native.cs:558-572 | the embedded event is returned exactly for no Meta, `Meta: none` and a Meta object |
| `Diagnostic.EventJsonSound` | deploy/agents/discovery-native.cs:558-572 | whatever is returned follows the marker and is one balanced text that the scanner first closes at its last character |
| `Redaction.Clean` | deploy/agents/discovery-native.cs:517-535 | the recursive cleaner with its shared node counter succeeds exactly within 4096 nodes and depth 12, and then yields the canonical redaction and the exact count |
| `Redaction.CleanMap` | deploy/agents/discovery-native.cs:519-527 | the same for one map: fields in order, dropped keys not counted |
| `Redaction.CleanList` | deploy/agents/discovery-native.cs:529-533 | the same for one list |
| `Redaction.CanonSafe` | deploy/agents/discovery-native.cs:522-528 | the result has no secret key, no secret text and no over-long string, and every map is sorted |
| `Redaction.SafeIsCanonical` | deploy/agents/discovery-native.cs:517-535 | a tree already safe and sorted is left alone |
| `Redaction.CanonBudget` | deploy/agents/discovery-native.cs:518 | cleaning keeps the node count and the depth the budget is charged with |
| `Redaction.CleanTwice` | deploy/agents/discovery-native.cs:517-535 | cleaning is idempotent, budget included |
| `Redaction.MeaningCanon` | deploy/agents/discovery-native.cs:521-526 | the cleaned tree holds exactly the redacted content of the input read as unordered maps |
| `Redaction.SortedUnique` | deploy/agents/discovery-native.cs:521 | two safe trees with the same content are the same tree |
| `Redaction.CanonicalIffSameContent` | deploy/agents/discovery-native.cs:517-535 | two events have the same cleaned tree exactly when they have the same redacted content |
| `Redaction.FieldOrderIrrelevant` | deploy/agents/discovery-native.cs:521-526 | maps that differ only in field order give the same output and the same budget verdict |
| `Retention.Store.Load` | deploy/agents/discovery-native.cs:625-639 | the manifest is accepted exactly when it has at most 2000 records and no repeated unexpired id, and then exactly the unexpired ones are held |
| `Retention.Store.FindOldest` | deploy/agents/discovery-native.cs:671 | the record chosen for eviction is the least by time, then id |
| `Retention.Store.Admit` | deploy/agents/discovery-native.cs:666-675 | one diagnostic: a held id only counts as duplicate and keeps its time; a full store refuses or evicts; flags and counters follow |
| `Retention.Store.Collect` | deploy/agents/discovery-native.cs:661-676 | the scan is a run of such steps |
| `Retention.Store.Manifest` | deploy/agents/discovery-native.cs:680 | the manifest lists exactly the held records, newest first: the final truncation drops nothing |
| `Retention.ScanBounded` | deploy/agents/discovery-native.cs:661-676 | the store never exceeds the limit and never shrinks during a scan |
| `Retention.OldestNeverDecreases` | deploy/agents/discovery-native.cs:669-675 | once the store is full its oldest time never decreases |
| `Retention.NewestRetained` | deploy/agents/discovery-native.cs:669-681 | everything refused or evicted is no newer than everything retained at any later point |
| `Retention.NoSilentLoss` | deploy/agents/discovery-native.cs:666-675 | a record ever held is held at the end or was evicted as such |
| `Retention.EveryRecordAccounted` | deploy/agents/discovery-native.cs:661-676 | every diagnostic scanned is a duplicate, is retained, or was lost to a newer one |
| `PolicyText.NormalizeAll` | deploy/agents/policy.py:28-55 | the loop over one list of paths accepts and canonicalises as the reference does, duplicates refused |
| `PolicyText.CanonicalFixed` | deploy/agents/policy.py:31-51 | normalising a canonical Linux path leaves it alone, two leading slashes included |
| `PolicyText.ParseOfShow` | deploy/agents/policy.py:36-41 | a path printed and parsed again is the same path |
| `PolicyText.AcceptedPaths` | deploy/agents/policy.py:31-51 | a well-formed path is accepted exactly when its names lie under no forbidden directory or it is written with two leading slashes |
| `PolicyText.UnderTop` | deploy/agents/policy.py:49-51 | as text, a path is a directory or lies in it exactly when its names begin with the directory's names |
| `PolicyText.DoubleSlashAccepted` | deploy/agents/policy.py:41-51 | every path of two names or more under a forbidden directory is accepted when written with two slashes and refused when written with one |
| `PolicyText.ValidateFixed` | deploy/agents/policy.py:21-59 | validation is idempotent |
| `PolicyText.ReadRecords` | deploy/agents/policy.py:71-76 | the record loop reads roots and exclusions in order and refuses any other line |
| `PolicyText.RoundTrip` | deploy/agents/policy.py:62-77 | decode(encode(p, v)) is exactly the canonical policy and version, up to version 999999999 |
| `PolicyText.EncodeInjective` | deploy/agents/policy.py:62-64 | different canonical policies or versions never share a text |
| `PolicyText.DecodeSound` | deploy/agents/policy.py:67-77 | whatever decodes is canonical and has a version of at most nine digits |
| `PolicyText.EncodedFits` | deploy/agents/policy.py:109-110 | an encoded policy is never too large to be read back |
| `PolicyStore.LinuxLawful` | deploy/agents/policy.py:21-77 | the Linux text format has the three laws the store relies on |
| `PolicyStore.Installation.ReadCurrent` | deploy/agents/policy.py:106-117 | the current policy is the pointer file's, or the discovery roots at version 0 |
| `PolicyStore.Installation.Update` | deploy/agents/policy.py:120-179 | one command under the lock, stopped anywhere, performs exactly the specified attempt |
| `PolicyStore.AttemptInv` | deploy/agents/policy.py:120-179 | an attempt raises the version by exactly one or not at all, and reports an application exactly for the version it appended |
| `PolicyStore.RunInv` | deploy/agents/policy.py:120-179 | over every run with crashes the history files are the encodings of the policies once current |
| `PolicyStore.FreshRuns` | deploy/agents/policy.py:106-179 | every run from a fresh installation with valid discovery roots has a log that begins with these roots, whose last policy is current under its number and whose earlier ones are, exactly, the history files |
| `PolicyStore.FreshUnreadable` | deploy/agents/policy.py:106-117 | with invalid discovery roots nothing is ever published |
| `PolicyStore.HistoryNeverChanges` | deploy/agents/policy.py:152-161 | the history file of an earlier version never changes |
| `PolicyStore.FreshHistory` | deploy/agents/policy.py:152-161 | in every run from a fresh installation, whatever follows |
| `PolicyStore.StaleChangesNothing` | deploy/agents/policy.py:129-130 | a stale or missing expected version changes nothing |
| `PolicyStore.RollbackRestores` | deploy/agents/policy.py:132-136 | an uninterrupted rollback is applied exactly under the stated guards, and makes the policy of that version current again |
| `PolicyStore.NewPolicyApplied` | deploy/agents/policy.py:137-175 | an uninterrupted new policy is applied exactly under the stated guards, and becomes current in its canonical form |
| `PolicyStore.TornExactly` | deploy/agents/policy.py:155-161 | an attempt makes a sound history unsound exactly when it is stopped inside the write of a missing history file with something else than the whole text written |
| `PolicyStore.TornArchiveBlocks` | deploy/agents/policy.py:155-157 | such a history blocks every later publication and changes nothing else |
| `TlsRepair.Server.ReplaceFile` | deploy/server/enrollment_pki.py:90-108 | a replacement keeps mode and owner of the original given, or uses the default ones |
| `TlsRepair.Server.Apply` | deploy/server/enrollment_pki.py:217-230 | by the place of the failure, the place of a failing rollback and the number of operations left, exactly when all four files are replaced, the disk is as before, the rollback itself failed (only the targets not undone differ), or the process was killed |
| `TlsRepair.Server.RollBack` | deploy/server/enrollment_pki.py:223-230 | the applied files are undone in reverse order, up to the one whose rollback fails |
| `TlsRepair.Server.Restore` | deploy/server/enrollment_pki.py:238-275 | refused, writing nothing, exactly when a key changed, a file is neither its before nor its after version, or the backup is damaged; otherwise all four are put back unless killed |
| `TlsRepair.HarmlessRun` | deploy/server/enrollment_pki.py:217-230 | over any such operations other files are untouched and every target stays in a known version |
| `TlsRepair.RestoredSpec` | deploy/server/enrollment_pki.py:268-274 | a restored target has its earlier contents, mode and owner, or is absent as it was |
| `TlsRepair.RestoreUndoesEverything` | deploy/server/enrollment_pki.py:238-275 | from any crash point of the change, its rollback, a failed rollback or earlier restores, a completed restore gives back the starting disk |
| `TlsRepair.RestoreIdempotent` | deploy/server/enrollment_pki.py:238-275 | restoring twice is restoring once, and a restored disk is accepted again |
| `TlsRepair.RecoverAfterAnyStops` | deploy/server/enrollment_pki.py:238-275 | after a change and any number of restores, each stopped anywhere, the next restore is accepted and recovers the start |
| `CollectorDisk.PerformAccounted` | deploy/agents/enrollment-linux.py:402-470 | every single operation keeps all data in a root, an archive or a backup, unless it is a removal |
| `CollectorDisk.ExecInv` | deploy/agents/agent-manager.py:159-174 | wherever a list of operations stops the account of data and probes holds |
| `CollectorDisk.Machine.Do` | deploy/agents/enrollment-linux.py:52-68 | one operation is performed, or the process had ended |
| `Enrollment.RetireRemoved` | deploy/agents/enrollment-linux.py:183-214 | the loop over the archives, in any listing order, moves receipts as specified until one is refused or the process ends |
| `Enrollment.RetireStop` | deploy/agents/enrollment-linux.py:187-214 | wherever it stops, only receipts of finished deletions have moved |
| `Enrollment.RetireExact` | deploy/agents/enrollment-linux.py:187-214 | retiring is accepted exactly when every archive is a finished deletion whose receipt, unless taken by an earlier one, may be archived |
| `Recovery.Install` | deploy/agents/enrollment-linux.py:356-497 | a fresh installation carries out its plan; on success the receipt describes the roots as they are and the units are active; otherwise it leaves what InstallStopped says |
| `Recovery.Reenroll` | deploy/agents/enrollment-linux.py:359-497 | refused, changing nothing, exactly when the pending record does not fit the roots or a unit is active; otherwise it leaves what ReenrollStopped says |
| `Recovery.Try` | deploy/agents/enrollment-linux.py:398-494 | an exception in place of any operation of the guarded part stops the units of the marked roots and is recorded as a failure, unless the probe was verified |
| `Recovery.InstallRefused` | deploy/agents/enrollment-linux.py:363-367 | a fresh installation is refused exactly when an archive may not be retired or a pending record, a root or a unit is in place |
| `Recovery.InstallStopped` | deploy/agents/enrollment-linux.py:254-284 | killed between any two operations, or ended by an exception anywhere, a fresh installation with a pending record can be re-enrolled exactly when every existing root bears the owner's mark and no unit is active; a recorded failure leaves no unit active |
| `Recovery.InstallRuns` | deploy/agents/enrollment-linux.py:461-494 | having begun with nothing active, killed it leaves units active exactly when it had begun to start them, and ended by an exception exactly when the probe had been made |
| `Recovery.InstallKilled` | deploy/agents/enrollment-linux.py:254-284 | so, killed, it can be re-enrolled exactly when its last operation was not the making of a root and it had not begun to start its units |
| `Recovery.KilledWhileRunning` | deploy/agents/enrollment-linux.py:277-283 | a kill after the start of the services leaves marked roots, a pending record and active units, and re-enrollment refuses |
| `Recovery.FailedAfterProbe` | deploy/agents/enrollment-linux.py:466-475 | so does an exception between the verified probe and the removal of the pending record |
| `Attempts.FreshStop` | deploy/agents/install-ubuntu.sh:138-139 | a root without its mark is left exactly when the last operation performed made it; the units started are exactly those of the start operations performed |
| `Recovery.KilledBeforeMark` | deploy/agents/install-ubuntu.sh:138-139 | a kill between making the host root and marking it leaves a state that re-enrollment refuses |
| `Recovery.ReenrollStopped` | deploy/agents/enrollment-linux.py:392-494 | stopped anywhere, a re-enrollment can be repeated exactly when every existing root bears the mark and no unit is active, except one killed over intact roots before its own record: exactly when the probe marker changed no file; intact roots keep all their data |
| `Recovery.ReenrollRuns` | deploy/agents/enrollment-linux.py:461-494 | killed it leaves units active exactly when it had begun to start them, and ended by an exception exactly when the probe had been made |
| `Recovery.ReenrollKilled` | deploy/agents/enrollment-linux.py:392-471 | killed it can be repeated exactly when it had not just made a root, had not begun to start its units, and over intact roots had changed no file or written its own record |
| `Recovery.KilledAfterMarker` | deploy/agents/enrollment-linux.py:433-443 | a kill right after the first configuration changed leaves a state that cannot be re-enrolled |
| `Recovery.FailedIntact` | deploy/agents/enrollment-linux.py:254-255 | an intact failed installation, to which the previous row applies |
| `Attempts.AsideDone` | deploy/agents/enrollment-linux.py:402-414 | setting partial roots aside moves every root and unit of the bundle, unchanged, into the new backup and nothing else |
| `Attempts.TailStop` | deploy/agents/enrollment-linux.py:458-471 | the order of the starting record, the services, the probe, the completion receipt and the removal of the pending record, stopped anywhere |
| `Removal.Uninstall` | deploy/agents/agent-manager.py:115-174 | refused, changing nothing, without a single unchanged completed installation of the bundle; cancelled without DELETE; otherwise the operations in their order |
| `Removal.Purge` | deploy/agents/agent-manager.py:34-112 | already purged, refused, cancelled, or the operations of the purge in their order |
| `Removal.PurgeStop` | deploy/agents/agent-manager.py:100-111 | stopped after any number of operations a purge can be rerun, until its last record: from then on the data is deleted |
| `RemovalStops.UninstallStop` | deploy/agents/agent-manager.py:154-174 | what an uninstallation leaves after each number of its operations on files, the services being stopped before the first: records, receipts, units, roots, trees |
| `RemovalStops.UninstallStopped` | deploy/agents/agent-manager.py:115-174 | by the number of operations on files: uninstalling again is accepted exactly before the first unit has gone; purging exactly after the last operation, when no other archive is in the way; and all archives are finished deletions exactly when they were and this one was not begun or is a deletion with its last record |
| `RemovalStops.InstallAfter` | deploy/agents/enrollment-linux.py:187-214 | after a stopped uninstallation on a machine without other archives, a fresh installation is refused exactly when something is in place or it was not a deletion, of an identified device, that reached its last record |
| `RemovalStops.KilledBeforeLocal` | deploy/agents/agent-manager.py:171-174 | killed between the last operation record of a deletion and managed-local.json: no purge, no uninstallation, but a fresh installation is accepted |
| `RemovalStops.KilledAfterMkdir` | deploy/agents/agent-manager.py:159-162 | killed after making the archive directory: uninstallation is accepted again, every purge and every fresh installation is refused |
| `RemovalStops.InstalledOnly` | deploy/agents/enrollment-linux.py:467-471 | an installed machine, to which the previous rows apply |
| `Commands.Manage` | deploy/agents/agent-manager.py:198-276 | the install action with its guards |
| `Commands.Serve` | deploy/agents/agent-manager.py:182-280 | commands executed one after the other, each killed after any number of operations, with services starting and stopping in between, make a run of the specified steps |
| `Commands.RunKeepsData` | deploy/agents/agent-manager.py:97-112 | in every run from a sound disk, data collected at any time stays in a root, an archive or a backup, unless a command at which DELETE had been typed gave it up |
| `Commands.ReceiptAfterProbe` | deploy/agents/enrollment-linux.py:466-470 | in every run, a completion receipt, in place or archived, of a session not probed before exists only after a command of the run performed its probe |
| `Commands.FreshInstallGuard` | deploy/agents/enrollment-linux.py:363-367 | in every run, a fresh installation passes its guards only when every retired record is a finished deletion and nothing is in place |
| `PurgeRuns.PurgeStaysPossible` | deploy/agents/agent-manager.py:34-95 | in every run of these commands, of any bundles, each stopped anywhere, a purge that is possible stays possible until it is done, unless it starts beside a pending record of partial roots |
| `PurgeRuns.PurgeEndsDeleted` | deploy/agents/agent-manager.py:97-111 | and one confirmed removal of the bundle in it that is not interrupted ends it, for good, with the data deleted |
| `PurgeReach.PurgeableWaits` | deploy/agents/enrollment-linux.py:254-284 | in every run from a new machine, while some data can be purged no re-enrollment is accepted |
| `PurgeReach.EveryPurgeEnds` | deploy/agents/agent-manager.py:97-111 | so there, once data can be purged, one such removal deletes it, whatever happens before and after |
| `PurgeReach.ReenrollBlocksPurge` | deploy/agents/enrollment-linux.py:402-416 | the condition is needed: a re-enrollment accepted beside purgeable data takes the purge away |
| `PurgeRuns.PurgeBound` | deploy/agents/agent-manager.py:100-111 | a purge takes at most seven file operations |
| `Commands.StoppedIsStuck` | deploy/agents/agent-manager.py:159-173 | an uninstallation leaves an archive without a record or with an unfinished one exactly when it stops after making it and before its last record |
| `Commands.StuckForGood` | deploy/agents/enrollment-linux.py:188-194 | in every run such an archive keeps its record and every fresh installation is refused; without a record every purge is refused too |
| `Framing.Reader.Feed` | deploy/security-scenarios/collect.py:206-213 | one chunk: append, refuse an overlong unfinished line, cut all complete lines, drop overlong ones |
| `Framing.SplitAppend` | deploy/security-scenarios/collect.py:209-210 | splitting a concatenation continues with the unfinished rest of the first part |
| `Framing.ChunkingIrrelevant` | deploy/security-scenarios/collect.py:199-213 | unless it stopped, the lines handled are exactly the complete lines of the stream within the limit, however it is chunked |
| `Framing.StopsExactly` | deploy/security-scenarios/collect.py:207-208 | it stops exactly when a chunk without a newline leaves an unfinished line over the limit |
| `Framing.HandledIsNewlineSplit` | deploy/security-scenarios/collect.py:199-213 | for streams whose lines are within the limit, the lines handled are the newline split of the stream, for every chunking |
| `AuditGroups.Table.Finish` | deploy/security-scenarios/collect.py:186-189 | the group leaves the table before its events are emitted, so it is gone even when decoding it raises |
| `AuditGroups.Table.OnRecord` | deploy/security-scenarios/collect.py:218-227 | one record joins its group; an end record finishes it; otherwise a table over 256 groups finishes its oldest; at most 256 remain |
| `AuditGroups.Table.OnQuiet` | deploy/security-scenarios/collect.py:195-198 | a quiet input finishes the pending groups, oldest first |
| `AuditGroups.AddedConsistent` | deploy/security-scenarios/collect.py:221-223 | a record is appended to exactly one group |
| `AuditGroups.InExactlyOneGroup` | deploy/security-scenarios/collect.py:212-227 | every accepted record is in exactly one finished or pending group, with its multiplicity |
| `Outbox.AtMostOneUndelivered` | deploy/security-scenarios/collect.py:151-190 | from the control flow of startup, emission and delivery: at most one inbox row is undelivered, and it is the last |
| `Outbox.DeliveredIsCentral` | deploy/security-scenarios/collect.py:172-173 | a row marked delivered is in the central index with the body first recorded for its id |
| `Outbox.CentralFollowsEmission` | deploy/security-scenarios/collect.py:157-165 | the central index holds each id once, in the order of first emission, at most one behind |
| `Outbox.CatchesUp` | deploy/security-scenarios/collect.py:151-174 | from any reachable state a restart and one undisturbed delivery bring everything emitted into the central index and leave the program idle |
| `Calendar.FormulaCountsYears` | deploy/agents/site-privacy.js:16 | the closed DayFromYear formula of ECMA-262 5.1 section 15.9.1.3 counts the days of the years one by one |
| `Calendar.CivilOfMake` | deploy/agents/site-privacy.js:16 | the UTC fields of a time value made from a real date are that date |
| `Calendar.MakeOfCivil` | deploy/agents/site-privacy.js:16 | every time value is the one made from its own UTC fields |
| `Calendar.DateReadBack` | deploy/agents/site-privacy.js:17 | reading day and month back accepts exactly the days the month has |
| `Calendar.AcceptedIffLegal` | deploy/agents/site-privacy.js:17 | a well-formed timestamp is accepted exactly when it is a Gregorian date in 2000 to 2100 with a legal time and an offset of at most 14:00 |
| `Calendar.InstantIsUnique` | deploy/agents/site-privacy.js:18 | the instant returned is the only one whose local time at the offset is the text's |
| `Calendar.InstantCountsDays` | deploy/agents/site-privacy.js:16-18 | the instant counts whole years, months and days from 1970 |
| `Calendar.TextOfFields` | deploy/agents/site-privacy.js:12-15 | a well-formed text is the printed form of the fields read from it |
| `Calendar.FieldsOfText` | deploy/agents/site-privacy.js:12-15 | printed fields are well-formed and read back |
| `Calendar.OccurredExact` | deploy/agents/site-privacy.js:11-19 | the function accepts exactly the printed legal timestamps, and returns their instant |
| `LogPages.Viewer.OnRefresh` | prototype/logs.js:226-229 | a new query supersedes the running fetch; a query that cannot be built clears the window |
| `LogPages.Viewer.OnResponse` | prototype/logs.js:213-224 | only the current ticket's answer enters the window, replacing or extending it, the oldest page leaving beyond 20 |
| `LogPages.Viewer.OnNext` | prototype/logs.js:269-274 | the next held page is shown, or the next cursor fetched |
| `LogPages.Viewer.OnPrevious` | prototype/logs.js:275 | the previous held page is shown |
| `LogPages.Viewer.OnPageHide` | prototype/logs.js:282 | leaving the page supersedes the running fetch and clears the window |
| `LogPages.EveryWindow` | prototype/logs.js:207-225 | in every reachable state at most 20 pages are held, they are a contiguous run of one cursor chain, and the number shown is the true position in it |
| `LogPages.SupersededStaysOut` | prototype/logs.js:214 | once a new query, a failed one, a fetch of the next page or leaving the page has come, the response of an earlier request never changes what is shown |
| `LogPages.NextThenPrevious` | prototype/logs.js:272-275 | next and previous are inverse within the held pages |

## Left out

- DOM nodes are values carrying an identity: parent links, event listeners and comment nodes are not modelled; the fresh nodes are disjoint from the live ones, as parsing makes them.
- Drag geometry, rendering, dialogs and labels of the dashboard; `load`, `mergeResults`, `plan` and the filters of the widget file.
- The browser's array sort is modelled as the stable sort ECMAScript requires; coordinates of a drop are reals, checked for being integers as the code does.
- The portal's checks of titles and widget settings are parameters of the edit session.
- The regular expressions `SecretKey` and `SecretText` are parameters; the redactor's results assume that the replacement text is not itself secret text.
- Redaction.CanonicalIffSameContent: speaks of cleaned trees; their serialisation and HMAC are not modelled.
- The JSON library, HMAC and manifest validation of the evidence store; file scanning limits and its five-second clock; the model starts from parsed diagnostics.
- Windows paths in the collection policy; policy texts are strings of ASCII characters, so UTF-8 decoding is not modelled.
- Ownership, permission, symbolic link and file identity checks of all local tools are taken to pass; records are well-formed; each single-file replacement and rename is atomic, except the history file of the policy store; package ids and device ids are compared, other fields of a bundle are not.
- Certificate and CRL generation, the lock files, and service reloads of the TLS repair.
- TLS, enrollment replies and the probe are outcomes chosen by the environment, and so are failing systemctl calls, except that stopping services after a failure is taken to succeed. A collector process runs exactly while its service is active; discovery.service, of type oneshot, never stays active. The recovery copy of a re-enrollment and key revocation do not change the state modelled; unit files are present or absent, without contents.
- The interactive menu and the status action of the agent manager; its stop and start actions are among the reasons for which services change between commands. A bundle without a managed device id.
- PurgeReach.PurgeableWaits: takes owner ids and probe markers to be new in every enrollment, as random ids and the portal's fresh markers make them.
- PurgeRuns.PurgeStaysPossible: takes a package id to stand for one bundle.
- Recovery.Install: of an installer script the making, marking and populating of the root and the placing of its units are separate operations; the steps inside populating and between the units of one role are not.
- The delivery loop of the outbox is a state machine over its steps and not a method, because it retries until the network lets it end.
- Parsing of audit, EVE and kernel records (`audit_event`, `eve`, `kernel`) and the projection of documents; decoding of a group is a parameter that may raise.
- `processCheckedAccess`, `processWaf` and the rest of the access-log script.
- Log rows, details and the live-follow notice of the log viewer; `validPage` is an outcome of a response.
- The detection, normalization, correlation and triage engines, the portal's HTTP interface and storage.
