# Verification of the TVT edge platform's stateful protocols

A Dafny model of the parts of the repository that keep state over time, with
proofs of what they keep. Each database transaction is one atomic step; the
network, Kubernetes, SMTP and the synchronization worker are steps of an
environment that may do anything, in any order, and may stop anywhere.
`dafny verify dfyconfig.toml` checks the whole project.

Where the source changes things in place, the model is a class whose methods do
the same, statement by statement, and each method is tied to a function on values.
The theorems are about those functions: about one step, about every run, or about
two of them together.

## What is modelled

**Camera lending** (`CameraConfig`, `CameraShapes`, `Ledger`, `Capture`, `Enrollment`,
`EnrollmentSafety`, `EnrollmentTheorems`, `EnrollmentActivation`, `EnrollmentEdits`,
`EnrollmentLosses`, `EnrollmentLiveness`, `EnrollmentCourse`, `EnrollmentContents`,
`ManagementService`). A camera is borrowed for
face enrollment and must be given back as it was. Sessions, activation and restore jobs,
geometry edits, credential and lifecycle clones, other people's commits and
synchronization interleave over an append-only ledger of numbered assignment sets
with idempotency keys, whose preview hash acts as a compare-and-swap. One
inductive invariant covers all of it; from it follow safety (a session leaves
`restoring` only with its camera given back, under every edit made meanwhile, and the
camera then shows the shapes of the last edit),
at most one restore commit, and an exact condition for a session to be able to end.
Three assumptions are written into `Enrollment.Permitted`: no geometry edit on a camera
whose session is restoring before its restore has been committed; other people's
commits keep listing a camera that a session holds, and do not assert face enrollment
for it once its restore has been committed; and an activation is not committed once the
restore of its session has been. `EditDecides`, `OperatorDecides` and `ActivationDecides`
say, in this order, exactly what becomes of the camera without them.

**Naming across two databases** (`Identity`, `PersonStore`, `Naming`, `NamingCourse`,
`NamingDesk`).
The session row and the person database are changed by separate transactions with
lost answers and retries between them. Similarity is an arbitrary symmetric
function; the vector index answers with any sixteen nearest vectors.

**Telemetry retention** (`Retention`, `TelemetryStore`). Events share
content-addressed snapshots; a background attach interleaves with eviction by age,
count, bytes and disk pressure.

**Registry export** (`Registry`, `RegistryTools`). The export worklist and the
archive verifier, written independently, are proved to agree; documents have the
shapes of the OCI Image Format Specification, sections "Image Index" and "Image Manifest".

**Notification outbox** (`Outbox`, `OutboxTiming`, `OutboxWorker`). Leases, takeovers,
the retry table and the age limit.

**Attendance** (`Attendance`, `AttendanceReport`, `AttendanceTable`), **K3s watchdog**
(`Watchdog`), **threshold alerts** (`Alerts`), **zone polygons** (`Geometry`, `Polygon`)
and **bundle rendering** (`Bundle`, `Rendering`, `PodView`).

Conventions: a hash is injective and stands for the value it is taken of; issued
identifiers and tokens are fresh counters; times and similarities are reals; a
clock reading is an input of the step that takes it.

## What the proofs found

Each is a lemma with the input or the exact condition.

- A restore that another set supersedes never ends its session (`SupersededNeverFinishes`,
  `AnotherSetSupersedes`): the revision is compared for equality.
- The preview guards a commit, but not the read before it: a set issued in between is
  undone for every other camera (`StaleReadUndoesAnotherCamera`).
- A geometry edit while the session is restoring, before its restore is committed, can be
  lost. If a restore that is under way commits after it, the session ends with the unmerged
  prior item on the camera (`RestoreUnderWayLosesTheEdit`, `RestoreGetsUnderWay`); if none
  does, it ends on the edit's clone (`UnguardedEdit`). Every run by which the session ends
  gives the camera back exactly if the newest set does not run enrollment on it and, unless
  the edit changes nothing, no restore under way can still commit (`EditDecides`).
- A start that is aborted although its activation was committed leaves its camera enrolled,
  with no restore to follow (`LostAnswerAbandons`, `AbortDecides`).
- Once a restore is committed, whatever an operator commits costs the session its camera;
  before that, exactly what leaves the camera out does (`OperatorDecides`).
- A restore whose record comes late puts its session back to a set that is no longer newest
  (`LateRecordSticks`); by its own steps a session can end exactly if its restore is not
  committed or the set it waits for is newest and needs no operator (`RestoringDecides`).
- An activation can be overtaken by the cancellation and the restore of its own session.
  The camera then comes back exactly if the activation commits while the session is active
  and its restore is not committed (`ActivationDecides`); a run from an empty deployment
  shows that it can be late (`ALateActivationIsReachable`).
- If the answer of a successful enrollment is lost, a retry discards the session although
  its person exists (`LostAnswerDiscardsANamedPerson`). A created person ends on its session
  exactly if the report comes before every step that gives the face up
  (`CreatedPersonIsOnItsSession`).
- Sixteen candidates find the most similar named vector for a face exactly if fewer than
  sixteen unnamed ones are at least as similar (`LookupDecides`), and for every face and
  similarity exactly if fewer than sixteen are unnamed (`GalleryDecides`).
- The same content fetched under a second content type leaves a file no row mentions
  (`AttachLeavesNoStray`).
- Crossings reported out of order can add up to more time than passed (`LateCrossingsOverlap`);
  the time shown fits every window exactly if no two stays overlap (`FitsExactly`).
- A watchdog whose write after a restart is lost restarts again at once
  (`LostWriteRestartsAgain`).
- An alert fires at a rising edge exactly if the latest firing is the cooldown ago or was at
  the instant 0, which is stored like none (`FiresExactly`).
- The schema lets an application leave out its startup probe, validation refuses it
  (`StartupProbesDecide`).
- Exporter and verifier recognise a tag's link by different tests; an export verifies only if
  every tag has a link of its own (`ExportThenVerify`).
- Accepted bundles can mount one path twice (`PathsDistinctExactly`), name one environment
  variable twice (`EnvironmentDistinctExactly`), and give two applications one claim, which
  happens exactly if two volumes join to one name (`ClaimsDistinctExactly`, `ClaimsCanCollide`).
- Reconciling a second deployment overwrites the first exactly if two applications join to
  one name (`SecondDeploymentDecides`, `DeploymentsCanCollide`).

## Model

| member | source | states |
|---|---|---|
| `CameraConfig.MergeCameraGeometry` | tvt_edge/service.py:575-595 | the in-place merge of compiled geometry into a configuration yields the value `MergeIsDetermined` characterises |
| `CameraConfig.MergeIsDetermined` | tvt_edge/service.py:575-595 | a configuration is the merge exactly if its `lines` and `zones.anpr` are the geometry's and every other key, inside `zones` too, is the old one's, with an emptied `zones` dropped |
| `CameraConfig.MergeAbsorbs` | tvt_edge/service.py:575-595 | merging twice is merging the second geometry |
| `CameraConfig.OnlyTheLastEditMatters` | tvt_edge/service.py:575-595 | after any non-empty run of edits only the last one shows |
| `CameraShapes.CrossingsAreOpposite` | tvt_edge/geometry.py:121-134 | two lines accept the same crossing exactly if direction and inside end both agree or both differ |
| `CameraShapes.ValidateShape` | tvt_edge/geometry.py:137-155 | reports the first thing wrong with a shape, in the source's order |
| `CameraShapes.CompileCameraConfig` | tvt_edge/geometry.py:158-194 | compiles the enabled shapes in order, or stops with the refusal of the first enabled shape that has one |
| `CameraShapes.EditShowsTheShapes` | tvt_edge/geometry.py:158-194 | after an edit the camera's configuration reads back as exactly the enabled shapes, in order, points and accepted crossings included |
| `CameraShapes.LastEditIsShown` | tvt_edge/service.py:657-816 | after any run of edits it reads back as the shapes of the last one, and every other key is that of the configuration the run began with |
| `CameraShapes.EntriesGoInside` | tvt_edge/geometry.py:121-134 | after an edit the camera accepts on every enabled entry line the crossing that ends at the inside end, and on every exit line the one that starts there |
| `CameraShapes.LineIsAccepted` | tvt_edge/geometry.py:95-155 | a line is accepted exactly if it runs between two different points of the unit square, knows direction and inside end, and is named by its role and `_entry` or `_exit` |
| `CameraShapes.LineNamesDiffer` | tvt_edge/geometry.py:113-118 | the name of a line tells its role and its direction |
| `Ledger.ItemsReadBack` | tvt_edge/service.py:1912-1951 | reading catalog items back from stored rows gives, for every camera, what its row says |
| `Ledger.CommittedRowsAreValid` | tvt_edge/service.py:2007-2107 | rows written for acceptable items are distinct per camera and uniform, so they read back as the items |
| `Ledger.CloneHolds` | tvt_edge/service.py:3691-3754 | a clone lists the same cameras in the same order, each with its own row or the overridden configuration |
| `Ledger.CloneRowKeeps` | tvt_edge/service.py:3691-3754 | a clone keeps applications and rate of a camera, and its configuration unless that one is overridden |
| `Ledger.CommitKeepsValid` | tvt_edge/service.py:1988-2121 | an accepted commit keeps revisions consecutive, keys unique and the desired pointer newest, and answers with a set carrying its key |
| `Ledger.CommitCarries` | tvt_edge/service.py:2040-2107 | an accepted commit under a new key adds the previewed revision, settings and intent and, for exactly the cameras asked for, their items with the credential and the geometry revision of their records |
| `Ledger.CloneKeepsLedger` | tvt_edge/service.py:3691-3754 | a clone keeps the same ledger invariant |
| `Ledger.SyncKeepsValid` | tvt_edge/cluster/sync.py:382-461 | claiming, succeeding and failing, with a current or a stale token, keep the ledger invariant |
| `Ledger.ReportDecides` | tvt_edge/cluster/sync.py:847-975 | only a success under the current token moves the applied pointer, and to the set that was claimed; afterwards there is work exactly if another set is desired, after a failure also unless an operator is needed; a report under a lost token changes nothing |
| `Ledger.LatestIsDesired` | tvt_edge/service.py:3639-3655 | the set with the greatest revision and synchronization's desired set are the same |
| `Ledger.AppliedRevisionIsNewest` | tvt_edge/service.py:2560-2569 | a revision counts as applied exactly while it is the newest and synchronization has applied it |
| `Capture.CandidatesAreTheEligibleEvents` | tvt_edge/enrollment.py:116-200 | the candidates are exactly the eligible reported events, as a multiset, in capture order |
| `Capture.AcceptedIsBounded` | tvt_edge/service.py:3338-3435 | from n requested candidates at most n staged captures are accepted |
| `Capture.VerdictIsJustified` | tvt_edge/service.py:3338-3435 | a capture verdict names one to five staged, eligible events, is reached exactly at five captures, after the settling time or at the deadline, and no window outlives its deadline |
| `Capture.EarliestFirst` | tvt_edge/enrollment.py:116-200 | candidates stand by the time of their event, then by its identifier |
| `Capture.VerdictDecides` | tvt_edge/service.py:3338-3435 | a capture names exactly the staged events of the camera reported within fifteen seconds of the window and not below the demanded sharpness, and the first person recognized among them; a face is rejected exactly if, before the deadline, the camera reported one and none is accepted |
| `EnrollmentSafety.SubstitutedCommitServes` | tvt_edge/service.py:2630-2683 | a commit of the newest items with one camera substituted still lists every camera and gives that camera exactly the substituted item |
| `EnrollmentSafety.RestoreServes` | tvt_edge/service.py:3453-3491 | the set a restore commits gives the session's camera its prior applications, rate and current prior configuration |
| `EnrollmentSafety.StepKeepsInv` | tvt_edge/service.py:2630-2850 | every permitted transaction, of users, ticks, workers, other deployers or synchronization, keeps the joint invariant of ledger, sessions, activation and restore jobs and keys; reads, previews and commits of an activation interleave like those of a restore |
| `EnrollmentSafety.RunKeepsInv` | tvt_edge/service.py:2630-3491 | the invariant holds after every interleaving of permitted transactions, crashes included |
| `EnrollmentTheorems.RunOnlyAppends` | tvt_edge/service.py:1988-2121 | sets are never changed or removed: a later ledger extends an earlier one |
| `EnrollmentTheorems.RevisionsAreConsecutive` | tvt_edge/service.py:3639-3655 | over every run revisions are 1, 2, 3, ..., keys are used once, and desired, latest by revision and last appended agree |
| `EnrollmentTheorems.PreviewIsCompareAndSwap` | tvt_edge/service.py:1988-2121 | a preview is accepted later under a new key exactly if no set was issued and the lifecycle intent did not change since, and the items are still acceptable |
| `EnrollmentTheorems.ReplayAddsNothing` | tvt_edge/service.py:2019-2027 | replaying a commit under its key, with whatever arguments, returns the first set and adds nothing |
| `EnrollmentTheorems.EndsRestored` | tvt_edge/service.py:3218-3336 | a session that leaves `restoring` does so with its recorded restoration applied and newest, and that set gives its camera back the prior item |
| `EnrollmentTheorems.OneRestoreCommit` | tvt_edge/service.py:3453-3491 | however often and by however many workers it is retried, at most one set carries a session's restore key |
| `EnrollmentTheorems.PriorFollowsEdits` | tvt_edge/service.py:657-816 | over every run a session's prior item is the one taken at its start with the geometry edits of its camera merged in, nothing else |
| `EnrollmentTheorems.CameraIsGivenBack` | tvt_edge/service.py:2685-3336 | from start to finish: what the camera gets back is its item in the newest set at the start, under every edit made since |
| `EnrollmentTheorems.QuietRestoreFinishes` | tvt_edge/service.py:3453-3491 | from any reachable restoring state whose restore is not yet queued, an undisturbed restore ends the session with the camera given back |
| `EnrollmentTheorems.NewestRestorationFinishes` | tvt_edge/service.py:3218-3336 | a recorded restoration that is still newest ends its session as soon as synchronization applies it |
| `EnrollmentTheorems.AnotherSetSupersedes` | tvt_edge/service.py:2560-2569 | any set issued after the restore was recorded, other than a geometry edit of that camera, supersedes it |
| `EnrollmentTheorems.SupersededNeverFinishes` | tvt_edge/service.py:2560-2569 | a superseded session stays in `restoring` over every run without another geometry edit of its camera |
| `EnrollmentLiveness.RestoringDecides` | tvt_edge/service.py:3218-3336 | from every reachable restoring state, crashes between commit and record included: own steps can end the session exactly if its restore is not committed, or the set it waits for is newest and synchronization needs no operator |
| `EnrollmentLiveness.LateRecordSticks` | tvt_edge/service.py:3486-3490 | a late record replaces the clone of an edit, which was newest, by the restore, which is not: no own step ends the session any more |
| `EnrollmentCourse.CaptureLastsItsWindow` | tvt_edge/service.py:3235-3244 | over every run: a capturing session was started with a window of 30 to 1800 seconds, 300 if none was asked for, and from the tick that opened it no poll times it out before that has passed and every poll from then on captures or times out |
| `EnrollmentCourse.WayOutDecides` | tvt_edge/service.py:3218-3336 | over every run: a session that left with a face, at the deadline, by cancellation or without an activation can only end completed, timed out, cancelled or aborted, in this order |
| `EnrollmentCourse.EverySessionLeft` | tvt_edge/service.py:3218-3336 | and every session that no longer activates or captures left in one of these ways |
| `EnrollmentContents.RecordFollows` | tvt_edge/service.py:3657-3689 | only a rotation of a camera changes its credential, and to the rotated one; only an edit of it moves its geometry revision, by one; only registration enables or disables it |
| `EnrollmentContents.RunIsCurrent` | tvt_edge/service.py:3657-3801 | over every run, permitted or not, the newest set carries the wanted intent and, for every camera, the credential of its record |
| `EnrollmentContents.NewestCarriesLastRotation` | tvt_edge/service.py:3657-3689 | over every run, what synchronization is to apply gives each camera the credential rotated in last |
| `EnrollmentContents.ClonesChangeOneThing` | tvt_edge/service.py:3691-3754 | a set is added other than by a commit only as a copy of the newest one with one camera's credential, one camera's geometry revision and configuration, or the intent changed |
| `EnrollmentTheorems.UnguardedEdit` | tvt_edge/service.py:756-816 | the excluded edit, applied with nothing in between: the session ends on a clone, and the camera is given back exactly if the newest set did not run enrollment on it |
| `EnrollmentEdits.EditOutcome` | tvt_edge/service.py:756-816 | over every run after the edit that leaves the camera to its session: given back exactly if no restore was committed after the edit and the newest set did not run enrollment, or one was and the edit changed nothing of the prior item |
| `EnrollmentEdits.EditDecides` | tvt_edge/service.py:756-816 | from what can be read at the edit (newest item, restores under way, the prior item they put back): exactly when every run by which the session can end gives the camera back, exactly when some run does, and that there is one |
| `EnrollmentEdits.RestoreUnderWayLosesTheEdit` | tvt_edge/service.py:2643-2683 | a restore that read before the edit commits after it: the session ends, its camera has the unmerged prior item |
| `EnrollmentEdits.RestoreGetsUnderWay` | tvt_edge/service.py:3266-3290 | one tick and one read bring any restoring session, its restore not committed, into that situation |
| `EnrollmentTheorems.SessionCommitKeepsOthers` | tvt_edge/service.py:2630-2683 | a session's commit, activation or restore, puts every other camera to what its worker read, which is the newest item if nothing was issued since the read |
| `EnrollmentTheorems.StaleReadUndoesAnotherCamera` | tvt_edge/service.py:2630-2683 | a set issued between the read and the preview passes the compare-and-swap and its changes to other cameras are undone |
| `EnrollmentActivation.ActivationDecides` | tvt_edge/service.py:2740-2773 | for every activation that goes through under the invariant: if its session is active and its restore not committed, the invariant goes on and some run of the session's own steps gives the camera back; otherwise no such run does |
| `EnrollmentActivation.AbandonedForGood` | tvt_edge/service.py:3218-3336 | once the newest set has a camera enrolled, or leaves it out, and nothing of its session can give it back any more, every set that lists the camera has it enrolled, over every run without commits of others |
| `EnrollmentActivation.ThereIsAWayBack` | tvt_edge/service.py:3218-3336 | from an active session whose restore is not committed and whose prior item is still acceptable, a permitted run of its own steps ends it with the camera given back |
| `EnrollmentActivation.LateActivationHappens` | tvt_edge/service.py:2685-2833 | wherever an enrollment can start, with the newest items acceptable, a permitted run makes its activation late: session over, restore committed, activation still accepted |
| `EnrollmentActivation.ALateActivationIsReachable` | tvt_edge/service.py:2685-2833 | a permitted run from an empty deployment reaches an activation that goes through late, after which no run of the session's own steps gives the camera back |
| `EnrollmentLosses.AbortDecides` | tvt_edge/service.py:2758-2766 | an aborted start leaves its camera enrolled for good exactly if the newest set has it enrolled, which is so whenever its activation was committed; otherwise the camera is as it was borrowed, up to geometry |
| `EnrollmentLosses.LostAnswerAbandons` | tvt_edge/service.py:2746-2766 | an activation whose answer is lost: the session is failed and no run of its own steps gives the camera back |
| `EnrollmentLosses.OperatorDecides` | tvt_edge/service.py:2515-2546 | for every generic commit that goes through while a session is active: the camera can still come back exactly if the restore is not committed and the commit lists the camera, and then the invariant goes on |
| `EnrollmentLosses.MidwayListsAgain` | tvt_edge/service.py:2643-2683 | a restore that read before an operator's commit can undo it and give the camera back |
| `ManagementService.Service.constructor` | tvt_edge/service.py:2571-2608 | a new service is an initial state of the session machine and meets its invariant |
| `ManagementService.Service.AppendSet` | tvt_edge/service.py:2040-2107 | stores a set under the next revision and makes it desired |
| `ManagementService.Service.CopyRows` | tvt_edge/service.py:3691-3754 | the copying loop produces the rows `CloneHolds` describes |
| `ManagementService.Service.CloneAssignmentSet` | tvt_edge/service.py:3691-3754 | the clone as it runs: same ledger as the specification, or an error and an unchanged ledger; a valid ledger stays valid |
| `ManagementService.Service.StoredRows` | tvt_edge/service.py:2040-2107 | the storing loops produce the rows of the items |
| `ManagementService.Service.CommitCatalogDeployment` | tvt_edge/service.py:1988-2121 | the commit as it runs, replay and refusal included, is the specified ledger transition; a valid ledger stays valid |
| `ManagementService.Service.ClaimSync` | tvt_edge/cluster/sync.py:382-461 | claiming issues a fresh token for the desired set; the machine's invariant is kept |
| `ManagementService.Service.RecordSyncSuccess` | tvt_edge/cluster/sync.py:847-886 | only the current token's success moves the applied pointer; the machine's invariant is kept |
| `ManagementService.Service.RecordSyncFailure` | tvt_edge/cluster/sync.py:920-975 | only the current token's failure counts; the machine's invariant is kept |
| `ManagementService.Service.HasActiveSession` | tvt_edge/service.py:2503-2512 | finds a session exactly if one is active |
| `ManagementService.Service.StartEnrollmentSession` | tvt_edge/service.py:2685-2773 | starting stores the session with the designated camera's newest item as prior and its activation job, or changes nothing; the machine's invariant is kept |
| `ManagementService.Service.AbortStartingSession` | tvt_edge/service.py:2758-2766 | an activation that raised, at whichever point, closes its session if that still waits for it; the machine's invariant is kept |
| `ManagementService.Service.CancelEnrollmentSession` | tvt_edge/service.py:2775-2833 | cancelling moves an activating or capturing session to `restoring` and nothing else; the machine's invariant is kept |
| `ManagementService.Service.ReconcileSession` | tvt_edge/service.py:3218-3336 | one tick of one session, branch by branch; the machine's invariant is kept |
| `ManagementService.Service.PollEnrollmentCapture` | tvt_edge/service.py:3338-3451 | one poll of a capturing session: its verdict on the reported events and the identity plane's answer, and the move on to `restoring`; the machine's invariant is kept |
| `ManagementService.Service.ConflictsWith` | tvt_edge/service.py:2515-2546 | finds an active session that these items would disturb exactly if there is one |
| `ManagementService.Service.ReadAssignments` | tvt_edge/service.py:2643-2654 | a worker's read of the newest items; the machine's invariant is kept |
| `ManagementService.Service.PreviewTarget` | tvt_edge/service.py:2655-2669 | a worker's preview of what it read with its camera substituted; the machine's invariant is kept |
| `ManagementService.Service.CommitTarget` | tvt_edge/service.py:2630-2683 | a worker's commit under its session's activation or restore key, refused while it conflicts with another session, replay included; the invariant is kept if the step is permitted |
| `ManagementService.Service.RecordTarget` | tvt_edge/service.py:2768-2773 | the committed set is recorded on a session that still awaits it, activating or restoring; the machine's invariant is kept |
| `ManagementService.Service.CommitGeneric` | tvt_edge/service.py:2515-2546 | anyone else's commit, refused while it conflicts with an active session; the invariant is kept if the step is permitted |
| `ManagementService.Service.QueueCameraGeometry` | tvt_edge/service.py:657-816 | a geometry edit: the camera's stored geometry, every active session of the camera and a clone of the newest set; the invariant is kept if the step is permitted |
| `ManagementService.Service.RequeueEdited` | tvt_edge/service.py:756-816 | the clone of the newest set with the merged configuration, and the sessions pointed at it |
| `ManagementService.Service.RequeueCredential` | tvt_edge/service.py:3657-3689 | a credential rotation stores the credential and clones the newest set with it; the machine's invariant is kept |
| `ManagementService.Service.ChangeLifecycle` | tvt_edge/service.py:3756-3801 | a lifecycle change clones the newest set with the new intent; the machine's invariant is kept |
| `Identity.BestNamedIsFirst` | apexfabric/control_plane/identity.py:149-165 | in a list ordered by similarity the first named owner is at least as similar as every other named one |
| `Identity.LookupIsExhaustive` | apexfabric/control_plane/identity.py:149-165 | sixteen nearest candidates find a most similar named vector of the whole gallery while fewer than sixteen vectors are unnamed |
| `Identity.LookupDecides` | apexfabric/control_plane/identity.py:149-165 | for every store, face and similarity: whatever the index answers the best named vector is found, exactly if nobody is named or fewer than sixteen unnamed vectors are at least as similar as every named one |
| `Identity.GalleryDecides` | apexfabric/control_plane/identity.py:149-165 | for every store that names somebody: the lookup is faithful for all faces and similarities exactly if fewer than sixteen vectors are unnamed |
| `Identity.MatchIsExhaustive` | apexfabric/control_plane/identity.py:149-165 | in a named gallery a face is recognized exactly if some vector reaches the threshold, and then as the owner of a most similar one |
| `Identity.OnlyEnrollmentGrowsTheGallery` | apexfabric/control_plane/identity.py:183-231 | sightings, staged captures and discards change no vector, source or named person |
| `Identity.SightingAnswers` | apexfabric/control_plane/identity.py:183-231 | in a named gallery a new sighting names a person exactly if its face is valid and some vector reaches the threshold: the owner of a most similar one, whose last-seen time becomes the arrival time, and nobody else changes |
| `Identity.StagingStores` | apexfabric/control_plane/identity.py:183-231 | staging a new valid face stores it with its arrival time and whom it is recognized as, if anybody |
| `Identity.StagingKeeps` | apexfabric/control_plane/identity.py:183-231 | staging touches nobody and drops exactly the captures of more than half an hour ago |
| `Identity.EnrollBuilds` | apexfabric/control_plane/identity.py:324-364 | a successful enrollment makes one fresh named person from exactly the requested captures and consumes them |
| `Identity.EnrolledCarries` | apexfabric/control_plane/identity.py:324-364 | the person has the requested name, the earliest capture time as first and the time of enrollment as last seen, and one vector for each requested capture with its face and time |
| `Identity.EnrollDecides` | apexfabric/control_plane/identity.py:243-364 | a request is refused as invalid exactly for 0 or more than 16 captures or a name of 0 or more than 160 characters, as unknown exactly for a capture that is missing or older than half an hour, and as a duplicate exactly if a face reaches the threshold, for a person that one of them is recognized as |
| `Identity.EnrollKeepsGallery` | apexfabric/control_plane/identity.py:324-364 | enrollment keeps different people below the threshold, and succeeds exactly if every capture is fresh and unlike every vector |
| `Identity.PurgeRestoresTheGallery` | apexfabric/control_plane/identity.py:253-274 | the purge leaves only named people, each with all of its vectors |
| `Identity.PurgeForgets` | apexfabric/control_plane/identity.py:253-274 | the purge removes exactly the people without a name, and no staged capture names one of them any more |
| `PersonStore.PersonTables.BestNamedMatch` | apexfabric/control_plane/identity.py:149-165 | the search through the candidates returns the specified match |
| `PersonStore.PersonTables.ResolveSighting` | apexfabric/control_plane/identity.py:183-231 | a sighting resolves to the matched person and updates only its last-seen data; a sound store stays sound |
| `PersonStore.PersonTables.StageCapture` | apexfabric/control_plane/identity.py:183-231 | a face is staged once, with whom it is recognized as; a sound store stays sound |
| `PersonStore.PersonTables.Deduplicate` | apexfabric/control_plane/identity.py:243-250 | keeps the first occurrence of each requested capture |
| `PersonStore.PersonTables.EnrollPerson` | apexfabric/control_plane/identity.py:324-364 | enrollment as it runs; a refusal changes nothing, and a sound store stays sound |
| `PersonStore.PersonTables.EnrollDistinctCaptures` | apexfabric/control_plane/identity.py:324-364 | the insert of person, vectors and sources and the removal of the captures |
| `PersonStore.PersonTables.DropUnnamed` | apexfabric/control_plane/identity.py:253-274 | the purge as it runs; a sound store stays sound |
| `Naming.RunKeepsInv` | tvt_edge/service.py:3081-3171 | the joint invariant of sessions, naming requests and the person database over every interleaving, lost answers included |
| `Naming.CaptureFeedsOnePerson` | tvt_edge/service.py:3081-3135 | no capture is a source of two people, and a used one is no longer staged |
| `Naming.SessionCreatesOnePerson` | tvt_edge/service.py:3081-3135 | among all naming requests of a session at most one created a person |
| `Naming.NamedSessionHoldsItsPerson` | tvt_edge/service.py:3081-3135 | a session marked named holds a stored person built from exactly its capture list |
| `Naming.VerdictIsFinal` | tvt_edge/service.py:3081-3171 | a named or discarded row never changes again |
| `Naming.FirstVerdictDecides` | tvt_edge/service.py:3081-3171 | over every run a session is named exactly if the report of a created person comes before every step that gives its face up, and discarded exactly if such a step came and no report before it |
| `Naming.CreatedPersonIsOnItsSession` | tvt_edge/service.py:3108-3135 | for every request that created a person: its session is named exactly if settling that very request comes before every cancellation, expiry or refused retry of the session, and then the session holds that person |
| `Naming.GalleryStaysSeparated` | apexfabric/control_plane/identity.py:324-364 | starting from a named, separated gallery, different people stay below the threshold over every run of both databases |
| `Naming.LostAnswerDiscardsANamedPerson` | tvt_edge/service.py:3108-3135 | if the answer of a successful enrollment is lost, the retry ends the session as discarded although its person exists |
| `NamingCourse.AcceptDecides` | tvt_edge/service.py:3405-3435 | a captured face is taken exactly while its session is open and no session took it before, and waits for a name exactly if it is not recognized |
| `NamingCourse.RowFollows` | tvt_edge/service.py:3405-3435 | over every run, captures, first face, time and recognized person of a session are those of one acceptance of it |
| `NamingCourse.FacesAreTakenOnce` | tvt_edge/service.py:3405-3435 | over every run no two sessions take the same face |
| `NamingCourse.PersonBearsTheName` | tvt_edge/service.py:3081-3135 | over every run the person that a request created bears the name that was asked for |
| `NamingDesk.Desk.AcceptCaptures` | tvt_edge/service.py:3405-3435 | the verdict stored on the row: pending a name, or matched with its captures discarded, or nothing; the invariant is kept |
| `NamingDesk.Desk.DiscardUnnamed` | tvt_edge/service.py:3137-3148 | discards a pending face and the staged captures the store takes back, and nothing else; the invariant is kept |
| `NamingDesk.Desk.ExpireUnnamed` | tvt_edge/service.py:3150-3171 | the loop over the sessions is the specified expiry of each with its captures; the invariant is kept |
| `NamingDesk.ExpiredExactly` | tvt_edge/service.py:3150-3171 | the expiry discards exactly the pending rows captured at or before the limit, and exactly their captures as far as the store took them |
| `NamingDesk.Desk.DiscardStaged` | tvt_edge/service.py:2860-2868 | captures are discarded sixteen at a time up to the first failure |
| `NamingDesk.Desk.NameSession` | tvt_edge/service.py:3081-3135 | an uninterrupted naming request equals ask, enroll and settle, and discards the captures of somebody already known; the invariant is kept |
| `Retention.ArrivalIndexIs` | apexfabric/control_plane/telemetry.py:159-190 | an event is placed after exactly those that arrived no later |
| `Retention.IngestDecides` | apexfabric/control_plane/telemetry.py:159-190 | an event is added, in order of arrival, exactly if it is new and within the size limit, and nothing else changes |
| `Retention.AttachDecides` | apexfabric/control_plane/telemetry.py:192-229 | a snapshot is attached exactly if its event is there and it is within the size limit: the event refers to it, and its content has one row with its file |
| `Retention.OnlyEvictionForgets` | apexfabric/control_plane/telemetry.py:192-250 | over every run without eviction every event and every reference stays |
| `Retention.IngestKeepsValid` | apexfabric/control_plane/telemetry.py:159-190 | ingestion keeps arrival order, unique events and all references |
| `Retention.AttachKeepsValid` | apexfabric/control_plane/telemetry.py:192-229 | attaching keeps one row per content, its file and both ends of every reference |
| `Retention.LateAttachAddsNothing` | apexfabric/control_plane/telemetry.py:192-229 | an attach that loses the race with eviction adds no file, row or reference |
| `Retention.AttachLeavesNoStray` | apexfabric/control_plane/telemetry.py:205-227 | no file is left without a row exactly if the content is new or was stored under the same suffix |
| `Retention.DeleteOldestIsEvict` | apexfabric/control_plane/telemetry.py:236-250 | deleting the k oldest by identifier leaves the newest suffix with exactly the references and rows it still needs |
| `Retention.EvictTwice` | apexfabric/control_plane/telemetry.py:263-296 | evicting in batches is evicting once |
| `Retention.EvictKeepsValid` | apexfabric/control_plane/telemetry.py:236-250 | eviction keeps the store consistent and leaves no stray file |
| `Retention.EmptyHasNoBytes` | apexfabric/control_plane/telemetry.py:231-234 | a consistent store without events holds no bytes |
| `Retention.ByteEvictionsMeetTheBudget` | apexfabric/control_plane/telemetry.py:280-286 | the byte loop ends below high water or at most at low water, unconditionally |
| `Retention.ByteEvictionsSpareTheNewest` | apexfabric/control_plane/telemetry.py:252-261 | the byte loop keeps the newest event unless that one alone reaches high water |
| `Retention.ExpiredAreOldest` | apexfabric/control_plane/telemetry.py:267-271 | the expired events are a prefix of arrival order |
| `Retention.DueMeetsPolicy` | apexfabric/control_plane/telemetry.py:263-296 | after whatever retention takes beyond what is due, nothing expired is left, the count is within its maximum and the bytes within budget |
| `Retention.DueIsNeeded` | apexfabric/control_plane/telemetry.py:267-279 | age and count take no event more than they must: with one fewer gone an expired event or too many are left |
| `Retention.BytesAreNeeded` | apexfabric/control_plane/telemetry.py:280-286 | the byte loop takes batches of 1 to 500, each from a store at or above high water and all but the last leaving it above low water |
| `Retention.BatchIsLargest` | apexfabric/control_plane/telemetry.py:252-261 | a batch is the largest that has at most 500 events and spares the newest of several |
| `Retention.MarksAre` | apexfabric/control_plane/telemetry.py:280-286 | the water marks are the two shares of the budget, rounded down |
| `Retention.NothingIsDue` | apexfabric/control_plane/telemetry.py:263-287 | a store within its age, count and high water is left as it is |
| `Retention.PressureTakes` | apexfabric/control_plane/telemetry.py:287-291 | disk pressure takes one batch for each reading below the minimum, up to the first that is not or to the last event |
| `Retention.RunKeepsValid` | apexfabric/control_plane/telemetry.py:192-250 | over every interleaving of ingest, attach and eviction the store is consistent |
| `Retention.SharedContentCountsOnce` | apexfabric/control_plane/telemetry.py:231-234 | attaching stored content to another event adds no bytes, new content its own size |
| `Retention.SnapshotSurvivesWhileReferenced` | apexfabric/control_plane/telemetry.py:236-250 | a snapshot row survives eviction exactly while a kept event refers to it |
| `TelemetryStore.DroppingOrphans` | apexfabric/control_plane/telemetry.py:239-249 | dropping the orphans one by one leaves exactly the referenced rows and removes exactly their files |
| `TelemetryStore.Telemetry.IngestEvent` | apexfabric/control_plane/telemetry.py:159-190 | one insertion, or nothing for an oversized or known event |
| `TelemetryStore.Telemetry.AttachSnapshots` | apexfabric/control_plane/telemetry.py:192-229 | the loop with its early exit attaches what attaching every fetched snapshot would |
| `TelemetryStore.Telemetry.StoreSnapshot` | apexfabric/control_plane/telemetry.py:213-227 | one snapshot transaction |
| `TelemetryStore.Telemetry.DeleteStored` | apexfabric/control_plane/telemetry.py:236-250 | the delete with its orphan loop is the specified deletion |
| `TelemetryStore.Telemetry.OldestBatch` | apexfabric/control_plane/telemetry.py:252-261 | the oldest events, at most 500 and never the newest of several |
| `TelemetryStore.Telemetry.EnforceRetention` | apexfabric/control_plane/telemetry.py:263-296 | removes exactly what is due and then what the free space readings ask for, and leaves the newest suffix; a store within its limits is unchanged while there is enough space |
| `TelemetryStore.Telemetry.EvictByAgeAndCount` | apexfabric/control_plane/telemetry.py:267-279 | removes the larger of the expired and the excess count |
| `TelemetryStore.Telemetry.EvictToLowWater` | apexfabric/control_plane/telemetry.py:280-286 | the byte loop removes exactly the specified number of oldest events |
| `TelemetryStore.Telemetry.EvictUnderPressure` | apexfabric/control_plane/telemetry.py:287-291 | the disk loop, with free space read anew each time, removes exactly the specified number of oldest events |
| `Registry.ExportMembers` | scripts/export-apexfabric-registry.py:43-55 | the archive's members are exactly the exported blobs and the links that name one |
| `Registry.ExportInventory` | scripts/export-apexfabric-registry.py:25-40 | the archive holds exactly the exported digests, and the verifier sees in it exactly the tags that have a link of their own |
| `Registry.WalkedIsClosed` | scripts/export-apexfabric-registry.py:67-83 | every reference of a walked manifest is exported |
| `Registry.ExportIsAccepted` | scripts/verify-registry-export.py:13-63 | an exported archive is accepted exactly if a tag has its link, the archived blobs are intact, the live links are at most 128 bytes, and a leaf that reads as a small schema-2 manifest refers only to archived digests |
| `Registry.AcceptedIsClosed` | scripts/verify-registry-export.py:13-63 | in an accepted archive every digest on a reference path from a link, through blobs under 4 MiB, is present and intact |
| `Registry.AcceptsExactly` | scripts/verify-registry-export.py:13-63 | an archive is accepted exactly if it holds nothing but directories, links of at most 128 bytes and blobs under their own hash, has a tag, and holds everything its links and its schema-2 manifests under 4 MiB name |
| `Registry.ExportsOwnTags` | scripts/export-apexfabric-registry.py:25-40 | a registry is exported only if all its tags are in repositories under `apexfabric/` |
| `RegistryTools.InspectRepositories` | scripts/export-apexfabric-registry.py:25-40 | succeeds exactly if every link is supported and every tag is ApexFabric's, and then gives roots and images |
| `RegistryTools.ReadManifest` | scripts/export-apexfabric-registry.py:70-83 | succeeds exactly for stored, intact, well-formed manifests, with their child manifests and leaves |
| `RegistryTools.Walk` | scripts/export-apexfabric-registry.py:67-83 | terminates; succeeds exactly if every manifest reachable from a tag is readable, and then returns exactly the digests reachable from the tags, in whatever order manifests are taken |
| `RegistryTools.CopyBlobs` | scripts/export-apexfabric-registry.py:88-93 | each digest's blob once, or a failure exactly if one is missing |
| `RegistryTools.AppendLiveMetadata` | scripts/export-apexfabric-registry.py:43-55 | appends, in order, exactly the links whose digest is exported |
| `RegistryTools.Export` | scripts/export-apexfabric-registry.py:58-106 | succeeds exactly for exportable registries and writes archive and inventory as specified |
| `RegistryTools.InspectArchive` | scripts/verify-registry-export.py:13-63 | the single pass accepts exactly the accepted archives and returns their tags and blob count |
| `RegistryTools.Verify` | scripts/verify-registry-export.py:71-80 | succeeds exactly if archive and inventory belong together and the archive is accepted |
| `RegistryTools.RecoverInventory` | scripts/verify-registry-export.py:83-106 | recovers an inventory exactly for accepted archives, and that inventory verifies |
| `RegistryTools.ExportThenVerify` | scripts/verify-registry-export.py:71-106 | what is exported verifies under its own inventory exactly if it is shippable and every tag has its link, and recovery then rebuilds that inventory |
| `Outbox.RunKeepsInv` | tvt_edge/alerting/outbox.py:69-203 | the invariant of items, attempt rows, sends and jobs over every interleaving of workers, crashes and takeovers |
| `Outbox.StaleWorkerChangesNothing` | tvt_edge/alerting/outbox.py:136-156 | a worker whose token was replaced changes no item, attempt or send |
| `Outbox.LostTokenStaysLost` | tvt_edge/alerting/outbox.py:69-95 | a token once lost is never held again, so each claim is finished at most once |
| `Outbox.FinishGivesUpToken` | tvt_edge/alerting/outbox.py:136-203 | finishing gives up the token and adds at most one attempt row |
| `Outbox.BeginDecides` | tvt_edge/alerting/outbox.py:97-123 | a holder sends exactly if its references are there and the item is younger than the limit; otherwise it closes the item, as failed without them and as too old with them |
| `Outbox.FinishDecides` | tvt_edge/alerting/outbox.py:136-203 | after a holder's report the item is sent exactly if it was sending and the mail was accepted, failed exactly if it was refused for good or had no reference, and after a transient failure pending, due after the delay, exactly if that is before the age limit, otherwise expired; the attempt row says the same |
| `Outbox.DecisionStands` | tvt_edge/alerting/outbox.py:97-134 | what a worker has decided stands until it reports, whatever the others do |
| `Outbox.SentWasSent` | tvt_edge/alerting/outbox.py:136-203 | over every run an item is sent exactly if its last attempt was accepted and a send went out under the number of that attempt |
| `Outbox.FirstAttemptWaits` | tvt_edge/alerting/outbox.py:69-95 | over every run nobody claims a queued item before it is due |
| `Outbox.LeaseProtects` | tvt_edge/alerting/outbox.py:69-95 | over every run nobody else gets a claimed item up to the instant its lease runs out |
| `Outbox.TakenOverExactly` | tvt_edge/alerting/outbox.py:69-95 | a claim is taken over exactly if that instant has passed and the item is due |
| `Outbox.ClosedIsFinal` | tvt_edge/alerting/outbox.py:136-203 | `sent`, `failed` and `expired` are absorbing, with item and rows unchanged for ever |
| `Outbox.OneConclusiveAttempt` | tvt_edge/alerting/outbox.py:188-199 | attempt numbers increase, and a conclusive row exists exactly on closed items, once, as the last row |
| `Outbox.NothingAfterTheLimit` | tvt_edge/alerting/outbox.py:168-180 | for any clock, no send starts and no retry is due at or past creation plus the maximum age |
| `OutboxTiming.LadderIs` | tvt_edge/alerting/outbox.py:27 | the retry table summed: attempt n waits at least 2880 + 3600 (n - 6) seconds from the sixth on |
| `OutboxTiming.RunIsTimely` | tvt_edge/alerting/outbox.py:69-203 | with a clock that never steps back every claim, retry and send comes late enough for both bounds |
| `OutboxTiming.SendsFitTheAge` | tvt_edge/alerting/outbox.py:69-180 | n sends need n - 1 gaps of the shorter of 60 seconds and the lease within the maximum age, however often claims are taken over |
| `OutboxTiming.AtMostTwentyNineSends` | tvt_edge/alerting/outbox.py:27 | with the default day, at most 29 sends plus one for each takeover |
| `OutboxTiming.TwentyNineSendsHappen` | tvt_edge/alerting/outbox.py:27 | 29 sends without a takeover are reachable, so the bound is tight |
| `OutboxWorker.Table.constructor` | tvt_edge/alerting/outbox.py:43-58 | an empty table matches the empty world |
| `OutboxWorker.Table.Claim` | tvt_edge/alerting/outbox.py:69-95 | claims a due unlocked item that comes first by next attempt and creation, or nothing if there is none, and matches the claim step |
| `OutboxWorker.Table.Reread` | tvt_edge/alerting/outbox.py:97-123 | stale exactly if the token is lost; delivers only a referenced item younger than the limit |
| `OutboxWorker.Table.Finish` | tvt_edge/alerting/outbox.py:136-203 | matches the finish step, and changes nothing for a lost token |
| `OutboxWorker.Table.Close` | tvt_edge/alerting/outbox.py:157-186 | the new row and the recorded result for every outcome |
| `Attendance.RunIsWellKept` | apexfabric/control_plane/reporting.py:217-262 | in any order of crossings: at most one open session per person, and every closed pair has exit at or after entry and the exact duration |
| `Attendance.RunIsInSequence` | apexfabric/control_plane/reporting.py:217-262 | with a person's crossings in time order, and sweeps anywhere, completed sessions do not overlap and nothing is entered after an open session |
| `Attendance.NothingIsLost` | apexfabric/control_plane/reporting.py:217-262 | in whatever order crossings and sweeps come, every exit ends exactly one session of its person, every entry made while not inside begins exactly one, and sessions hold no other crossings |
| `Attendance.InsideDecides` | apexfabric/control_plane/reporting.py:217-334 | who is inside after a step and since when: the one who just entered, not one who left at or after the entry, not one who entered before the cutoff of a sweep, and everybody else as before |
| `AttendanceReport.Aggregate` | apexfabric/control_plane/reporting.py:343-389 | the loop gives every registered person, and nobody else, the summary of its sessions |
| `AttendanceReport.OrderDoesNotMatter` | apexfabric/control_plane/reporting.py:343-389 | a summary depends only on the multiset of sessions |
| `AttendanceReport.TotalsAdd` | apexfabric/control_plane/reporting.py:366-380 | the total on [a, c] is the sum of the totals on [a, b] and [b, c] |
| `AttendanceReport.DateFilterIsExact` | apexfabric/control_plane/reporting.py:402-415 | the date filter changes nobody's total, visits, first entry or last exit |
| `AttendanceReport.DayCounts` | apexfabric/control_plane/reporting.py:402-415 | a day's row counts exactly the closed stays of which some time lies in the day, and exactly the incomplete sessions whose only crossing, or whose interval, meets it |
| `AttendanceReport.FirstAndLast` | apexfabric/control_plane/reporting.py:376-388 | first entry and last exit are the least and the greatest of the counted stays, clipped to the window |
| `AttendanceReport.TimeFits` | apexfabric/control_plane/reporting.py:343-389 | with crossings in time order the total fits between the first entry and the last exit shown, inside the window, for any order of rows |
| `AttendanceReport.DayFits` | apexfabric/control_plane/reporting.py:392-434 | a day's report, filtered and in any order, shows at most the length of the day |
| `AttendanceReport.LateCrossingsOverlap` | apexfabric/control_plane/reporting.py:217-262 | out of order, more time can be counted than passed between first entry and last exit: a run that does |
| `AttendanceReport.FitsExactly` | apexfabric/control_plane/reporting.py:343-389 | for whatever rows are stored: the time shown fits between first entry and last exit, inside the window, for every window, exactly if no two stays of the person overlap |
| `AttendanceTable.Table.RecordEntry` | apexfabric/control_plane/reporting.py:236-244 | opens a session unless one is open; a well-kept table stays well kept |
| `AttendanceTable.Table.RecordExit` | apexfabric/control_plane/reporting.py:245-262 | closes the latest open session, or records a lone exit; a well-kept table stays well kept |
| `AttendanceTable.Table.SweepStale` | apexfabric/control_plane/reporting.py:325-334 | forces closed exactly the open sessions older than the cutoff and counts them; a well-kept table stays well kept |
| `AttendanceTable.Table.DayReport` | apexfabric/control_plane/reporting.py:392-434 | the report of the filtered rows for everyone registered |
| `Watchdog.LoadAfterWrite` | tvt_edge/watchdog.py:154-222 | loading what was written restores the state on the same boot, and exactly the counters on another |
| `Watchdog.InvokeThenLoad` | tvt_edge/watchdog.py:250-286 | the next invocation finds everything the last one remembered, or on another boot its counters |
| `Watchdog.FileIsMemory` | tvt_edge/watchdog.py:154-286 | going through the file is the same as staying in memory for a whole boot |
| `Watchdog.NewBootIsFresh` | tvt_edge/watchdog.py:187-203 | no timer of another boot is carried over |
| `Watchdog.RestartEndsAnOutage` | tvt_edge/watchdog.py:263-272 | every restart ends an unbroken run of unhealthy checks with one at least 120 seconds earlier |
| `Watchdog.OutageRestarts` | tvt_edge/watchdog.py:263-272 | an unbroken unhealthy run of 120 seconds with a non-decreasing clock restarts k3s unless this boot did in the last 600 |
| `Watchdog.RestartsExactly` | tvt_edge/watchdog.py:250-286 | within a boot whose clock does not step back, an invocation restarts exactly if such a run ends in it and no restart lies in the last 600 seconds |
| `Watchdog.RemembersTimes` | tvt_edge/watchdog.py:250-286 | the state tells the time and result of the last check and the times of the last healthy check and of the last restart, with its outcome |
| `Watchdog.RestartsAreSpaced` | tvt_edge/watchdog.py:268-284 | consecutive restarts of one boot are at least 600 seconds apart for any clock |
| `Watchdog.RestartsSpan` | tvt_edge/watchdog.py:268-284 | n restarts of one boot span at least 600 (n - 1) seconds |
| `Watchdog.CountersAreTallies` | tvt_edge/watchdog.py:250-286 | across boots the counters equal the number of checks and restarts since the file began |
| `Watchdog.LostWriteRestartsAgain` | tvt_edge/watchdog.py:273-286 | if the write after a restart is lost, the next unhealthy check restarts again, however soon |
| `Watchdog.K3sWatchdog.constructor` | tvt_edge/watchdog.py:135-146 | the watchdog starts from the file it finds |
| `Watchdog.K3sWatchdog.RunOnce` | tvt_edge/watchdog.py:250-286 | one invocation writes the specified file and restarts exactly when the outage is long enough and the cooldown over |
| `Alerts.FiresExactly` | apexfabric/control_plane/alerts.py:90-101 | a stream fires exactly at rising edges whose latest firing, if any, is at least the cooldown ago or was at the instant 0 |
| `Alerts.FiringsAreSpaced` | apexfabric/control_plane/alerts.py:90-101 | unless the stream fires at the instant 0, any two firings are at least the cooldown apart, for any clock |
| `Alerts.FiringNeedsRearming` | apexfabric/control_plane/alerts.py:93-101 | after a match, fired or suppressed, nothing fires before a non-matching numeric event |
| `Alerts.FiringsSpan` | apexfabric/control_plane/alerts.py:90-101 | unless the stream fires at the instant 0, n firings span at least n - 1 cooldowns |
| `Alerts.StreamsAreIndependent` | apexfabric/control_plane/alerts.py:73-137 | from the moment a rule is saved until it is saved again or deleted, over every run of events and of saving and deleting other rules, its state for a deployment and camera is that of its own readings alone |
| `Alerts.AlertsAreFirings` | apexfabric/control_plane/alerts.py:73-137 | over the same runs, the events a rule has alerts for are those it had before and exactly those that fire in its streams |
| `Alerts.FiringCrosses` | apexfabric/control_plane/alerts.py:73-101 | whenever a stream fires at a value that is not its first, that value lies beyond the threshold and the one before does not, in the direction and with the boundary of the operator |
| `Alerts.EventDecides` | apexfabric/control_plane/alerts.py:73-103 | an event of the rule's kind with its field, from the deployment and camera the rule names, leaves the stream remembering whether the value matched; any other changes no stream or alert of the rule |
| `Alerts.SaveDecides` | apexfabric/control_plane/alerts.py:120-133 | a rule is stored exactly if its identifier is known or there are fewer than a hundred; it replaces its former version and only its own streams start anew |
| `Alerts.DeleteDecides` | apexfabric/control_plane/alerts.py:135-137 | deleting removes exactly the rule and its streams |
| `Alerts.AlertTables.Ingested` | apexfabric/control_plane/alerts.py:73-103 | the loop over the rules, with every way to skip one, is the specified evaluation |
| `Alerts.AlertTables.Save` | apexfabric/control_plane/alerts.py:120-133 | refuses an unknown identifier and a rule beyond the hundredth; otherwise stores one version of the rule and forgets exactly its states |
| `Alerts.AlertTables.Delete` | apexfabric/control_plane/alerts.py:135-137 | removes the rule, and its states with it |
| `Geometry.CrossesMeansMeetInside` | tvt_edge/geometry.py:39-47 | two segments cross exactly if they are not parallel and meet at a point strictly inside both |
| `Geometry.CrossesIsSymmetric` | tvt_edge/geometry.py:43-47 | crossing depends neither on the order of the segments nor on their directions |
| `Polygon.AnyStartKeepsVerdict` | tvt_edge/geometry.py:60-84 | the verdict, with its error, is the same for every rotation of the point list |
| `Polygon.ReversalKeepsVerdict` | tvt_edge/geometry.py:60-84 | and for its reversal |
| `Polygon.AcceptedExactly` | tvt_edge/geometry.py:60-84 | a polygon is accepted exactly if its corners lie in the unit square, there are three or more, no two sides meet inside both, and it has an area |
| `Polygon.TriangleVerdict` | tvt_edge/geometry.py:60-84 | three corners of the unit square make a polygon exactly if they are not in line |
| `Polygon.ValidatePolygon` | tvt_edge/geometry.py:60-84 | the validator reports the specified first error |
| `Polygon.FindCrossing` | tvt_edge/geometry.py:64-72 | looking at each pair of edges once, from the lower index, finds a crossing exactly if there is one |
| `Polygon.SignedArea2` | tvt_edge/geometry.py:73-82 | the sum is twice the signed area |
| `Bundle.SemanticErrors` | apexfabric/solution_management/validation.py:23-136 | reports every broken rule of every application and every repeated name, and nothing else |
| `Bundle.StartupProbesDecide` | apexfabric/solution_management/validation.py:53-58 | for every bundle: adding missing startup probes repairs exactly that rule, and a bundle is accepted exactly if it would be with them and none was missing |
| `Bundle.DuplicateNames` | apexfabric/solution_management/validation.py:33-36 | reports exactly the names that occur twice |
| `Rendering.AcceptedKeysDistinct` | apexfabric/solution_management/renderer.py:84-351 | an accepted bundle renders prunable objects with distinct kind and name |
| `Rendering.ClaimsDistinctExactly` | apexfabric/solution_management/renderer.py:158-170 | for every bundle: the rendered claims have distinct names exactly if no two volumes have the same application and volume name joined by a hyphen |
| `Rendering.ClaimsCanCollide` | apexfabric/solution_management/renderer.py:158-170 | an accepted bundle of two applications whose rendered objects hold one claim twice |
| `Rendering.VolumeNamesDistinct` | apexfabric/solution_management/renderer.py:154-280 | the volumes of a pod have distinct names |
| `Rendering.MountsAreDeclared` | apexfabric/solution_management/renderer.py:149-314 | every mount of the main and the plan-compiler container names a declared volume |
| `Rendering.VolumesAreRendered` | apexfabric/solution_management/renderer.py:154-170 | every volume that the bundle does not name itself and that is not the node's own is filled from a configuration, secret or claim rendered with the pod |
| `Rendering.RenderedAreMounted` | apexfabric/solution_management/renderer.py:154-170 | every configuration, secret and claim rendered with a pod fills one of its volumes |
| `PodView.ContainerFindsExactly` | apexfabric/solution_management/renderer.py:149-280 | for every path, source and mode: the main container of an accepted application finds it there exactly if the platform, a claim, an external mount, the plan compiler or the profile gives it |
| `PodView.CompilerFindsExactly` | apexfabric/solution_management/renderer.py:281-314 | the plan compiler finds exactly its input, its output directory and, of what the main container finds, what lies under /models/, /run/secrets/apexfabric/, /dev/dri or /dev/accel |
| `PodView.KindsRendered` | apexfabric/solution_management/renderer.py:91-351 | an application is rendered with a secret, claims, and a service with a network policy exactly if it has secrets, volumes, and ports |
| `PodView.ProbesAndVariables` | apexfabric/solution_management/renderer.py:123-152 | readiness, liveness and startup are probed at their own ports, and the secret variables are exactly those of the bundle, read from the application's secret |
| `PodView.AcceptedIsEquipped` | apexfabric/solution_management/validation.py:37-126 | an accepted application with an accelerator profile is built for its machine, asks for a device or a stream and, with Metis, finds /data in its container; its ports differ in name and number, and nothing of its own lies under a plan compiler's /plans |
| `PodView.PlacedByItsCameras` | apexfabric/solution_management/validation.py:102-110 | with node locality it requires camera labels, with run-time connectivity and cameras it does not |
| `Rendering.PathsDistinctExactly` | apexfabric/solution_management/renderer.py:149-280 | an accepted application's container mounts every path once exactly if it keeps /configs (with a plan compiler) and /dev/dri, /dev/accel (with the GPU profile) free |
| `Rendering.PortsResolve` | apexfabric/solution_management/renderer.py:136-256 | probe and telemetry ports are declared, and the scraped number is one the container exposes |
| `Rendering.SecretsResolve` | apexfabric/solution_management/renderer.py:123-126 | every secret reference is backed by a key of the application's rendered Secret |
| `Rendering.SecretMountsAreReadOnly` | apexfabric/solution_management/renderer.py:154-222 | whatever an accepted application mounts from a Secret, its own or the platform's, is mounted read-only |
| `Rendering.NamesFit` | apexfabric/solution_management/validation.py:43-44 | deployments, services, policies and claims of an accepted application have names of at most 63 characters |
| `Rendering.EnvironmentDistinctExactly` | apexfabric/solution_management/validation.py:133-135 | each environment name of an accepted application occurs once exactly if none is both a plain and a secret one |
| `Rendering.Render` | apexfabric/solution_management/renderer.py:84-351 | the appending loop renders the specified objects in order |
| `Rendering.RenderApp` | apexfabric/solution_management/renderer.py:91-351 | one application's objects |
| `Rendering.RenderPod` | apexfabric/solution_management/renderer.py:149-280 | volumes and mounts grown side by side are the specified ones |
| `Rendering.ReconcileIsExact` | apexfabric/solution_management/renderer.py:393-404 | afterwards the deployment's prunable objects are exactly the rendered ones, no claim was deleted, and what others own is untouched unless rendered over |
| `Rendering.ReconcileRunsTheBundle` | apexfabric/solution_management/renderer.py:393-404 | after reconciling with an accepted bundle every prunable object it renders runs, owned by the deployment and with its rendered content, and nothing else prunable of the deployment is left |
| `Rendering.KeysApartExactly` | apexfabric/solution_management/renderer.py:84-351 | two bundles render no prunable object under one kind and name exactly if no two of their applications join to the same name |
| `Rendering.SecondDeploymentDecides` | apexfabric/solution_management/renderer.py:393-404 | reconciling an accepted bundle and then another deployment leaves the first one running as rendered exactly if their names are apart |
| `Rendering.DeploymentsCanCollide` | apexfabric/solution_management/renderer.py:91-100 | two accepted bundles of different deployments whose applications get one name |
| `Rendering.ReconcileIsIdempotent` | apexfabric/solution_management/renderer.py:393-404 | reconciling again leaves the cluster exactly as it is |
| `Rendering.Namespaced.Reconcile` | apexfabric/solution_management/renderer.py:393-404 | applying and then deleting observed objects one at a time removes exactly the obsolete ones |

## Left out

- Rollback and the older enrollment windows (tvt_edge/service.py:2343-2493): neither consults active sessions. An upgrade is a commit by someone else.
- Catalog, schema and site checks of a preview are one flag, `accepted`; the settings they read are one number.
- Idempotency keys are a datatype per family; an operator's key that imitates another family's prefix is not modelled.
- One deployment and one site; the application rows of an assignment are in the order they were stored.
- Ledger.AppliedRevisionIsNewest: a set being applied may be claimed again at any time, because lease times of synchronization are not modelled.
- The naming columns of a session row (captures, name, person) are modelled apart from its camera-lending columns; the capture verdict links the two.
- Capture error codes, audit events, observer views and the rejected-attempt report.
- Capture.VerdictIsJustified: requires distinct candidate identifiers, as the event store's primary key gives them, and an answer that names requested captures only.
- Identity.EnrollBuilds: does not model the order of captures inside one enrollment beyond the earliest time; the source sorts them by capture time.
- NamingCourse.PersonBearsTheName: renaming an enrolled person (apexfabric/control_plane/identity.py:294-303) is left out.
- Vector encoding, unit-norm checks and the vector index itself: the index is any function that answers with nearest vectors.
- Alerts, identity, attendance and vehicle evaluation inside event ingestion are modelled each on its own, not as one transaction; alert acknowledgement and vehicle sessions are left out.
- Alerts.AlertsAreFirings: speaks of the alerts raised, not of the pruning by age and number that ends an evaluation (apexfabric/control_plane/alerts.py:106-109); among equal times that pruning goes by random identifiers.
- Alerts.AlertTables.Ingested: does not prune, for the same reason.
- Naming.CaptureFeedsOnePerson: takes an event identifier, once ingested, never to be ingested again; the source forgets it with the evicted event (apexfabric/control_plane/telemetry.py:171-181), so one delivered again after that could be staged again.
- EnrollmentLosses.OperatorDecides: where a commit leaves the camera out, it supposes that no worker of the session is between its read and its commit; `MidwayListsAgain` covers a restore that is.
- Retention.RunKeepsValid: a snapshot file is written and its row inserted in one step; temporary files and an interrupted write are not modelled.
- Retention.DueMeetsPolicy: water marks are exact products rounded down; floating-point rounding of the same product is not modelled.
- The display order of attendance rows, local time zones and timestamp parsing.
- RegistryTools.Export: blobs are archived in some order; the source sorts them, which nothing depends on. A `manifests` or `layers` value that is not a list, and a repository path that itself contains `/repositories/`, are not modelled.
- Docker, tar and file handling of export and import, link counts and concurrent publication of an inventory.
- Outbox.RunKeepsInv: started-at times, SMTP codes, metrics and reminders of the outbox are left out; an item may become due at any instant given at its creation.
- Watchdog.LoadAfterWrite: a state file whose `version` is `true` or `1.0`, and a check total that is not an object, are not told apart from their ordinary readings.
- Slugs of operator-supplied zone names, and shapes whose kind is neither zone nor line (tvt_edge/geometry.py:105-110, 137-139).
- Polygon.ValidatePolygon: points are pairs; a point of another length is not modelled.
- Bundle.SemanticErrors: reports a set of rules per application, not the wording and order of messages; the JSON schema is taken as met.
- Rendering.Render: object contents other than volumes, mounts, ports, probes, telemetry and secret references; storage failover's renamed claims (apexfabric/solution_management/renderer.py:367-391).
- AES-GCM, SHA-256, HTTP handlers, settings, release and fleet scripts, and `storage_failover.py`.
