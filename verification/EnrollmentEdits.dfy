/** What becomes of a camera whose geometry is edited while its session is restoring
    and the restore is not committed yet. */
module EnrollmentEdits {
  import opened Options
  import opened CameraConfig
  import opened Ledger
  import opened Enrollment
  import opened EnrollmentSafety
  import opened EnrollmentTheorems

  // ---------------------------------------------------------------- what may happen after the edit

  predicate IsRestoreOf(db: Db, j: nat, a: nat) {
    j < |db.jobs| && db.jobs[j].purpose == Restoration && db.jobs[j].session == a
  }

  /** Whatever anybody does, except edits of the session's camera and commits other
      than the session's restore. */
  predicate Undisturbed(db: Db, step: Step, a: nat) {
    && a < |db.sessions| && !step.CommitsGeneric?
    && (step.Edits? ==> step.camera != db.sessions[a].camera)
    && (step.Commits? ==> IsRestoreOf(db, step.job, a))
  }

  ghost predicate UndisturbedRun(db: Db, steps: seq<Step>, a: nat) {
    steps == [] ||
    (UndisturbedRun(db, steps[..|steps| - 1], a) && Undisturbed(Run(db, steps[..|steps| - 1]), steps[|steps| - 1], a))
  }

  /** The session's own steps: its ticks, its restore jobs, and synchronization. */
  predicate RestoreStep(db: Db, step: Step, a: nat) {
    match step
    case Ticks(session, _) => session == a
    case Reads(j) => IsRestoreOf(db, j, a)
    case Previews(j, _) => IsRestoreOf(db, j, a)
    case Commits(j, _) => IsRestoreOf(db, j, a)
    case Records(j) => IsRestoreOf(db, j, a)
    case Claims => true
    case Succeeds(_) => true
    case Fails(_, _) => true
    case _ => false
  }

  ghost predicate RestoreRun(db: Db, steps: seq<Step>, a: nat) {
    steps == [] ||
    (RestoreRun(db, steps[..|steps| - 1], a) && RestoreStep(Run(db, steps[..|steps| - 1]), steps[|steps| - 1], a))
  }

  // ---------------------------------------------------------------- what every such run keeps

  /** The job puts the camera onto the item, unless it was refused. */
  ghost predicate RestoresTo(job: Job, item: Item) {
    && job.target == item
    && (job.stopped || job.base.None? || ItemOf(job.base.value.items, item.camera).Some?)
  }

  /** The session has left capturing and waits for a set, if it waits at all. */
  ghost predicate Waiting(s: Session, merged: Item) {
    && s.prior == merged && s.camera == merged.camera
    && s.status != Activating && s.status != Capturing
    && (s.status == Restoring ==> s.restoration.Some?)
  }

  /** Until the restore is committed the newest set gives the camera the edit's clone,
      and afterwards the prior item that its worker had read before the edit. */
  ghost predicate EditedState(db: Db, a: nat, old_: Item, merged: Item, cloned: Item) {
    && Valid(db.ledger) && a < |db.sessions|
    && old_.camera == merged.camera == cloned.camera && old_.apps != []
    && Waiting(db.sessions[a], merged)
    && GivenBack(db.ledger, if Queued(db.ledger, a) then old_ else cloned)
    && forall j :: 0 <= j < |db.jobs| && IsRestoreOf(db, j, a) ==> RestoresTo(db.jobs[j], old_)
  }

  lemma GivesOne(set_: AssignmentSet, x: Item, y: Item)
    requires Gives(set_, x) && x.camera == y.camera
    ensures Gives(set_, y) <==> x == y
  {
  }

  /** The sets stay, or one is added that is no restore and keeps what the camera gets. */
  ghost predicate KeepsCamera(d: Deployment, d': Deployment, camera: CameraId) {
    d'.sets == d.sets
    || (d.sets != [] && |d'.sets| == |d.sets| + 1 && d.sets <= d'.sets && !d'.sets[|d.sets|].key.Restore?
        && forall item: Item :: item.camera == camera && Gives(d.sets[|d.sets| - 1], item) ==> Gives(d'.sets[|d.sets|], item))
  }

  lemma KeepsCameraKeeps(db: Db, db': Db, a: nat, old_: Item, merged: Item, cloned: Item)
    requires EditedState(db, a, old_, merged, cloned) && Valid(db'.ledger)
    requires KeepsCamera(db.ledger, db'.ledger, merged.camera)
    requires a < |db'.sessions| && Waiting(db'.sessions[a], merged)
    requires forall j :: 0 <= j < |db'.jobs| && IsRestoreOf(db', j, a) ==> RestoresTo(db'.jobs[j], old_)
    ensures EditedState(db', a, old_, merged, cloned)
  {
    if db'.ledger.sets != db.ledger.sets {
      var set_ := db'.ledger.sets[|db.ledger.sets|];
      assert db'.ledger.sets == db.ledger.sets + [set_];
      FindKeyExtends(db.ledger.sets, set_, Restore(a));
    }
  }

  lemma CloneKeepsCamera(d: Deployment, key: Key, intent: Intent, over: Overrides, camera: CameraId)
    requires Valid(d) && d.sets != [] && !key.Restore? && camera !in over.configs
    requires Clone(d, d.sets[|d.sets| - 1], key, intent, over).Ok?
    ensures var d' := Clone(d, d.sets[|d.sets| - 1], key, intent, over).value;
            Valid(d') && KeepsCamera(d, d', camera)
  {
    var source := d.sets[|d.sets| - 1];
    CloneKeepsLedger(d, source, key, intent, over);
    var d' := Clone(d, source, key, intent, over).value;
    forall item: Item | item.camera == camera && Gives(source, item) ensures Gives(d'.sets[|d.sets|], item) {
      RowOfIsListed(source.rows, camera);
      CloneGives(source, d'.sets[|d.sets|], over, camera);
    }
  }

  lemma RotationKeepsCamera(db: Db, camera: CameraId, credential: nat, request: string, kept: CameraId)
    requires Valid(db.ledger)
    ensures var db' := RotateCredential(db, camera, credential, request);
            && Valid(db'.ledger) && KeepsCamera(db.ledger, db'.ledger, kept)
            && db'.sessions == db.sessions && db'.jobs == db.jobs
  {
    var over := Overrides(map[camera := Some(credential)], map[], map[]);
    if RotateCredential(db, camera, credential, request).ledger != db.ledger {
      CloneKeepsCamera(db.ledger, Credential(request), db.ledger.sets[|db.ledger.sets| - 1].intent, over, kept);
    }
  }

  lemma LifecycleKeepsCamera(db: Db, intent: Intent, request: string, kept: CameraId)
    requires Valid(db.ledger)
    ensures var db' := SetLifecycle(db, intent, request);
            && Valid(db'.ledger) && KeepsCamera(db.ledger, db'.ledger, kept)
            && db'.sessions == db.sessions && db'.jobs == db.jobs
  {
    if SetLifecycle(db, intent, request) != db {
      CloneKeepsCamera(db.ledger, Lifecycle(request), intent, NoOverrides, kept);
    }
  }

  lemma OtherEditKeepsLedger(db: Db, camera: CameraId, geometry: Config, accepted: bool, kept: CameraId)
    requires Valid(db.ledger) && camera != kept
    ensures var db' := EditGeometry(db, camera, geometry, accepted);
            Valid(db'.ledger) && KeepsCamera(db.ledger, db'.ledger, kept)
  {
    if EditGeometry(db, camera, geometry, accepted).ledger != db.ledger {
      var source := db.ledger.sets[|db.ledger.sets| - 1];
      CloneKeepsCamera(db.ledger, Geometry(camera, db.cameras[camera].geometryRevision + 1), source.intent,
                       EditOverrides(db, camera, geometry), kept);
    }
  }

  lemma OtherEditKeepsSession(db: Db, camera: CameraId, geometry: Config, accepted: bool, a: nat)
    requires a < |db.sessions| && db.sessions[a].camera != camera
    ensures var db' := EditGeometry(db, camera, geometry, accepted);
            a < |db'.sessions| && db'.sessions[a] == db.sessions[a] && db'.jobs == db.jobs
  {
  }

  lemma CloningStepKeeps(db: Db, step: Step, a: nat, old_: Item, merged: Item, cloned: Item)
    requires EditedState(db, a, old_, merged, cloned) && Undisturbed(db, step, a)
    requires step.Edits? || step.Rotates? || step.SetsLifecycle?
    ensures EditedState(Next(db, step), a, old_, merged, cloned)
  {
    match step {
      case Edits(camera, geometry, accepted) =>
        OtherEditKeepsLedger(db, camera, geometry, accepted, merged.camera);
        OtherEditKeepsSession(db, camera, geometry, accepted, a);
      case Rotates(camera, credential, request) => RotationKeepsCamera(db, camera, credential, request, merged.camera);
      case SetsLifecycle(intent, request) => LifecycleKeepsCamera(db, intent, request, merged.camera);
    }
    KeepsCameraKeeps(db, Next(db, step), a, old_, merged, cloned);
  }

  lemma StartStepKeeps(db: Db, step: Step, a: nat, old_: Item, merged: Item, cloned: Item)
    requires EditedState(db, a, old_, merged, cloned) && (step.Designates? || step.Starts? || step.Aborts?)
    ensures EditedState(Next(db, step), a, old_, merged, cloned)
  {
    KeepsCameraKeeps(db, Next(db, step), a, old_, merged, cloned);
  }

  lemma LeavingStepKeeps(db: Db, step: Step, a: nat, old_: Item, merged: Item, cloned: Item)
    requires EditedState(db, a, old_, merged, cloned) && (step.Cancels? || step.Ticks? || step.Polls?)
    ensures EditedState(Next(db, step), a, old_, merged, cloned)
  {
    KeepsCameraKeeps(db, Next(db, step), a, old_, merged, cloned);
  }

  lemma NewestItemListed(d: Deployment, item: Item)
    requires Valid(d) && GivenBack(d, item)
    ensures ItemOf(CurrentItems(d), item.camera) == Some(item)
  {
    LatestIsDesired(d);
    ItemsReadBack(d.sets[|d.sets| - 1].rows, item.camera);
  }

  lemma ReadKeeps(db: Db, j: nat, a: nat, old_: Item, merged: Item, cloned: Item)
    requires EditedState(db, a, old_, merged, cloned)
    ensures EditedState(JobRead(db, j), a, old_, merged, cloned)
  {
    var db' := JobRead(db, j);
    NewestItemListed(db.ledger, if Queued(db.ledger, a) then old_ else cloned);
    forall k | 0 <= k < |db'.jobs| && IsRestoreOf(db', k, a) ensures RestoresTo(db'.jobs[k], old_) {
      assert IsRestoreOf(db, k, a) && RestoresTo(db.jobs[k], old_);
    }
    KeepsCameraKeeps(db, db', a, old_, merged, cloned);
  }

  lemma PreviewKeeps(db: Db, j: nat, accepted: bool, a: nat, old_: Item, merged: Item, cloned: Item)
    requires EditedState(db, a, old_, merged, cloned)
    ensures EditedState(JobPreview(db, j, accepted), a, old_, merged, cloned)
  {
    var db' := JobPreview(db, j, accepted);
    forall k | 0 <= k < |db'.jobs| && IsRestoreOf(db', k, a) ensures RestoresTo(db'.jobs[k], old_) {
      assert IsRestoreOf(db, k, a) && RestoresTo(db.jobs[k], old_);
    }
    KeepsCameraKeeps(db, db', a, old_, merged, cloned);
  }

  lemma RecordKeeps(db: Db, j: nat, a: nat, old_: Item, merged: Item, cloned: Item)
    requires EditedState(db, a, old_, merged, cloned)
    ensures EditedState(JobRecord(db, j), a, old_, merged, cloned)
  {
    KeepsCameraKeeps(db, JobRecord(db, j), a, old_, merged, cloned);
  }

  lemma JobStepKeeps(db: Db, step: Step, a: nat, old_: Item, merged: Item, cloned: Item)
    requires EditedState(db, a, old_, merged, cloned)
    requires step.Reads? || step.Previews? || step.Records? || step.SetsCamera?
    ensures EditedState(Next(db, step), a, old_, merged, cloned)
  {
    match step
    case Reads(j) => ReadKeeps(db, j, a, old_, merged, cloned);
    case Previews(j, accepted) => PreviewKeeps(db, j, accepted, a, old_, merged, cloned);
    case Records(j) => RecordKeeps(db, j, a, old_, merged, cloned);
    case SetsCamera(camera, enabled) => KeepsCameraKeeps(db, Next(db, step), a, old_, merged, cloned);
  }

  lemma SyncStepKeeps(db: Db, step: Step, a: nat, old_: Item, merged: Item, cloned: Item)
    requires EditedState(db, a, old_, merged, cloned)
    requires step.Claims? || step.Succeeds? || step.Fails?
    ensures EditedState(Next(db, step), a, old_, merged, cloned)
  {
    SyncKeepsValid(db.ledger, if step.Claims? then 0 else step.token, step.Fails? && step.operatorRequired);
    KeepsCameraKeeps(db, Next(db, step), a, old_, merged, cloned);
  }

  lemma CommitGives(db: Db, j: nat, accepted: bool, item: Item)
    requires Valid(db.ledger) && j < |db.jobs| && RestoresTo(db.jobs[j], item) && item.apps != []
    requires JobCommit(db, j, accepted).ledger != db.ledger
    ensures var d' := JobCommit(db, j, accepted).ledger;
            && Valid(d') && |d'.sets| == |db.ledger.sets| + 1 && db.ledger.sets <= d'.sets
            && d'.sets[|db.ledger.sets|].key == KeyOf(db.jobs[j]) && Gives(d'.sets[|db.ledger.sets|], item)
  {
    var job := db.jobs[j];
    CommitKeepsValid(db.ledger, db.cameras, job.base.value.settings, JobItems(job), job.preview.value, KeyOf(job), accepted);
    SubstitutedCommitServes(job.base.value.items, item, db.cameras, item.camera);
  }

  lemma CommitStepKeeps(db: Db, j: nat, accepted: bool, a: nat, old_: Item, merged: Item, cloned: Item)
    requires EditedState(db, a, old_, merged, cloned) && IsRestoreOf(db, j, a)
    ensures EditedState(JobCommit(db, j, accepted), a, old_, merged, cloned)
  {
    var db' := JobCommit(db, j, accepted);
    assert forall k :: 0 <= k < |db.jobs| && k != j ==> db'.jobs[k] == db.jobs[k];
    assert RestoresTo(db'.jobs[j], old_);
    if db'.ledger != db.ledger {
      CommitGives(db, j, accepted, old_);
      var set_ := db'.ledger.sets[|db.ledger.sets|];
      assert db'.ledger.sets == db.ledger.sets + [set_];
      FindKeyExtends(db.ledger.sets, set_, Restore(a));
    } else {
      KeepsCameraKeeps(db, db', a, old_, merged, cloned);
    }
  }

  lemma StepKeepsEdited(db: Db, step: Step, a: nat, old_: Item, merged: Item, cloned: Item)
    requires EditedState(db, a, old_, merged, cloned) && Undisturbed(db, step, a)
    ensures EditedState(Next(db, step), a, old_, merged, cloned)
  {
    if step.Commits? {
      CommitStepKeeps(db, step.job, step.accepted, a, old_, merged, cloned);
    } else if step.Edits? || step.Rotates? || step.SetsLifecycle? {
      CloningStepKeeps(db, step, a, old_, merged, cloned);
    } else if step.Claims? || step.Succeeds? || step.Fails? {
      SyncStepKeeps(db, step, a, old_, merged, cloned);
    } else if step.Reads? || step.Previews? || step.Records? || step.SetsCamera? {
      JobStepKeeps(db, step, a, old_, merged, cloned);
    } else if step.Cancels? || step.Ticks? || step.Polls? {
      LeavingStepKeeps(db, step, a, old_, merged, cloned);
    } else {
      StartStepKeeps(db, step, a, old_, merged, cloned);
    }
  }

  lemma {:induction false} RunKeepsEdited(db: Db, steps: seq<Step>, a: nat, old_: Item, merged: Item, cloned: Item)
    requires EditedState(db, a, old_, merged, cloned) && UndisturbedRun(db, steps, a)
    ensures EditedState(Run(db, steps), a, old_, merged, cloned)
  {
    if steps != [] {
      RunKeepsEdited(db, steps[..|steps| - 1], a, old_, merged, cloned);
      StepKeepsEdited(Run(db, steps[..|steps| - 1]), steps[|steps| - 1], a, old_, merged, cloned);
    }
  }

  // ---------------------------------------------------------------- the edit

  /** An edit that takes effect while session a is restoring, its restore not committed. */
  ghost predicate EditsPending(db: Db, a: nat, geometry: Config) {
    && Inv(db) && a < |db.sessions| && db.sessions[a].status == Restoring && !Queued(db.ledger, a)
    && EditResult(db, db.sessions[a].camera, geometry, true).Some?
  }

  function AfterEdit(db: Db, a: nat, geometry: Config): Db
    requires a < |db.sessions|
  {
    EditGeometry(db, db.sessions[a].camera, geometry, true)
  }

  function Remerged(item: Item, geometry: Config): Item {
    item.(config := Merge(item.config, geometry))
  }

  /** What the camera runs in the newest set. */
  function NewestOf(db: Db, camera: CameraId): Option<Item> {
    if db.ledger.sets == [] then None else ItemOf(CurrentItems(db.ledger), camera)
  }

  lemma PendingEditClones(db: Db, a: nat, geometry: Config)
    requires EditsPending(db, a, geometry)
    ensures EditClones(db, db.sessions[a].camera, geometry)
    ensures Holds(db.ledger.sets[|db.ledger.sets| - 1].rows, db.sessions[a])
  {
    assert SessionOk(db.ledger, a, db.sessions[a]);
    assert Active(db.sessions[a]);
  }

  lemma ClonedItem(source: AssignmentSet, set_: AssignmentSet, over: Overrides, s: Session, item: Item, geometry: Config)
    requires ValidRows(source.rows) && Holds(source.rows, s) && item == ItemOfRow(RowOf(source.rows, s.camera).value)
    requires s.prior.camera == s.camera && s.prior.apps != EnrollmentApps
    requires set_.rows == CloneRows(source.rows, over)
    requires over.configs == map[s.camera := Merge(item.config, geometry)]
    ensures item.camera == s.camera && Gives(set_, Remerged(item, geometry))
    ensures Remerged(item, geometry) == Remerged(s.prior, geometry) <==> item.apps != EnrollmentApps
  {
    RowOfIsListed(source.rows, s.camera);
    CloneGives(source, set_, over, s.camera);
    CloneGivesBack(source, set_, over, s, geometry);
    GivesOne(set_, Remerged(item, geometry), Remerged(s.prior, geometry));
  }

  lemma EditClonesNewestItem(db: Db, a: nat, geometry: Config) returns (set_: AssignmentSet, over: Overrides)
    requires EditsPending(db, a, geometry)
    ensures NewestOf(db, db.sessions[a].camera).Some?
    ensures var camera := db.sessions[a].camera;
            var edited, before := AfterEdit(db, a, geometry), NewestOf(db, camera).value;
            && before.camera == camera && Edited(db, edited, set_, over, camera, geometry)
            && Valid(edited.ledger) && edited.ledger.phase == Pending && edited.ledger.claims == db.ledger.claims
            && Gives(set_, Remerged(before, geometry))
            && (Remerged(before, geometry) == Remerged(db.sessions[a].prior, geometry) <==> before.apps != EnrollmentApps)
  {
    var camera := db.sessions[a].camera;
    assert SessionOk(db.ledger, a, db.sessions[a]);
    PendingEditClones(db, a, geometry);
    set_, over := EditWithClone(db, camera, geometry);
    EditKeepsPending(db, camera, geometry);
    NewestItem(db.ledger, camera);
    ClonedItem(db.ledger.sets[|db.ledger.sets| - 1], set_, over, db.sessions[a], NewestOf(db, camera).value, geometry);
  }

  lemma EditEstablishes(db: Db, a: nat, geometry: Config)
    requires EditsPending(db, a, geometry)
    ensures NewestOf(db, db.sessions[a].camera).Some?
    ensures var prior := db.sessions[a].prior;
            && EditedState(AfterEdit(db, a, geometry), a, prior, Remerged(prior, geometry),
                           Remerged(NewestOf(db, prior.camera).value, geometry))
            && !Queued(AfterEdit(db, a, geometry).ledger, a)
            && AfterEdit(db, a, geometry).sessions[a].status == Restoring
  {
    var set_, over := EditClonesNewestItem(db, a, geometry);
    var s, edited := db.sessions[a], AfterEdit(db, a, geometry);
    assert SessionOk(db.ledger, a, s);
    FindKeyExtends(db.ledger.sets, set_, Restore(a));
    forall j | 0 <= j < |edited.jobs| && IsRestoreOf(edited, j, a) ensures RestoresTo(edited.jobs[j], s.prior) {
      assert JobOk(db.ledger, db.sessions, db.jobs[j]);
    }
  }

  /** Whatever follows that leaves the camera to its session: it is given back exactly
      if either no restore was committed after the edit and the newest set did not have
      the camera enrolled, or one was committed and the edit changed nothing of the prior
      configuration, which is what every restore still under way puts back. */
  lemma EditOutcome(db: Db, a: nat, geometry: Config, steps: seq<Step>)
    requires EditsPending(db, a, geometry) && UndisturbedRun(AfterEdit(db, a, geometry), steps, a)
    ensures NewestOf(db, db.sessions[a].camera).Some?
    ensures var end, prior := Run(AfterEdit(db, a, geometry), steps), db.sessions[a].prior;
            && a < |end.sessions| && end.sessions[a].prior == Remerged(prior, geometry)
            && (GivenBack(end.ledger, end.sessions[a].prior) <==>
                  if Queued(end.ledger, a) then Remerged(prior, geometry) == prior
                  else NewestOf(db, prior.camera).value.apps != EnrollmentApps)
  {
    var prior := db.sessions[a].prior;
    assert SessionOk(db.ledger, a, db.sessions[a]);
    EditEstablishes(db, a, geometry);
    var set_, over := EditClonesNewestItem(db, a, geometry);
    var merged, cloned := Remerged(prior, geometry), Remerged(NewestOf(db, prior.camera).value, geometry);
    RunKeepsEdited(AfterEdit(db, a, geometry), steps, a, prior, merged, cloned);
    EditedOutcome(Run(AfterEdit(db, a, geometry), steps), a, prior, merged, cloned);
  }

  lemma EditedOutcome(db: Db, a: nat, old_: Item, merged: Item, cloned: Item)
    requires EditedState(db, a, old_, merged, cloned)
    ensures GivenBack(db.ledger, merged) <==> merged == if Queued(db.ledger, a) then old_ else cloned
  {
    GivesOne(db.ledger.sets[|db.ledger.sets| - 1], if Queued(db.ledger, a) then old_ else cloned, merged);
  }

  // ---------------------------------------------------------------- restores under way at the edit

  /** What the job would commit: its own read, or the newest items it has yet to read. */
  function ItemsToCommit(db: Db, job: Job): seq<Item>
    requires db.ledger.sets != []
  {
    if job.base.Some? then JobItems(job) else Substitute(CurrentItems(db.ledger), job.target)
  }

  /** The job has yet to preview, and its preview would be accepted. */
  ghost predicate CanCommit(db: Db, job: Job) {
    && db.ledger.sets != [] && !job.stopped && job.preview.None? && job.committed.None?
    && AcceptableItems(ItemsToCommit(db, job), db.cameras)
  }

  ghost predicate RestoreUnderWay(db: Db, a: nat) {
    exists j :: 0 <= j < |db.jobs| && IsRestoreOf(db, j, a) && CanCommit(db, db.jobs[j])
  }

  /** No restore of the session can be committed any more. */
  ghost predicate NoneUnderWay(db: Db, a: nat) {
    && Valid(db.ledger) && db.ledger.sets != [] && !Queued(db.ledger, a)
    && a < |db.sessions| && db.sessions[a].status != Activating
    && (db.sessions[a].status == Restoring ==> db.sessions[a].restoration.Some?)
    && !RestoreUnderWay(db, a)
    && forall j :: 0 <= j < |db.jobs| && IsRestoreOf(db, j, a) ==> Outdated(db, db.jobs[j])
  }

  ghost predicate Outdated(db: Db, job: Job) {
    job.committed.None? && (job.preview.Some? ==> job.preview.value.revision < db.ledger.next)
  }

  lemma JobKeepsNone(db: Db, db': Db, a: nat, j: nat)
    requires NoneUnderWay(db, a) && IsRestoreOf(db, j, a)
    requires db' == db.(jobs := db'.jobs) && |db'.jobs| == |db.jobs| && db'.jobs == db.jobs[j := db'.jobs[j]]
    requires IsRestoreOf(db', j, a) && !CanCommit(db', db'.jobs[j]) && Outdated(db', db'.jobs[j])
    ensures NoneUnderWay(db', a)
  {
    forall k | 0 <= k < |db'.jobs| && IsRestoreOf(db', k, a) ensures !CanCommit(db', db'.jobs[k]) && Outdated(db', db'.jobs[k]) {
      if k != j {
        assert IsRestoreOf(db, k, a) && !CanCommit(db, db.jobs[k]) && Outdated(db, db.jobs[k]);
      }
    }
  }

  lemma JobStepKeepsNone(db: Db, step: Step, a: nat)
    requires NoneUnderWay(db, a) && RestoreStep(db, step, a)
    requires step.Reads? || step.Previews? || step.Commits?
    ensures NoneUnderWay(Next(db, step), a)
  {
    var j := step.job;
    assert !CanCommit(db, db.jobs[j]) && Outdated(db, db.jobs[j]);
    JobKeepsNone(db, Next(db, step), a, j);
  }

  lemma SessionStepKeepsNone(db: Db, step: Step, a: nat)
    requires NoneUnderWay(db, a) && RestoreStep(db, step, a) && (step.Ticks? || step.Records?)
    ensures NoneUnderWay(Next(db, step), a)
  {
    var db' := Next(db, step);
    forall k | 0 <= k < |db.jobs| && IsRestoreOf(db, k, a) ensures !CanCommit(db', db.jobs[k]) && Outdated(db', db.jobs[k]) {
      assert !CanCommit(db, db.jobs[k]) && Outdated(db, db.jobs[k]);
    }
  }

  lemma SyncStepKeepsNone(db: Db, step: Step, a: nat)
    requires NoneUnderWay(db, a) && (step.Claims? || step.Succeeds? || step.Fails?)
    ensures NoneUnderWay(Next(db, step), a)
  {
    SyncKeepsValid(db.ledger, if step.Claims? then 0 else step.token, step.Fails? && step.operatorRequired);
    var db' := Next(db, step);
    forall k | 0 <= k < |db.jobs| && IsRestoreOf(db, k, a) ensures !CanCommit(db', db.jobs[k]) && Outdated(db', db.jobs[k]) {
      assert !CanCommit(db, db.jobs[k]) && Outdated(db, db.jobs[k]);
    }
  }

  lemma {:induction false} RunKeepsNone(db: Db, steps: seq<Step>, a: nat)
    requires NoneUnderWay(db, a) && RestoreRun(db, steps, a)
    ensures NoneUnderWay(Run(db, steps), a)
  {
    if steps != [] {
      var before, last := Run(db, steps[..|steps| - 1]), steps[|steps| - 1];
      RunKeepsNone(db, steps[..|steps| - 1], a);
      if last.Reads? || last.Previews? || last.Commits? {
        JobStepKeepsNone(before, last, a);
      } else if last.Ticks? || last.Records? {
        SessionStepKeepsNone(before, last, a);
      } else {
        SyncStepKeepsNone(before, last, a);
      }
    }
  }

  lemma {:induction false} RestoreRunIsUndisturbed(db: Db, steps: seq<Step>, a: nat)
    requires RestoreRun(db, steps, a) && a < |db.sessions|
    ensures UndisturbedRun(db, steps, a) && a < |Run(db, steps).sessions|
  {
    if steps != [] {
      RestoreRunIsUndisturbed(db, steps[..|steps| - 1], a);
    }
  }

  // ---------------------------------------------------------------- how the session can end

  ghost predicate Ended(db: Db, a: nat) {
    a < |db.sessions| && db.sessions[a].restoredAt.Some? && !Active(db.sessions[a])
  }

  ghost predicate RestoreLeads(db: Db, steps: seq<Step>, s: Db, a: nat) {
    RestoreRun(db, steps, a) && Run(db, steps) == s
  }

  lemma RestoreLeadsOn(db: Db, steps: seq<Step>, s: Db, step: Step, a: nat)
    requires RestoreLeads(db, steps, s, a) && RestoreStep(s, step, a)
    ensures RestoreLeads(db, steps + [step], Next(s, step), a)
  {
    assert (steps + [step])[..|steps|] == steps;
  }

  /** The session waits for the newest set, and synchronization is free to apply it. */
  ghost predicate AwaitsNewest(db: Db, a: nat) {
    && Valid(db.ledger) && db.ledger.sets != []
    && (db.ledger.phase == Pending || db.ledger.phase == Failed || db.ledger.phase == Applying)
    && a < |db.sessions| && db.sessions[a].status == Restoring
    && db.sessions[a].restorationRevision == Some(|db.ledger.sets|) && db.sessions[a].restoration.Some?
  }

  function AppliedNext(db: Db, a: nat, now: int): Db {
    Next(Next(Next(db, Claims), Succeeds(|db.ledger.claims|)), Ticks(a, now))
  }

  lemma AppliedEnds(db: Db, a: nat, now: int)
    requires AwaitsNewest(db, a)
    ensures Ended(AppliedNext(db, a, now), a) && AppliedNext(db, a, now).ledger.sets == db.ledger.sets
  {
    var claimed := Claim(db.ledger);
    assert claimed.phase == Applying && claimed.claims == db.ledger.claims + [|db.ledger.sets| - 1];
    assert RevisionApplied(RecordSuccess(claimed, |db.ledger.claims|), Some(|db.ledger.sets|));
  }

  lemma AppliedLeads(db: Db, steps: seq<Step>, s: Db, a: nat, now: int) returns (more: seq<Step>)
    requires RestoreLeads(db, steps, s, a)
    ensures RestoreLeads(db, more, AppliedNext(s, a, now), a)
  {
    var claimed := Next(s, Claims);
    var t := |s.ledger.claims|;
    RestoreLeadsOn(db, steps, s, Claims, a);
    RestoreLeadsOn(db, steps + [Claims], claimed, Succeeds(t), a);
    RestoreLeadsOn(db, steps + [Claims] + [Succeeds(t)], Next(claimed, Succeeds(t)), Ticks(a, now), a);
    more := steps + [Claims] + [Succeeds(t)] + [Ticks(a, now)];
  }

  lemma EditedAwaits(db: Db, a: nat, geometry: Config)
    requires EditsPending(db, a, geometry)
    ensures AwaitsNewest(AfterEdit(db, a, geometry), a) && !Queued(AfterEdit(db, a, geometry).ledger, a)
  {
    var set_, over := EditClonesNewestItem(db, a, geometry);
    EditEstablishes(db, a, geometry);
  }

  /** Without a restore under way, or with one that is slow, the session ends on the clone. */
  lemma EndsOnTheClone(db: Db, a: nat, geometry: Config, now: int) returns (steps: seq<Step>)
    requires EditsPending(db, a, geometry)
    ensures var edited := AfterEdit(db, a, geometry);
            RestoreRun(edited, steps, a) && Ended(Run(edited, steps), a) && !Queued(Run(edited, steps).ledger, a)
  {
    var edited := AfterEdit(db, a, geometry);
    EditedAwaits(db, a, geometry);
    steps := AwaitingEnds(edited, a, now);
  }

  lemma AwaitingEnds(db: Db, a: nat, now: int) returns (steps: seq<Step>)
    requires AwaitsNewest(db, a)
    ensures RestoreRun(db, steps, a) && Ended(Run(db, steps), a) && Run(db, steps).ledger.sets == db.ledger.sets
  {
    assert RestoreLeads(db, [], db, a);
    steps := AppliedLeads(db, [], db, a, now);
    AppliedEnds(db, a, now);
  }

  // ---------------------------------------------------------------- a restore overtaken by the edit

  /** A restore that can still commit, with nobody else's camera in the way. */
  ghost predicate ReadyToCommit(db: Db, a: nat, j: nat) {
    && Valid(db.ledger) && !Queued(db.ledger, a) && IsRestoreOf(db, j, a) && CanCommit(db, db.jobs[j])
    && a < |db.sessions| && db.sessions[a].status == Restoring
    && forall b :: 0 <= b < |db.sessions| && Active(db.sessions[b]) ==> b == a
  }

  lemma ReadIs(db: Db, a: nat, j: nat)
    requires ReadyToCommit(db, a, j)
    ensures var read := JobRead(db, j);
            && read == db.(jobs := read.jobs) && |read.jobs| == |db.jobs| && IsRestoreOf(read, j, a)
            && read.jobs[j].base.Some? && JobItems(read.jobs[j]) == ItemsToCommit(db, db.jobs[j])
            && ReadyToCommit(read, a, j)
  {
  }

  lemma CommitsAfterRead(db: Db, a: nat, j: nat)
    requires ReadyToCommit(db, a, j) && db.jobs[j].base.Some?
    ensures var previewed := JobPreview(db, j, true);
            var end := JobCommit(previewed, j, true);
            && previewed == db.(jobs := previewed.jobs) && |previewed.jobs| == |db.jobs| && IsRestoreOf(previewed, j, a)
            && IsRestoreOf(end, j, a) && end.jobs[j].committed == Some(|db.ledger.sets|)
            && Valid(end.ledger) && |end.ledger.sets| == |db.ledger.sets| + 1 && db.ledger.sets <= end.ledger.sets
            && end.ledger.sets[|db.ledger.sets|].key == Restore(a) && end.ledger.phase == Pending
            && end.sessions == db.sessions
            && (RestoresTo(db.jobs[j], db.jobs[j].target) && db.jobs[j].target.apps != [] ==>
                  Gives(end.ledger.sets[|db.ledger.sets|], db.jobs[j].target))
  {
    var previewed := JobPreview(db, j, true);
    var job := previewed.jobs[j];
    assert job.preview.Some? && JobItems(job) == JobItems(db.jobs[j]);
    assert !Blocked(previewed, JobItems(job), Some(a));
    CommitKeepsValid(db.ledger, db.cameras, job.base.value.settings, JobItems(job), job.preview.value, Restore(a), true);
    if RestoresTo(job, job.target) && job.target.apps != [] {
      CommitGives(previewed, j, true, job.target);
    }
  }

  lemma RecordedAwaits(db: Db, a: nat, j: nat)
    requires Valid(db.ledger) && db.ledger.sets != [] && IsRestoreOf(db, j, a)
    requires db.jobs[j].committed == Some(|db.ledger.sets| - 1) && db.ledger.phase == Pending
    requires a < |db.sessions| && db.sessions[a].status == Restoring
    ensures AwaitsNewest(JobRecord(db, j), a) && JobRecord(db, j).ledger == db.ledger
  {
  }

  /** The worker's pass up to its commit. */
  function PassOf(db: Db, j: nat): Db {
    JobCommit(JobPreview(JobRead(db, j), j, true), j, true)
  }

  lemma PassCommits(db: Db, a: nat, j: nat)
    requires ReadyToCommit(db, a, j)
    ensures var end := PassOf(db, j);
            && IsRestoreOf(end, j, a) && end.jobs[j].committed == Some(|db.ledger.sets|) && end.sessions == db.sessions
            && Valid(end.ledger) && |end.ledger.sets| == |db.ledger.sets| + 1 && end.ledger.phase == Pending
            && Queued(end.ledger, a)
            && (db.jobs[j].base.Some? && RestoresTo(db.jobs[j], db.jobs[j].target) && db.jobs[j].target.apps != [] ==>
                  GivenBack(end.ledger, db.jobs[j].target))
  {
    ReadIs(db, a, j);
    CommitsAfterRead(JobRead(db, j), a, j);
    var end := PassOf(db, j);
    var set_ := end.ledger.sets[|db.ledger.sets|];
    assert end.ledger.sets == db.ledger.sets + [set_];
    FindKeyExtends(db.ledger.sets, set_, Restore(a));
  }

  function PassSteps(j: nat): seq<Step> {
    [] + [Reads(j)] + [Previews(j, true)] + [Commits(j, true)] + [Records(j)]
  }

  lemma PassLeads(db: Db, a: nat, j: nat)
    requires ReadyToCommit(db, a, j)
    ensures RestoreLeads(db, PassSteps(j), JobRecord(PassOf(db, j), j), a)
  {
    var read := JobRead(db, j);
    ReadIs(db, a, j);
    CommitsAfterRead(read, a, j);
    var previewed := JobPreview(read, j, true);
    assert RestoreLeads(db, [], db, a);
    RestoreLeadsOn(db, [], db, Reads(j), a);
    RestoreLeadsOn(db, [] + [Reads(j)], read, Previews(j, true), a);
    RestoreLeadsOn(db, [] + [Reads(j)] + [Previews(j, true)], previewed, Commits(j, true), a);
    RestoreLeadsOn(db, [] + [Reads(j)] + [Previews(j, true)] + [Commits(j, true)], PassOf(db, j), Records(j), a);
  }

  lemma AppliedKeepsPrior(db: Db, a: nat, now: int)
    requires a < |db.sessions|
    ensures var end := AppliedNext(db, a, now); a < |end.sessions| && end.sessions[a].prior == db.sessions[a].prior
  {
  }

  lemma RecordKeepsPrior(db: Db, j: nat, a: nat)
    requires a < |db.sessions|
    ensures var end := JobRecord(db, j); a < |end.sessions| && end.sessions[a].prior == db.sessions[a].prior
  {
  }

  /** A restore that can commit, commits, is recorded and applied, and ends the session. */
  lemma EndsOnTheRestore(db: Db, a: nat, j: nat, now: int) returns (steps: seq<Step>)
    requires ReadyToCommit(db, a, j)
    ensures RestoreRun(db, steps, a) && Ended(Run(db, steps), a) && Queued(Run(db, steps).ledger, a)
    ensures Run(db, steps).sessions[a].prior == db.sessions[a].prior
    ensures db.jobs[j].base.Some? && RestoresTo(db.jobs[j], db.jobs[j].target) && db.jobs[j].target.apps != [] ==>
              GivenBack(Run(db, steps).ledger, db.jobs[j].target)
  {
    var committed := PassOf(db, j);
    var recorded := JobRecord(committed, j);
    PassCommits(db, a, j);
    PassLeads(db, a, j);
    RecordedAwaits(committed, a, j);
    RecordKeepsPrior(committed, j, a);
    AppliedKeepsPrior(recorded, a, now);
    AppliedEnds(recorded, a, now);
    steps := AppliedLeads(db, PassSteps(j), recorded, a, now);
  }

  lemma UnderWayIsReady(db: Db, a: nat, geometry: Config) returns (j: nat)
    requires EditsPending(db, a, geometry) && RestoreUnderWay(AfterEdit(db, a, geometry), a)
    ensures ReadyToCommit(AfterEdit(db, a, geometry), a, j)
  {
    var edited := AfterEdit(db, a, geometry);
    EditEstablishes(db, a, geometry);
    var set_, over := EditClonesNewestItem(db, a, geometry);
    j :| 0 <= j < |edited.jobs| && IsRestoreOf(edited, j, a) && CanCommit(edited, edited.jobs[j]);
    forall b | 0 <= b < |edited.sessions| && Active(edited.sessions[b]) ensures b == a {
      assert Active(db.sessions[b]) && Active(db.sessions[a]);
    }
  }

  lemma EditLeavesNone(db: Db, a: nat, geometry: Config)
    requires EditsPending(db, a, geometry) && !RestoreUnderWay(AfterEdit(db, a, geometry), a)
    ensures NoneUnderWay(AfterEdit(db, a, geometry), a)
  {
    var edited := AfterEdit(db, a, geometry);
    EditEstablishes(db, a, geometry);
    var set_, over := EditClonesNewestItem(db, a, geometry);
    forall j | 0 <= j < |edited.jobs| && IsRestoreOf(edited, j, a) ensures Outdated(edited, edited.jobs[j]) {
      assert JobOk(db.ledger, db.sessions, db.jobs[j]);
    }
  }

  // ---------------------------------------------------------------- what decides

  /** The run ends the session, by its own steps alone. */
  ghost predicate EndsBy(db: Db, steps: seq<Step>, a: nat) {
    RestoreRun(db, steps, a) && Ended(Run(db, steps), a)
  }

  ghost predicate GivesBackBy(db: Db, steps: seq<Step>, a: nat) {
    EndsBy(db, steps, a) && GivenBack(Run(db, steps).ledger, Run(db, steps).sessions[a].prior)
  }

  /** What can be read at the edit: does the newest set have the camera enrolled, can a
      restore that is under way still commit, and does the edit change the prior item
      that it puts back? */
  ghost predicate AlwaysGivenBack(db: Db, a: nat, geometry: Config)
    requires a < |db.sessions|
  {
    var prior := db.sessions[a].prior;
    && NewestOf(db, prior.camera).Some? && NewestOf(db, prior.camera).value.apps != EnrollmentApps
    && (RestoreUnderWay(AfterEdit(db, a, geometry), a) ==> Remerged(prior, geometry) == prior)
  }

  ghost predicate SometimesGivenBack(db: Db, a: nat, geometry: Config)
    requires a < |db.sessions|
  {
    var prior := db.sessions[a].prior;
    || (NewestOf(db, prior.camera).Some? && NewestOf(db, prior.camera).value.apps != EnrollmentApps)
    || (RestoreUnderWay(AfterEdit(db, a, geometry), a) && Remerged(prior, geometry) == prior)
  }

  lemma OwnRunOutcome(db: Db, a: nat, geometry: Config, steps: seq<Step>)
    requires EditsPending(db, a, geometry) && EndsBy(AfterEdit(db, a, geometry), steps, a)
    ensures var edited := AfterEdit(db, a, geometry);
            && NewestOf(db, db.sessions[a].prior.camera).Some?
            && (Queued(Run(edited, steps).ledger, a) ==> RestoreUnderWay(edited, a))
            && (GivesBackBy(edited, steps, a) <==>
                  if Queued(Run(edited, steps).ledger, a) then Remerged(db.sessions[a].prior, geometry) == db.sessions[a].prior
                  else NewestOf(db, db.sessions[a].prior.camera).value.apps != EnrollmentApps)
  {
    var edited := AfterEdit(db, a, geometry);
    EditEstablishes(db, a, geometry);
    RestoreRunIsUndisturbed(edited, steps, a);
    EditOutcome(db, a, geometry, steps);
    assert SessionOk(db.ledger, a, db.sessions[a]);
    if !RestoreUnderWay(edited, a) {
      EditLeavesNone(db, a, geometry);
      RunKeepsNone(edited, steps, a);
    }
  }

  /** Over all runs by which the session can end by itself after the edit: every one gives
      the camera back exactly if `AlwaysGivenBack`, and some one does exactly if
      `SometimesGivenBack`. There always is one. */
  lemma EditDecides(db: Db, a: nat, geometry: Config)
    requires EditsPending(db, a, geometry)
    ensures var edited := AfterEdit(db, a, geometry);
            && (exists steps :: EndsBy(edited, steps, a))
            && ((forall steps :: EndsBy(edited, steps, a) ==> GivesBackBy(edited, steps, a))
                  <==> AlwaysGivenBack(db, a, geometry))
            && ((exists steps :: GivesBackBy(edited, steps, a)) <==> SometimesGivenBack(db, a, geometry))
  {
    var edited := AfterEdit(db, a, geometry);
    forall steps | EndsBy(edited, steps, a)
      ensures AlwaysGivenBack(db, a, geometry) ==> GivesBackBy(edited, steps, a)
      ensures GivesBackBy(edited, steps, a) ==> SometimesGivenBack(db, a, geometry)
    {
      OwnRunOutcome(db, a, geometry, steps);
    }
    var onClone := EndsOnTheClone(db, a, geometry, 0);
    OwnRunOutcome(db, a, geometry, onClone);
    assert EndsBy(edited, onClone, a);
    if RestoreUnderWay(edited, a) {
      var j := UnderWayIsReady(db, a, geometry);
      var onRestore := EndsOnTheRestore(edited, a, j, 0);
      OwnRunOutcome(db, a, geometry, onRestore);
      assert EndsBy(edited, onRestore, a);
    }
  }

  /** A restore that had read before the edit, or has yet to, can lose it: the session
      ends with its merged item remembered and its unmerged one on the camera. */
  lemma RestoreUnderWayLosesTheEdit(db: Db, a: nat, geometry: Config, now: int) returns (steps: seq<Step>)
    requires EditsPending(db, a, geometry) && RestoreUnderWay(AfterEdit(db, a, geometry), a)
    requires Remerged(db.sessions[a].prior, geometry) != db.sessions[a].prior
    ensures var edited := AfterEdit(db, a, geometry);
            EndsBy(edited, steps, a) && !GivesBackBy(edited, steps, a) && GivenBack(Run(edited, steps).ledger, db.sessions[a].prior)
  {
    var edited, prior := AfterEdit(db, a, geometry), db.sessions[a].prior;
    var j := UnderWayIsReady(db, a, geometry);
    steps := EndsOnTheRestore(edited, a, j, now);
    OwnRunOutcome(db, a, geometry, steps);
    EditEstablishes(db, a, geometry);
    RestoreRunIsUndisturbed(edited, steps, a);
    RunKeepsEdited(edited, steps, a, prior, Remerged(prior, geometry), Remerged(NewestOf(db, prior.camera).value, geometry));
  }

  lemma ReadAcrossEdit(db: Db, a: nat, j: nat, geometry: Config)
    requires EditsPending(db, a, geometry) && IsRestoreOf(db, j, a) && db.jobs[j].base.Some?
    requires CanCommit(db, db.jobs[j])
    ensures RestoreUnderWay(AfterEdit(db, a, geometry), a)
  {
    var edited := AfterEdit(db, a, geometry);
    var set_, over := EditClonesNewestItem(db, a, geometry);
    assert IsRestoreOf(edited, j, a) && CanCommit(edited, edited.jobs[j]) by {
      EditKeepsEnabled(db, db.sessions[a].camera, geometry, JobItems(db.jobs[j]));
    }
  }

  lemma EditKeepsEnabled(db: Db, camera: CameraId, geometry: Config, items: seq<Item>)
    requires AcceptableItems(items, db.cameras)
    ensures AcceptableItems(items, EditGeometry(db, camera, geometry, true).cameras)
  {
    var cameras := EditGeometry(db, camera, geometry, true).cameras;
    assert forall c :: c in db.cameras ==> c in cameras && cameras[c].enabled == db.cameras[c].enabled;
  }

  lemma EditIgnoresJobs(db: Db, jobs: seq<Job>, camera: CameraId, geometry: Config)
    ensures EditResult(db.(jobs := jobs), camera, geometry, true).Some? <==> EditResult(db, camera, geometry, true).Some?
  {
  }

  lemma TickedAndRead(db: Db, a: nat, now: int)
    requires Inv(db) && a < |db.sessions| && db.sessions[a].status == Restoring && !Queued(db.ledger, a)
    requires AcceptableItems(Substitute(CurrentItems(db.ledger), db.sessions[a].prior), db.cameras)
    ensures var j, read := |db.jobs|, Next(Next(db, Ticks(a, now)), Reads(|db.jobs|));
            && Inv(read) && read == db.(jobs := read.jobs)
            && IsRestoreOf(read, j, a) && read.jobs[j].base.Some? && CanCommit(read, read.jobs[j])
  {
    var j := |db.jobs|;
    assert SessionOk(db.ledger, a, db.sessions[a]);
    var ticked := Next(db, Ticks(a, now));
    assert ticked == db.(jobs := db.jobs + [NewJob(a, db.sessions[a])]);
    TickKeepsInv(db, a, now);
    JobReadKeepsInv(ticked, j);
  }

  /** And a restore can be under way: any restoring session whose restore is not
      committed gets there by one tick and one read. */
  lemma RestoreGetsUnderWay(db: Db, a: nat, geometry: Config, now: int)
    requires EditsPending(db, a, geometry)
    requires AcceptableItems(Substitute(CurrentItems(db.ledger), db.sessions[a].prior), db.cameras)
    ensures var read := Next(Next(db, Ticks(a, now)), Reads(|db.jobs|));
            && read.ledger == db.ledger && read.sessions == db.sessions
            && EditsPending(read, a, geometry) && RestoreUnderWay(AfterEdit(read, a, geometry), a)
  {
    var read := Next(Next(db, Ticks(a, now)), Reads(|db.jobs|));
    TickedAndRead(db, a, now);
    EditIgnoresJobs(db, read.jobs, db.sessions[a].camera, geometry);
    ReadAcrossEdit(read, a, |db.jobs|, geometry);
  }
}
