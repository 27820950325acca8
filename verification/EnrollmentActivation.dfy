/** When an activation must have been committed for its camera to come back. */
module EnrollmentActivation {
  import opened Options
  import opened CameraConfig
  import opened Ledger
  import opened Enrollment
  import opened EnrollmentSafety
  import opened EnrollmentTheorems

  /** The job's session is active and its restore has not been committed. */
  ghost predicate InTime(db: Db, j: nat) {
    && j < |db.jobs| && db.jobs[j].session < |db.sessions|
    && Active(db.sessions[db.jobs[j].session]) && !Queued(db.ledger, db.jobs[j].session)
  }

  /** Whatever happens, except commits by operators and for other sessions. */
  ghost predicate Alone(db: Db, steps: seq<Step>, a: nat) {
    steps == [] ||
    (Alone(db, steps[..|steps| - 1], a) && OwnStep(Run(db, steps[..|steps| - 1]), steps[|steps| - 1], a))
  }

  predicate OwnStep(db: Db, step: Step, a: nat) {
    && !step.CommitsGeneric?
    && (step.Commits? && step.job < |db.jobs| ==> db.jobs[step.job].session == a)
  }

  /** The session has ended and its camera runs what it ran when it was borrowed. */
  ghost predicate BackAndEnded(db: Db, a: nat) {
    && a < |db.sessions| && !Active(db.sessions[a])
    && GivenBack(db.ledger, db.sessions[a].prior)
  }

  ghost predicate ComesBack(db: Db, steps: seq<Step>, a: nat) {
    Alone(db, steps, a) && BackAndEnded(Run(db, steps), a)
  }

  ghost predicate CanComeBack(db: Db, a: nat) {
    exists steps :: ComesBack(db, steps, a)
  }

  // ---------------------------------------------------------------- too late

  /** The newest set has the camera enrolled, if it lists it, and nothing is left of
      the session that could give the camera back: no restore of it will be committed
      any more, and its activations only enroll. */
  ghost predicate Abandoned(db: Db, a: nat) {
    && Valid(db.ledger) && db.ledger.sets != [] && a < |db.sessions|
    && db.sessions[a].prior.camera == db.sessions[a].camera && db.sessions[a].prior.apps != EnrollmentApps
    && StillEnrolled(db.ledger.sets[|db.ledger.sets| - 1].rows, db.sessions[a].camera)
    && (Queued(db.ledger, a) || !Active(db.sessions[a]))
    && forall j :: 0 <= j < |db.jobs| && db.jobs[j].session == a ==> GivesNothingBack(db, a, db.jobs[j])
  }

  ghost predicate GivesNothingBack(db: Db, a: nat, job: Job)
    requires a < |db.sessions|
  {
    match job.purpose
    case Activation => job.target.camera == db.sessions[a].camera && job.target.apps == EnrollmentApps
    case Restoration => Queued(db.ledger, a)
  }

  ghost predicate StillEnrolled(rows: seq<CameraRow>, camera: CameraId) {
    RowOf(rows, camera).Some? ==> ItemOfRow(RowOf(rows, camera).value).apps == EnrollmentApps
  }

  lemma AbandonedIsNotBack(db: Db, a: nat)
    requires Abandoned(db, a)
    ensures !GivenBack(db.ledger, db.sessions[a].prior)
  {
  }

  lemma CloneStaysEnrolled(rows: seq<CameraRow>, over: Overrides, camera: CameraId)
    requires ValidRows(rows) && StillEnrolled(rows, camera)
    ensures StillEnrolled(CloneRows(rows, over), camera)
  {
    CloneHolds(rows, over, camera);
    RowOfIsListed(rows, camera);
    if RowOf(rows, camera).Some? {
      CloneRowKeeps(RowOf(rows, camera).value, over);
    }
  }

  /** Sessions and ledger across a step that keeps or clones the newest set. */
  ghost predicate KeepsOrClones(db: Db, db': Db) {
    && |db.sessions| <= |db'.sessions|
    && (forall a :: 0 <= a < |db.sessions| ==>
          && db'.sessions[a].camera == db.sessions[a].camera
          && db'.sessions[a].prior.camera == db.sessions[a].prior.camera
          && db'.sessions[a].prior.apps == db.sessions[a].prior.apps)
    && (db'.ledger.sets == db.ledger.sets
        || (db.ledger.sets != [] && ClonesNewest(db.ledger.sets, db'.ledger.sets)))
  }

  ghost predicate ClonesNewest(sets: seq<AssignmentSet>, sets': seq<AssignmentSet>)
    requires sets != []
  {
    && |sets'| == |sets| + 1 && sets' == sets + [sets'[|sets|]]
    && exists over :: ClonesWith(sets, sets', over)
  }

  ghost predicate ClonesWith(sets: seq<AssignmentSet>, sets': seq<AssignmentSet>, over: Overrides)
    requires sets != [] && |sets'| > |sets|
  {
    sets'[|sets|].rows == CloneRows(sets[|sets| - 1].rows, over)
  }

  /** The session's jobs across a step: none is added unless the session is active. */
  ghost predicate KeepsJobs(db: Db, db': Db, a: nat)
    requires a < |db.sessions| && a < |db'.sessions|
  {
    && (!Active(db.sessions[a]) ==> !Active(db'.sessions[a]))
    && forall j :: 0 <= j < |db'.jobs| && db'.jobs[j].session == a ==>
         || (j < |db.jobs| && db'.jobs[j].session == db.jobs[j].session
             && db'.jobs[j].purpose == db.jobs[j].purpose && db'.jobs[j].target == db.jobs[j].target)
         || (db'.jobs[j].purpose == Restoration && Active(db.sessions[a]))
  }

  lemma KeepsAbandoned(db: Db, db': Db, a: nat)
    requires Abandoned(db, a) && Valid(db'.ledger) && KeepsOrClones(db, db') && KeepsJobs(db, db', a)
    ensures Abandoned(db', a)
  {
    if db'.ledger.sets != db.ledger.sets {
      var set_ := db'.ledger.sets[|db.ledger.sets|];
      var over :| ClonesWith(db.ledger.sets, db'.ledger.sets, over);
      FindKeyExtends(db.ledger.sets, set_, Restore(a));
      CloneStaysEnrolled(db.ledger.sets[|db.ledger.sets| - 1].rows, over, db.sessions[a].camera);
    }
  }

  lemma SessionStepsKeepJobs(db: Db, step: Step, a: nat)
    requires a < |db.sessions|
    requires step.Designates? || step.Starts? || step.Aborts? || step.Cancels? || step.Ticks? || step.Polls?
    ensures a < |Next(db, step).sessions| && KeepsJobs(db, Next(db, step), a)
  {
  }

  lemma JobStepsKeepJobs(db: Db, step: Step, a: nat)
    requires a < |db.sessions|
    requires step.Reads? || step.Previews? || step.Commits? || step.Records? || step.SetsCamera?
    ensures a < |Next(db, step).sessions| && KeepsJobs(db, Next(db, step), a)
  {
  }

  lemma LedgerStepsKeepJobs(db: Db, step: Step, a: nat)
    requires a < |db.sessions|
    requires step.Edits? || step.Rotates? || step.SetsLifecycle? || step.Claims? || step.Succeeds? || step.Fails?
    ensures a < |Next(db, step).sessions| && KeepsJobs(db, Next(db, step), a)
  {
  }

  lemma ClonedIs(d: Deployment, key: Key, intent: Intent, over: Overrides)
    requires Valid(d) && d.sets != [] && Clone(d, d.sets[|d.sets| - 1], key, intent, over).Ok?
    ensures var d' := Clone(d, d.sets[|d.sets| - 1], key, intent, over).value;
            Valid(d') && ClonesNewest(d.sets, d'.sets)
  {
    CloneKeepsLedger(d, d.sets[|d.sets| - 1], key, intent, over);
    var d' := Clone(d, d.sets[|d.sets| - 1], key, intent, over).value;
    assert ClonesWith(d.sets, d'.sets, over);
  }

  lemma RotationClones(db: Db, camera: CameraId, credential: nat, request: string)
    requires Valid(db.ledger)
    ensures Valid(RotateCredential(db, camera, credential, request).ledger)
    ensures KeepsOrClones(db, RotateCredential(db, camera, credential, request))
  {
    var over := Overrides(map[camera := Some(credential)], map[], map[]);
    if RotateCredential(db, camera, credential, request).ledger != db.ledger {
      ClonedIs(db.ledger, Credential(request), db.ledger.sets[|db.ledger.sets| - 1].intent, over);
    }
  }

  lemma LifecycleClones(db: Db, intent: Intent, request: string)
    requires Valid(db.ledger)
    ensures Valid(SetLifecycle(db, intent, request).ledger) && KeepsOrClones(db, SetLifecycle(db, intent, request))
  {
    if SetLifecycle(db, intent, request) != db {
      ClonedIs(db.ledger, Lifecycle(request), intent, NoOverrides);
    }
  }

  lemma EditKeepsSessions(db: Db, camera: CameraId, geometry: Config, accepted: bool)
    ensures var edited := EditGeometry(db, camera, geometry, accepted);
            && |edited.sessions| == |db.sessions|
            && forall a :: 0 <= a < |db.sessions| ==>
                 && edited.sessions[a].camera == db.sessions[a].camera
                 && edited.sessions[a].prior.camera == db.sessions[a].prior.camera
                 && edited.sessions[a].prior.apps == db.sessions[a].prior.apps
  {
  }

  lemma ChangedLedgerCloned(db: Db, camera: CameraId, geometry: Config, accepted: bool)
    requires Valid(db.ledger) && EditGeometry(db, camera, geometry, accepted).ledger != db.ledger
    ensures accepted && EditClones(db, camera, geometry)
  {
  }

  lemma EditLedger(db: Db, camera: CameraId, geometry: Config, accepted: bool)
    requires Valid(db.ledger) && EditGeometry(db, camera, geometry, accepted).ledger != db.ledger
    ensures Valid(EditGeometry(db, camera, geometry, accepted).ledger)
    ensures db.ledger.sets != [] && ClonesNewest(db.ledger.sets, EditGeometry(db, camera, geometry, accepted).ledger.sets)
  {
    ChangedLedgerCloned(db, camera, geometry, accepted);
    var set_, over := EditWithClone(db, camera, geometry);
    assert ClonesWith(db.ledger.sets, db.ledger.sets + [set_], over);
  }

  lemma EditClonesNewest(db: Db, camera: CameraId, geometry: Config, accepted: bool)
    requires Valid(db.ledger)
    ensures Valid(EditGeometry(db, camera, geometry, accepted).ledger)
    ensures KeepsOrClones(db, EditGeometry(db, camera, geometry, accepted))
  {
    EditKeepsSessions(db, camera, geometry, accepted);
    if EditGeometry(db, camera, geometry, accepted).ledger != db.ledger {
      EditLedger(db, camera, geometry, accepted);
    }
  }

  lemma SyncKeepsLedger(db: Db, step: Step)
    requires Valid(db.ledger) && (step.Claims? || step.Succeeds? || step.Fails?)
    ensures Valid(Next(db, step).ledger) && KeepsOrClones(db, Next(db, step))
  {
    if step.Succeeds? {
      SyncKeepsValid(db.ledger, step.token, false);
    } else if step.Fails? {
      SyncKeepsValid(db.ledger, step.token, step.operatorRequired);
    } else {
      SyncKeepsValid(db.ledger, 0, false);
    }
  }

  lemma SessionStepsKeepLedger(db: Db, step: Step)
    requires step.Designates? || step.Starts? || step.Aborts? || step.Cancels? || step.Polls?
    ensures Next(db, step).ledger == db.ledger && KeepsOrClones(db, Next(db, step))
  {
  }

  lemma JobStepsKeepLedger(db: Db, step: Step)
    requires step.Ticks? || step.Reads? || step.Previews? || step.Records? || step.SetsCamera?
    ensures Next(db, step).ledger == db.ledger && KeepsOrClones(db, Next(db, step))
  {
  }

  lemma CloningStepClones(db: Db, step: Step)
    requires Valid(db.ledger) && (step.Edits? || step.Rotates? || step.SetsLifecycle?)
    ensures Valid(Next(db, step).ledger) && KeepsOrClones(db, Next(db, step))
  {
    match step
    case Edits(camera, geometry, accepted) => EditClonesNewest(db, camera, geometry, accepted);
    case Rotates(camera, credential, request) => RotationClones(db, camera, credential, request);
    case SetsLifecycle(intent, request) => LifecycleClones(db, intent, request);
  }

  lemma JobsStayAbandoned(db: Db, db': Db, a: nat)
    requires Abandoned(db, a) && Valid(db'.ledger) && db'.sessions == db.sessions && KeepsJobs(db, db', a)
    requires db.ledger.sets <= db'.ledger.sets && |db'.ledger.sets| == |db.ledger.sets| + 1
    requires StillEnrolled(db'.ledger.sets[|db.ledger.sets|].rows, db.sessions[a].camera)
    ensures Abandoned(db', a)
  {
    var set_ := db'.ledger.sets[|db.ledger.sets|];
    assert db'.ledger.sets == db.ledger.sets + [set_];
    FindKeyExtends(db.ledger.sets, set_, Restore(a));
  }

  /** What a late activation adds enrolls the camera again, or leaves it out. */
  lemma OwnCommitKeepsAbandoned(db: Db, j: nat, accepted: bool, a: nat)
    requires Abandoned(db, a) && (j < |db.jobs| ==> db.jobs[j].session == a)
    ensures Abandoned(JobCommit(db, j, accepted), a)
  {
    var db' := JobCommit(db, j, accepted);
    JobStepsKeepJobs(db, Commits(j, accepted), a);
    if db'.ledger == db.ledger {
      KeepsAbandoned(db, db', a);
    } else {
      assert GivesNothingBack(db, a, db.jobs[j]);
      LateCommitAdds(db, j, accepted, a);
      JobsStayAbandoned(db, db', a);
    }
  }

  lemma LateCommitAdds(db: Db, j: nat, accepted: bool, a: nat)
    requires Abandoned(db, a) && j < |db.jobs| && db.jobs[j].session == a && JobCommit(db, j, accepted).ledger != db.ledger
    ensures var db' := JobCommit(db, j, accepted);
            && Valid(db'.ledger) && db'.sessions == db.sessions
            && db.ledger.sets <= db'.ledger.sets && |db'.ledger.sets| == |db.ledger.sets| + 1
            && StillEnrolled(db'.ledger.sets[|db.ledger.sets|].rows, db.sessions[a].camera)
  {
    var job := db.jobs[j];
    assert GivesNothingBack(db, a, job);
    CommitKeepsValid(db.ledger, db.cameras, job.base.value.settings, JobItems(job), job.preview.value, KeyOf(job), accepted);
    TargetStaysEnrolled(job.base.value.items, job.target, db.cameras);
  }

  lemma TargetStaysEnrolled(items: seq<Item>, target: Item, cameras: map<CameraId, Camera>)
    requires target.apps == EnrollmentApps
    ensures StillEnrolled(RowsFrom(Substitute(items, target), cameras), target.camera)
  {
    SubstituteIs(items, target, target.camera);
    RowsHold(Substitute(items, target), cameras, target.camera);
    RowFromGives(target, cameras);
  }

  lemma OwnStepKeepsAbandoned(db: Db, step: Step, a: nat)
    requires Abandoned(db, a) && OwnStep(db, step, a)
    ensures Abandoned(Next(db, step), a)
  {
    if step.Commits? {
      OwnCommitKeepsAbandoned(db, step.job, step.accepted, a);
    } else if step.Claims? || step.Succeeds? || step.Fails? {
      SyncKeepsLedger(db, step);
      LedgerStepsKeepJobs(db, step, a);
      KeepsAbandoned(db, Next(db, step), a);
    } else if step.Edits? || step.Rotates? || step.SetsLifecycle? {
      CloningStepClones(db, step);
      LedgerStepsKeepJobs(db, step, a);
      KeepsAbandoned(db, Next(db, step), a);
    } else if step.Designates? || step.Starts? || step.Aborts? || step.Cancels? || step.Polls? {
      SessionStepsKeepLedger(db, step);
      SessionStepsKeepJobs(db, step, a);
      KeepsAbandoned(db, Next(db, step), a);
    } else if step.Ticks? {
      JobStepsKeepLedger(db, step);
      SessionStepsKeepJobs(db, step, a);
      KeepsAbandoned(db, Next(db, step), a);
    } else {
      JobStepsKeepLedger(db, step);
      JobStepsKeepJobs(db, step, a);
      KeepsAbandoned(db, Next(db, step), a);
    }
  }

  /** An abandoned camera stays enrolled over every such run. */
  lemma {:induction false} AbandonedForGood(db: Db, steps: seq<Step>, a: nat)
    requires Abandoned(db, a) && Alone(db, steps, a)
    ensures Abandoned(Run(db, steps), a)
  {
    if steps != [] {
      AbandonedForGood(db, steps[..|steps| - 1], a);
      OwnStepKeepsAbandoned(Run(db, steps[..|steps| - 1]), steps[|steps| - 1], a);
    }
  }

  /** An activation committed after its session's restore abandons the camera. */
  lemma LateActivationAbandons(db: Db, j: nat, accepted: bool)
    requires Inv(db) && Activates(db, j) && JobCommit(db, j, accepted).ledger != db.ledger
    requires Queued(db.ledger, db.jobs[j].session)
    ensures Abandoned(JobCommit(db, j, accepted), db.jobs[j].session)
  {
    var job := db.jobs[j];
    var d := db.ledger;
    var after := JobCommit(db, j, accepted);
    assert JobOk(d, db.sessions, job) && SessionOk(d, job.session, db.sessions[job.session]);
    CommitKeepsValid(d, db.cameras, job.base.value.settings, JobItems(job), job.preview.value, KeyOf(job), accepted);
    var set_ := after.ledger.sets[|d.sets|];
    assert after.ledger.sets == d.sets + [set_];
    FindKeyExtends(d.sets, set_, Restore(job.session));
    TargetStaysEnrolled(job.base.value.items, job.target, db.cameras);
    JobsGiveNothingBack(db, after, job.session);
  }

  lemma JobsGiveNothingBack(db: Db, after: Db, a: nat)
    requires Inv(db) && a < |db.sessions| && after.sessions == db.sessions && Queued(after.ledger, a)
    requires |after.jobs| == |db.jobs|
    requires forall k :: 0 <= k < |db.jobs| ==>
               after.jobs[k].session == db.jobs[k].session && after.jobs[k].purpose == db.jobs[k].purpose
               && after.jobs[k].target == db.jobs[k].target
    ensures forall k :: 0 <= k < |after.jobs| && after.jobs[k].session == a ==> GivesNothingBack(after, a, after.jobs[k])
  {
    forall k | 0 <= k < |after.jobs| && after.jobs[k].session == a ensures GivesNothingBack(after, a, after.jobs[k]) {
      assert JobOk(db.ledger, db.sessions, db.jobs[k]);
    }
  }

  // ---------------------------------------------------------------- in time

  /** The steps lead to this state, permitted and by the session's own means. */
  ghost predicate Leads(db: Db, steps: seq<Step>, s: Db, a: nat) {
    PermittedRun(db, steps) && Alone(db, steps, a) && Run(db, steps) == s
  }

  lemma LeadsOn(db: Db, steps: seq<Step>, s: Db, step: Step, a: nat)
    requires Leads(db, steps, s, a) && Permitted(s, step) && OwnStep(s, step, a)
    ensures Leads(db, steps + [step], Next(s, step), a)
  {
    assert (steps + [step])[..|steps|] == steps;
  }

  function FirstSteps(s: Db, a: nat, now: int): seq<Step> {
    var j := |s.jobs|;
    [Ticks(a, now)] + [Reads(j)] + [Previews(j, true)] + [Commits(j, true)]
  }

  function SecondSteps(a: nat, j: nat, t: nat, now: int): seq<Step> {
    [Records(j)] + [Claims] + [Succeeds(t)] + [Ticks(a, now)]
  }

  /** A worker's pass is permitted: the job it commits is its own restore. */
  lemma FirstHalfLeads(db: Db, before: seq<Step>, s: Db, a: nat, now: int)
    requires Leads(db, before, s, a)
    requires Inv(s) && a < |s.sessions| && s.sessions[a].status == Restoring && !Queued(s.ledger, a)
    ensures Leads(db, before + FirstSteps(s, a, now), FirstHalf(s, a, now), a)
  {
    var j := |s.jobs|;
    assert SessionOk(s.ledger, a, s.sessions[a]);
    var s1 := Next(s, Ticks(a, now));
    assert s1.jobs[j] == NewJob(a, s.sessions[a]);
    var s2 := Next(s1, Reads(j));
    var s3 := Next(s2, Previews(j, true));
    ReadAndPreviewKeepJob(s1, j);
    LeadsOn(db, before, s, Ticks(a, now), a);
    LeadsOn(db, before + [Ticks(a, now)], s1, Reads(j), a);
    LeadsOn(db, before + [Ticks(a, now)] + [Reads(j)], s2, Previews(j, true), a);
    LeadsOn(db, before + [Ticks(a, now)] + [Reads(j)] + [Previews(j, true)], s3, Commits(j, true), a);
    assert before + FirstSteps(s, a, now)
        == before + [Ticks(a, now)] + [Reads(j)] + [Previews(j, true)] + [Commits(j, true)];
  }

  lemma SecondHalfLeads(db: Db, before: seq<Step>, s: Db, a: nat, j: nat, t: nat, now: int)
    requires Leads(db, before, s, a)
    ensures Leads(db, before + SecondSteps(a, j, t, now), SecondHalf(s, a, j, t, now), a)
  {
    var s1 := Next(s, Records(j));
    var s2 := Next(s1, Claims);
    var s3 := Next(s2, Succeeds(t));
    LeadsOn(db, before, s, Records(j), a);
    LeadsOn(db, before + [Records(j)], s1, Claims, a);
    LeadsOn(db, before + [Records(j)] + [Claims], s2, Succeeds(t), a);
    LeadsOn(db, before + [Records(j)] + [Claims] + [Succeeds(t)], s3, Ticks(a, now), a);
    assert before + SecondSteps(a, j, t, now) == before + [Records(j)] + [Claims] + [Succeeds(t)] + [Ticks(a, now)];
  }

  lemma ReadAndPreviewKeepJob(db: Db, j: nat)
    requires j < |db.jobs|
    ensures var db' := Next(Next(db, Reads(j)), Previews(j, true));
            j < |db'.jobs| && db'.jobs[j].purpose == db.jobs[j].purpose && db'.jobs[j].session == db.jobs[j].session
  {
  }

  lemma {:induction false} CommittedItemsAre(items: seq<Item>, cameras: map<CameraId, Camera>)
    requires forall i :: 0 <= i < |items| ==> items[i].apps != []
    ensures ItemsOf(RowsFrom(items, cameras)) == items
  {
    if items != [] {
      RowFromGives(items[0], cameras);
      CommittedItemsAre(items[1..], cameras);
      assert RowsFrom(items, cameras)[1..] == RowsFrom(items[1..], cameras);
    }
  }

  /** Items stay acceptable when one camera gets other applications at an acceptable rate. */
  lemma SubstitutedAreAcceptable(items: seq<Item>, target: Item, cameras: map<CameraId, Camera>)
    requires AcceptableItems(items, cameras) && target.apps != []
    requires ItemOf(items, target.camera).Some? ==> 1 <= target.fps <= 120
    ensures AcceptableItems(Substitute(items, target), cameras)
  {
    SubstituteIs(items, target, target.camera);
    forall i | 0 <= i < |items| && items[i].camera == target.camera ensures ItemOf(items, target.camera).Some? {
      ListedIsFound(items, i);
    }
  }

  lemma {:induction false} ListedIsFound(items: seq<Item>, i: nat)
    requires i < |items|
    ensures ItemOf(items, items[i].camera).Some?
  {
    if i > 0 {
      ListedIsFound(items[1..], i - 1);
    }
  }

  /** Once an activation is committed in time, the camera could be restored at once. */
  lemma RestoreWouldBeAccepted(db: Db, j: nat, accepted: bool)
    requires Inv(db) && Activates(db, j) && JobCommit(db, j, accepted).ledger != db.ledger && InTime(db, j)
    ensures var after, a := JobCommit(db, j, accepted), db.jobs[j].session;
            && after.ledger.sets != []
            && AcceptableItems(Substitute(CurrentItems(after.ledger), after.sessions[a].prior), after.cameras)
  {
    var job := db.jobs[j];
    var after := JobCommit(db, j, accepted);
    var prior := db.sessions[job.session].prior;
    assert JobOk(db.ledger, db.sessions, job) && SessionOk(db.ledger, job.session, db.sessions[job.session]);
    CommitKeepsValid(db.ledger, db.cameras, job.base.value.settings, JobItems(job), job.preview.value, KeyOf(job), accepted);
    LatestIsDesired(after.ledger);
    CommittedItemsAre(JobItems(job), db.cameras);
    SubstituteIs(job.base.value.items, job.target, job.target.camera);
    ItemOfIsListed(JobItems(job), job.target.camera);
    SubstitutedAreAcceptable(JobItems(job), prior, db.cameras);
  }

  /** From a restoring session whose restore is not queued. */
  lemma RestoringLeadsBack(db: Db, before: seq<Step>, s: Db, a: nat, now: int) returns (steps: seq<Step>, end: Db)
    requires Leads(db, before, s, a)
    requires Inv(s) && a < |s.sessions| && s.sessions[a].status == Restoring && !Queued(s.ledger, a)
    requires AcceptableItems(Substitute(CurrentItems(s.ledger), s.sessions[a].prior), s.cameras)
    ensures Leads(db, steps, end, a) && BackAndEnded(end, a) && s.ledger.sets != [] && RestoredFrom(s, end, a)
  {
    var middle := FirstHalf(s, a, now);
    var j, t := |s.jobs|, |middle.ledger.claims|;
    FirstHalfLeads(db, before, s, a, now);
    SecondHalfLeads(db, before + FirstSteps(s, a, now), middle, a, j, t, now);
    steps := before + FirstSteps(s, a, now) + SecondSteps(a, j, t, now);
    end := SecondHalf(middle, a, j, t, now);
    RestoringEnds(s, a, now);
  }

  lemma RestoringEnds(s: Db, a: nat, now: int)
    requires Inv(s) && a < |s.sessions| && s.sessions[a].status == Restoring && !Queued(s.ledger, a)
    requires AcceptableItems(Substitute(CurrentItems(s.ledger), s.sessions[a].prior), s.cameras)
    ensures var middle := FirstHalf(s, a, now);
            var end := SecondHalf(middle, a, |s.jobs|, |middle.ledger.claims|, now);
            BackAndEnded(end, a) && s.ledger.sets != [] && RestoredFrom(s, end, a)
  {
    var middle := FirstHalf(s, a, now);
    var j, t := |s.jobs|, |middle.ledger.claims|;
    assert SessionOk(s.ledger, a, s.sessions[a]);
    FirstHalfRestores(s, a, now);
    FirstHalfCommits(s, a, now);
    SecondHalfFinishes(middle, a, j, now);
    SecondHalfKeeps(middle, a, j, t, now);
    RestoredAndKept(s, middle, SecondHalf(middle, a, j, t, now), a);
  }

  lemma RestoredAndKept(s: Db, middle: Db, end: Db, a: nat)
    requires s.ledger.sets != [] && a < |s.sessions|
    requires RestoredFrom(s, middle, a) && SetsKept(middle, end, a)
    ensures RestoredFrom(s, end, a)
  {
  }

  /** A restored state: one more set, the session's restore, and everything else as it was. */
  ghost predicate RestoredFrom(db: Db, end: Db, a: nat)
    requires db.ledger.sets != [] && a < |db.sessions|
  {
    && |end.ledger.sets| == |db.ledger.sets| + 1 && db.ledger.sets <= end.ledger.sets
    && end.ledger.sets[|db.ledger.sets|].key == Restore(a)
    && end.ledger.sets[|db.ledger.sets|].rows
       == RowsFrom(Substitute(CurrentItems(db.ledger), db.sessions[a].prior), db.cameras)
    && db.jobs <= end.jobs && end.cameras == db.cameras && OthersKept(db, end, a)
  }

  ghost predicate OthersKept(db: Db, end: Db, a: nat) {
    && |end.sessions| == |db.sessions|
    && (forall b :: 0 <= b < |db.sessions| && b != a ==> end.sessions[b] == db.sessions[b])
    && (a < |db.sessions| ==> end.sessions[a].prior == db.sessions[a].prior)
  }

  ghost predicate SetsKept(db: Db, end: Db, a: nat) {
    end.ledger.sets == db.ledger.sets && db.jobs <= end.jobs && end.cameras == db.cameras && OthersKept(db, end, a)
  }

  lemma FinishingStepKeeps(db: Db, step: Step, a: nat)
    requires step.Claims? || step.Succeeds? || (step.Ticks? && step.session == a)
             || (step.Records? && step.job < |db.jobs| && db.jobs[step.job].session == a)
    ensures SetsKept(db, Next(db, step), a)
  {
  }

  lemma SetsKeptTwice(db: Db, middle: Db, end: Db, a: nat)
    requires SetsKept(db, middle, a) && SetsKept(middle, end, a)
    ensures SetsKept(db, end, a)
  {
  }

  lemma SecondHalfKeeps(db: Db, a: nat, j: nat, t: nat, now: int)
    requires j < |db.jobs| && db.jobs[j].session == a
    ensures SetsKept(db, SecondHalf(db, a, j, t, now), a)
  {
    var db1 := Next(db, Records(j));
    FinishingStepKeeps(db, Records(j), a);
    var db2 := Next(db1, Claims);
    FinishingStepKeeps(db1, Claims, a);
    var db3 := Next(db2, Succeeds(t));
    FinishingStepKeeps(db2, Succeeds(t), a);
    FinishingStepKeeps(db3, Ticks(a, now), a);
    SetsKeptTwice(db, db1, db2, a);
    SetsKeptTwice(db, db2, db3, a);
    SetsKeptTwice(db, db3, Next(db3, Ticks(a, now)), a);
  }

  lemma FirstHalfRestores(db: Db, a: nat, now: int)
    requires Inv(db) && a < |db.sessions| && db.sessions[a].status == Restoring && !Queued(db.ledger, a)
    requires db.ledger.sets != []
    requires AcceptableItems(Substitute(CurrentItems(db.ledger), db.sessions[a].prior), db.cameras)
    ensures RestoredFrom(db, FirstHalf(db, a, now), a)
  {
    QuietCommitIs(db, a, |db.jobs|, now);
    QuietCommit(db, a, now);
  }

  lemma CancelIs(db: Db, a: nat)
    requires a < |db.sessions| && (db.sessions[a].status == Activating || db.sessions[a].status == Capturing)
    ensures var left := Next(db, Cancels(a));
            && left.ledger == db.ledger && left.cameras == db.cameras && left.jobs == db.jobs
            && OthersKept(db, left, a) && left.sessions[a].status == Restoring
  {
  }

  lemma CancelLeads(db: Db, a: nat) returns (left: Db)
    requires Inv(db) && a < |db.sessions| && (db.sessions[a].status == Activating || db.sessions[a].status == Capturing)
    ensures Leads(db, [] + [Cancels(a)], left, a) && Inv(left)
    ensures left.ledger == db.ledger && left.cameras == db.cameras && left.jobs == db.jobs
    ensures OthersKept(db, left, a) && left.sessions[a].status == Restoring
  {
    CancelIs(db, a);
    CancelKeepsInv(db, a);
    assert Leads(db, [], db, a);
    LeadsOn(db, [], db, Cancels(a), a);
    left := Next(db, Cancels(a));
  }

  /** From an active session whose restore is not queued there is a run of its own
      steps that ends it with its camera given back. */
  lemma ThereIsAWayBack(db: Db, a: nat, now: int) returns (steps: seq<Step>)
    requires Inv(db) && a < |db.sessions| && Active(db.sessions[a]) && !Queued(db.ledger, a)
    requires db.ledger.sets != []
             && AcceptableItems(Substitute(CurrentItems(db.ledger), db.sessions[a].prior), db.cameras)
    ensures PermittedRun(db, steps) && Alone(db, steps, a) && BackAndEnded(Run(db, steps), a)
  {
    var end: Db;
    if db.sessions[a].status == Restoring {
      assert Leads(db, [], db, a);
      steps, end := RestoringLeadsBack(db, [], db, a, now);
    } else {
      var left := CancelLeads(db, a);
      steps, end := RestoringLeadsBack(db, [] + [Cancels(a)], left, a, now);
    }
  }

  lemma InTimeComesBack(db: Db, j: nat, accepted: bool) returns (steps: seq<Step>)
    requires Inv(db) && Activates(db, j) && JobCommit(db, j, accepted).ledger != db.ledger && InTime(db, j)
    ensures var after, a := JobCommit(db, j, accepted), db.jobs[j].session;
            Inv(after) && PermittedRun(after, steps) && Alone(after, steps, a) && BackAndEnded(Run(after, steps), a)
  {
    var after, a := JobCommit(db, j, accepted), db.jobs[j].session;
    JobCommitKeepsInv(db, j, accepted);
    RestoreWouldBeAccepted(db, j, accepted);
    FindKeyExtends(db.ledger.sets, after.ledger.sets[|db.ledger.sets|], Restore(a));
    steps := ThereIsAWayBack(after, a, 0);
  }

  lemma LateNeverComesBack(db: Db, j: nat, accepted: bool, steps: seq<Step>)
    requires Inv(db) && Activates(db, j) && JobCommit(db, j, accepted).ledger != db.ledger
    requires Queued(db.ledger, db.jobs[j].session) && Alone(JobCommit(db, j, accepted), steps, db.jobs[j].session)
    ensures !BackAndEnded(Run(JobCommit(db, j, accepted), steps), db.jobs[j].session)
  {
    LateActivationAbandons(db, j, accepted);
    AbandonedForGood(JobCommit(db, j, accepted), steps, db.jobs[j].session);
    AbandonedIsNotBack(Run(JobCommit(db, j, accepted), steps), db.jobs[j].session);
  }

  /** The camera comes back exactly if the activation is committed while its session
      is active and its restore is not: committed in time, the invariant holds on and
      a run of the session's own steps gives the camera back; committed later, no run
      does, until someone else commits. */
  lemma ActivationDecides(db: Db, j: nat, accepted: bool)
    requires Inv(db) && Activates(db, j) && JobCommit(db, j, accepted).ledger != db.ledger
    ensures var after, a := JobCommit(db, j, accepted), db.jobs[j].session;
            && (InTime(db, j) <==> CanComeBack(after, a))
            && (InTime(db, j) ==> Inv(after))
  {
    var after, a := JobCommit(db, j, accepted), db.jobs[j].session;
    assert JobOk(db.ledger, db.sessions, db.jobs[j]);
    if InTime(db, j) {
      var steps := InTimeComesBack(db, j, accepted);
      assert ComesBack(after, steps, a);
    } else {
      forall steps ensures !ComesBack(after, steps, a) {
        if Alone(after, steps, a) {
          LateNeverComesBack(db, j, accepted, steps);
        }
      }
    }
  }

  // ---------------------------------------------------------------- being late is reachable

  /** A start that is cancelled at once and restored while its activation is still on its way. */
  lemma CancelledAndRestored(db: Db, a: nat, now: int) returns (steps: seq<Step>, end: Db)
    requires Inv(db) && a < |db.sessions| && db.sessions[a].status == Activating && !Queued(db.ledger, a)
    requires db.ledger.sets != []
    requires AcceptableItems(Substitute(CurrentItems(db.ledger), db.sessions[a].prior), db.cameras)
    ensures Leads(db, steps, end, a) && Inv(end) && RestoredFrom(db, end, a)
    ensures OthersKept(db, end, a) && !Active(end.sessions[a])
  {
    var left := CancelLeads(db, a);
    steps, end := RestoringLeadsBack(db, [] + [Cancels(a)], left, a, now);
    RunKeepsInv(db, steps);
  }

  /** The activation that was on its way all the time now reads, previews and would be committed. */
  lemma ActivationCatchesUp(db: Db, k: nat)
    requires Inv(db) && k < |db.jobs| && db.jobs[k].purpose == Activation && !AnyActive(db)
    requires db.jobs[k].base.None? && db.jobs[k].preview.None? && db.jobs[k].committed.None? && !db.jobs[k].stopped
    requires FindKey(db.ledger.sets, Activate(db.jobs[k].session)).None? && db.ledger.sets != []
    requires AcceptableItems(Substitute(CurrentItems(db.ledger), db.jobs[k].target), db.cameras)
    ensures var late := Next(Next(db, Reads(k)), Previews(k, true));
            && late.ledger == db.ledger && late.sessions == db.sessions
            && Activates(late, k) && late.jobs[k].session == db.jobs[k].session
            && JobCommit(late, k, true).ledger != late.ledger
  {
    var read := Next(db, Reads(k));
    assert JobItems(read.jobs[k]) == Substitute(CurrentItems(db.ledger), db.jobs[k].target);
    var late := Next(read, Previews(k, true));
    assert late.jobs[k].preview.Some?;
    assert !Blocked(late, JobItems(late.jobs[k]), Some(late.jobs[k].session));
    assert |JobCommit(late, k, true).ledger.sets| == |late.ledger.sets| + 1;
  }

  lemma CurrentStaysAcceptable(items: seq<Item>, prior: Item, cameras: map<CameraId, Camera>)
    requires AcceptableItems(items, cameras) && ItemOf(items, prior.camera) == Some(prior)
    ensures AcceptableItems(Substitute(items, prior), cameras)
  {
    ItemOfIsListed(items, prior.camera);
    SubstitutedAreAcceptable(items, prior, cameras);
  }

  /** The start, cancelled and restored, with its activation still to come. */
  ghost predicate Overtaken(started: Db, end: Db, k: nat) {
    && Inv(end) && !AnyActive(end) && end.ledger.sets != []
    && k < |started.jobs| && k < |end.jobs| && end.jobs[k] == started.jobs[k]
    && FindKey(end.ledger.sets, Activate(end.jobs[k].session)).None?
    && AcceptableItems(Substitute(CurrentItems(end.ledger), end.jobs[k].target), end.cameras)
  }

  lemma StartIsOvertaken(db: Db, window: int, now: int) returns (steps: seq<Step>, end: Db)
    requires Inv(db) && StartRow(db, window, now) != db && db.ledger.sets != []
    requires AcceptableItems(CurrentItems(db.ledger), db.cameras)
    ensures Leads(StartRow(db, window, now), steps, end, |db.sessions|)
    ensures Overtaken(StartRow(db, window, now), end, |db.jobs|)
  {
    var a, k := |db.sessions|, |db.jobs|;
    var started := StartRow(db, window, now);
    StartRowKeepsInv(db, window, now);
    StartedSessionOk(db, window, now);
    StartBorrows(db, window, now);
    var s, items := started.sessions[a], CurrentItems(db.ledger);
    CurrentStaysAcceptable(items, s.prior, db.cameras);
    steps, end := CancelledAndRestored(started, a, now);
    assert end.jobs[k] == ActivationJob(a, s);
    TargetIsAcceptable(items, s.prior, ActivationTarget(s), db.cameras);
    RestoredIsOvertaken(db, window, now, end);
  }

  lemma RestoredIsOvertaken(db: Db, window: int, now: int, end: Db)
    requires Inv(end) && StartRow(db, window, now) != db && db.ledger.sets != []
    requires var started, a := StartRow(db, window, now), |db.sessions|;
             && RestoredFrom(started, end, a) && OthersKept(started, end, a) && !Active(end.sessions[a])
             && AcceptableItems(Substitute(CurrentItems(db.ledger), started.sessions[a].prior), db.cameras)
             && AcceptableItems(Substitute(Substitute(CurrentItems(db.ledger), started.sessions[a].prior),
                                           ActivationTarget(started.sessions[a])), end.cameras)
             && FindKey(started.ledger.sets, Activate(a)).None?
             && |db.jobs| < |end.jobs| && end.jobs[|db.jobs|] == started.jobs[|db.jobs|]
    ensures Overtaken(StartRow(db, window, now), end, |db.jobs|)
  {
    var started, a := StartRow(db, window, now), |db.sessions|;
    NobodyIsActive(db, window, now, end);
    RestoredIsReadBack(started, end, a);
    FindKeyExtends(started.ledger.sets, end.ledger.sets[|started.ledger.sets|], Activate(a));
    assert end.ledger.sets == started.ledger.sets + [end.ledger.sets[|started.ledger.sets|]];
  }

  /** Wherever an enrollment can start, a permitted run leads to its activation being
      late: the session is over, its camera restored, and the commit still goes through. */
  lemma LateActivationHappens(db: Db, window: int, now: int) returns (steps: seq<Step>)
    requires Inv(db) && StartRow(db, window, now) != db && db.ledger.sets != []
    requires AcceptableItems(CurrentItems(db.ledger), db.cameras)
    ensures var started, k := StartRow(db, window, now), |db.jobs|;
            var late := Run(started, steps);
            && PermittedRun(started, steps) && Inv(late)
            && Activates(late, k) && JobCommit(late, k, true).ledger != late.ledger
            && !InTime(late, k) && !AnyActive(late)
  {
    var a, k := |db.sessions|, |db.jobs|;
    var before, end := StartIsOvertaken(db, window, now);
    StartRowKeepsInv(db, window, now);
    assert StartRow(db, window, now).jobs[k].base.None?;
    steps := CatchesUp(StartRow(db, window, now), before, end, k, a);
  }

  lemma CatchesUp(started: Db, before: seq<Step>, end: Db, k: nat, a: nat) returns (steps: seq<Step>)
    requires Inv(started) && Leads(started, before, end, a) && Overtaken(started, end, k)
    requires var job := started.jobs[k];
             && job.purpose == Activation && job.base.None? && job.preview.None? && job.committed.None? && !job.stopped
    ensures var late := Run(started, steps);
            && PermittedRun(started, steps) && Inv(late)
            && Activates(late, k) && JobCommit(late, k, true).ledger != late.ledger
            && !InTime(late, k) && !AnyActive(late)
  {
    ActivationCatchesUp(end, k);
    LeadsOn(started, before, end, Reads(k), a);
    LeadsOn(started, before + [Reads(k)], Next(end, Reads(k)), Previews(k, true), a);
    steps := before + [Reads(k)] + [Previews(k, true)];
    RunKeepsInv(started, steps);
  }

  lemma NobodyIsActive(db: Db, window: int, now: int, end: Db)
    requires StartRow(db, window, now) != db && OthersKept(StartRow(db, window, now), end, |db.sessions|)
    requires !Active(end.sessions[|db.sessions|])
    ensures !AnyActive(end)
  {
  }

  lemma RestoredIsReadBack(db: Db, end: Db, a: nat)
    requires Valid(end.ledger) && db.ledger.sets != [] && a < |db.sessions| && RestoredFrom(db, end, a)
    requires AcceptableItems(Substitute(CurrentItems(db.ledger), db.sessions[a].prior), db.cameras)
    ensures CurrentItems(end.ledger) == Substitute(CurrentItems(db.ledger), db.sessions[a].prior)
  {
    LatestIsDesired(end.ledger);
    CommittedItemsAre(Substitute(CurrentItems(db.ledger), db.sessions[a].prior), db.cameras);
  }

  lemma TargetIsAcceptable(items: seq<Item>, prior: Item, target: Item, cameras: map<CameraId, Camera>)
    requires AcceptableItems(items, cameras) && ItemOf(items, prior.camera) == Some(prior)
    requires target.camera == prior.camera && target.fps == prior.fps && target.apps != []
    ensures AcceptableItems(Substitute(Substitute(items, prior), target), cameras)
  {
    CurrentStaysAcceptable(items, prior, cameras);
    ItemOfIsListed(items, prior.camera);
    SubstitutedAreAcceptable(Substitute(items, prior), target, cameras);
  }

  /** And an enrollment can start: after one camera, one deployment and one designation. */
  lemma AStartIsReachable() returns (steps: seq<Step>)
    ensures var empty := Db(NewDeployment, map[], None, [], []);
            var db := Run(empty, steps);
            && Initial(empty) && PermittedRun(empty, steps)
            && db.ledger.sets != [] && StartRow(db, 0, 0) != db
            && AcceptableItems(CurrentItems(db.ledger), db.cameras)
  {
    var empty := Db(NewDeployment, map[], None, [], []);
    var item := Item("gate", ["face_recognition"], 5, map[]);
    assert item.apps != EnrollmentApps && "face_recognition" in item.apps by {
      assert |EnrollmentApps[0]| == 15 && |item.apps[0]| == 16;
    }
    var first, second, third := SetsCamera("gate", true),
      CommitsGeneric("first", 0, [item], Candidate(1, 0, Running, [item]), true), Designates("gate");
    FirstDeployment(item);
    var db := Next(Next(empty, first), second);
    DesignatedCanStart(db, item);
    ThreeSteps(empty, first, second, third);
    steps := [] + [first] + [second] + [third];
  }

  lemma DesignatedCanStart(db: Db, item: Item)
    requires db.ledger.sets != [] && CurrentItems(db.ledger) == [item] && db.sessions == []
    requires item.camera in db.cameras && item.apps != EnrollmentApps && "face_recognition" in item.apps
    ensures var designated := Next(db, Designates(item.camera));
            designated == db.(designated := Some(item.camera)) && StartRow(designated, 0, 0) != designated
  {
    assert ItemOf([item], item.camera) == Some(item);
    var designated := db.(designated := Some(item.camera));
    assert |StartRow(designated, 0, 0).sessions| == 1;
  }

  lemma ThreeSteps(db: Db, a: Step, b: Step, c: Step)
    requires Permitted(db, a) && Permitted(Next(db, a), b) && Permitted(Next(Next(db, a), b), c)
    ensures PermittedRun(db, [] + [a] + [b] + [c])
    ensures Run(db, [] + [a] + [b] + [c]) == Next(Next(Next(db, a), b), c)
  {
    LeadsPermitted(db, [], db, a);
    LeadsPermitted(db, [] + [a], Next(db, a), b);
    LeadsPermitted(db, [] + [a] + [b], Next(Next(db, a), b), c);
  }

  lemma LeadsPermitted(db: Db, steps: seq<Step>, s: Db, step: Step)
    requires PermittedRun(db, steps) && Run(db, steps) == s && Permitted(s, step)
    ensures PermittedRun(db, steps + [step]) && Run(db, steps + [step]) == Next(s, step)
  {
    assert (steps + [step])[..|steps|] == steps;
  }

  lemma FirstDeployment(item: Item)
    requires item.camera == "gate" && item.apps != [] && item.fps == 5
    ensures var empty := Db(NewDeployment, map[], None, [], []);
            var db := Next(Next(empty, SetsCamera("gate", true)),
                           CommitsGeneric("first", 0, [item], Candidate(1, 0, Running, [item]), true));
            && |db.ledger.sets| == 1 && CurrentItems(db.ledger) == [item] && db.sessions == [] && db.jobs == []
            && AcceptableItems([item], db.cameras) && db.cameras.Keys == {"gate"}
            && ItemOf([item], "gate") == Some(item)
  {
    var empty := Db(NewDeployment, map[], None, [], []);
    var db1 := Next(empty, SetsCamera("gate", true));
    assert AcceptableItems([item], db1.cameras);
    assert !Blocked(db1, [item], None);
    var d := Append(db1.ledger, Operator("first"), 0, Running, RowsFrom([item], db1.cameras));
    assert Next(db1, CommitsGeneric("first", 0, [item], Candidate(1, 0, Running, [item]), true)).ledger == d;
    CommittedItemsAre([item], db1.cameras);
  }

  lemma {:induction false} RunsJoin(db: Db, first: seq<Step>, mid: Db, more: seq<Step>)
    requires PermittedRun(db, first) && mid == Run(db, first) && PermittedRun(mid, more)
    ensures PermittedRun(db, first + more) && Run(db, first + more) == Run(mid, more)
  {
    if more == [] {
      assert first + more == first;
    } else {
      LastIsPermitted(mid, more);
      RunsJoin(db, first, mid, more[..|more| - 1]);
      SplitLast(first, more);
      LeadsPermitted(db, first + more[..|more| - 1], Run(mid, more[..|more| - 1]), more[|more| - 1]);
    }
  }

  lemma SplitLast(first: seq<Step>, more: seq<Step>)
    requires more != []
    ensures first + more == (first + more[..|more| - 1]) + [more[|more| - 1]]
  {
  }

  lemma LastIsPermitted(db: Db, steps: seq<Step>)
    requires steps != [] && PermittedRun(db, steps)
    ensures var init, last := steps[..|steps| - 1], steps[|steps| - 1];
            && PermittedRun(db, init) && Permitted(Run(db, init), last)
            && Run(db, steps) == Next(Run(db, init), last)
  {
  }

  /** From an empty deployment a permitted run leads to an activation that goes
      through too late, and its camera then never comes back. */
  lemma ALateActivationIsReachable() returns (steps: seq<Step>, j: nat)
    ensures var empty := Db(NewDeployment, map[], None, [], []);
            var late := Run(empty, steps);
            && Initial(empty) && PermittedRun(empty, steps)
            && Activates(late, j) && JobCommit(late, j, true).ledger != late.ledger
            && !CanComeBack(JobCommit(late, j, true), late.jobs[j].session)
  {
    var empty := Db(NewDeployment, map[], None, [], []);
    var first := AStartIsReachable();
    var db := Run(empty, first);
    RunKeepsInv(empty, first);
    var more := LateActivationHappens(db, 0, 0);
    LeadsPermitted(empty, first, db, Starts(0, 0));
    RunsJoin(empty, first + [Starts(0, 0)], StartRow(db, 0, 0), more);
    steps, j := first + [Starts(0, 0)] + more, |db.jobs|;
    ActivationDecides(Run(StartRow(db, 0, 0), more), j, true);
  }
}
