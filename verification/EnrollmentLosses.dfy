/** Transactions after which nobody is left to give a camera back: the abort of a
    start whose activation went through, and commits of operators. */
module EnrollmentLosses {
  import opened Options
  import opened Ledger
  import opened Enrollment
  import opened EnrollmentSafety
  import opened EnrollmentTheorems
  import opened EnrollmentActivation
  import opened EnrollmentEdits

  /** The newest set has the camera enrolled, if it lists it. */
  ghost predicate KeptEnrolled(db: Db, camera: CameraId) {
    db.ledger.sets != [] && StillEnrolled(db.ledger.sets[|db.ledger.sets| - 1].rows, camera)
  }

  lemma AbandonedNeverComesBack(db: Db, a: nat)
    requires Abandoned(db, a)
    ensures !CanComeBack(db, a)
    ensures forall steps :: Alone(db, steps, a) ==> KeptEnrolled(Run(db, steps), db.sessions[a].camera)
  {
    forall steps | Alone(db, steps, a)
      ensures !BackAndEnded(Run(db, steps), a) && KeptEnrolled(Run(db, steps), db.sessions[a].camera)
    {
      AbandonedForGood(db, steps, a);
      AbandonedIsNotBack(Run(db, steps), a);
      CameraStays(db, steps, a);
    }
  }

  lemma {:induction false} CameraStays(db: Db, steps: seq<Step>, a: nat)
    requires a < |db.sessions|
    ensures a < |Run(db, steps).sessions| && Run(db, steps).sessions[a].camera == db.sessions[a].camera
  {
    if steps != [] {
      CameraStays(db, steps[..|steps| - 1], a);
      StepKeepsCamera(Run(db, steps[..|steps| - 1]), steps[|steps| - 1], a);
    }
  }

  lemma StepKeepsCamera(db: Db, step: Step, a: nat)
    requires a < |db.sessions|
    ensures a < |Next(db, step).sessions| && Next(db, step).sessions[a].camera == db.sessions[a].camera
  {
  }

  // ---------------------------------------------------------------- a start that is aborted

  lemma AbortAbandons(db: Db, j: nat)
    requires Inv(db) && AbortStart(db, j) != db && KeptEnrolled(db, db.sessions[db.jobs[j].session].camera)
    ensures Abandoned(AbortStart(db, j), db.jobs[j].session)
  {
    var a, after := db.jobs[j].session, AbortStart(db, j);
    assert SessionOk(db.ledger, a, db.sessions[a]);
    forall k | 0 <= k < |after.jobs| && after.jobs[k].session == a ensures GivesNothingBack(after, a, after.jobs[k]) {
      assert JobOk(db.ledger, db.sessions, db.jobs[k]);
    }
  }

  /** An aborted start leaves its camera enrolled for good, until somebody else commits,
      exactly if the newest set has it enrolled at the abort. It does whenever the
      activation was committed, that is when only its answer was lost; otherwise the
      camera still is as it was borrowed, up to geometry. */
  lemma AbortDecides(db: Db, j: nat)
    requires Inv(db) && AbortStart(db, j) != db
    ensures var a, after := db.jobs[j].session, AbortStart(db, j);
            var camera := db.sessions[a].camera;
            && ((forall steps :: Alone(after, steps, a) ==> KeptEnrolled(Run(after, steps), camera)) <==> KeptEnrolled(db, camera))
            && (KeptEnrolled(db, camera) ==> !CanComeBack(after, a))
            && (FindKey(db.ledger.sets, Activate(a)).Some? ==> KeptEnrolled(db, camera))
            && (!KeptEnrolled(db, camera) ==>
                  db.ledger.sets != [] && ItemOf(CurrentItems(db.ledger), camera).Some?
                  && SameButGeometry(ItemOf(CurrentItems(db.ledger), camera).value, db.sessions[a].prior))
  {
    var a, after := db.jobs[j].session, AbortStart(db, j);
    var camera := db.sessions[a].camera;
    assert SessionOk(db.ledger, a, db.sessions[a]);
    NewestItem(db.ledger, camera);
    if KeptEnrolled(db, camera) {
      AbortAbandons(db, j);
      AbandonedNeverComesBack(after, a);
    } else {
      assert Alone(after, [], a) && !KeptEnrolled(Run(after, []), camera);
    }
  }

  /** The answer of a commit that went through is lost, and the start is aborted. */
  lemma LostAnswerAbandons(db: Db, j: nat)
    requires Inv(db) && j < |db.jobs| && db.jobs[j].purpose == Activation && db.jobs[j].committed.Some?
    requires db.sessions[db.jobs[j].session].status == Activating && db.sessions[db.jobs[j].session].activation.None?
    ensures var a, after := db.jobs[j].session, AbortStart(db, j);
            after.sessions[a].status == Aborted && !CanComeBack(after, a)
  {
    var a := db.jobs[j].session;
    assert JobOk(db.ledger, db.sessions, db.jobs[j]);
    assert AbortStart(db, j).sessions[a].status == Aborted;
    AbortDecides(db, j);
  }

  // ---------------------------------------------------------------- a camera that is no longer listed

  ghost predicate Lists(items: seq<Item>, camera: CameraId) {
    ItemOf(items, camera).Some?
  }

  /** The job will not list the camera again. */
  ghost predicate Passive(camera: CameraId, job: Job) {
    && job.target.camera == camera
    && (job.base.Some? ==> !Lists(job.base.value.items, camera) || job.stopped || job.committed.Some?)
  }

  ghost predicate AllPassive(jobs: seq<Job>, a: nat, camera: CameraId) {
    forall j :: 0 <= j < |jobs| && jobs[j].session == a ==> Passive(camera, jobs[j])
  }

  /** Neither the newest set lists the camera nor anything its session could commit. */
  ghost predicate Delisted(db: Db, a: nat) {
    && Valid(db.ledger) && db.ledger.sets != [] && a < |db.sessions|
    && db.sessions[a].prior.camera == db.sessions[a].camera
    && RowOf(db.ledger.sets[|db.ledger.sets| - 1].rows, db.sessions[a].camera).None?
    && AllPassive(db.jobs, a, db.sessions[a].camera)
  }

  lemma KeepsDelisted(db: Db, db': Db, a: nat)
    requires Delisted(db, a) && Valid(db'.ledger) && KeepsOrClones(db, db')
    requires AllPassive(db'.jobs, a, db.sessions[a].camera)
    ensures Delisted(db', a)
  {
    if db'.ledger.sets != db.ledger.sets {
      var over :| ClonesWith(db.ledger.sets, db'.ledger.sets, over);
      CloneHolds(db.ledger.sets[|db.ledger.sets| - 1].rows, over, db.sessions[a].camera);
    }
  }

  lemma SessionStepsKeepPassive(db: Db, step: Step, a: nat)
    requires Delisted(db, a)
    requires step.Designates? || step.Starts? || step.Aborts? || step.Cancels? || step.Ticks? || step.Polls?
    ensures AllPassive(Next(db, step).jobs, a, db.sessions[a].camera)
  {
  }

  lemma ReadStaysPassive(db: Db, j: nat, a: nat)
    requires Delisted(db, a)
    ensures AllPassive(JobRead(db, j).jobs, a, db.sessions[a].camera)
  {
    LatestIsDesired(db.ledger);
    ItemsReadBack(db.ledger.sets[|db.ledger.sets| - 1].rows, db.sessions[a].camera);
  }

  lemma JobStepsKeepPassive(db: Db, step: Step, a: nat)
    requires Delisted(db, a)
    requires step.Reads? || step.Previews? || step.Commits? || step.Records? || step.SetsCamera?
    ensures AllPassive(Next(db, step).jobs, a, db.sessions[a].camera)
  {
    if step.Reads? {
      ReadStaysPassive(db, step.job, a);
    }
  }

  lemma LedgerStepsKeepPassive(db: Db, step: Step, a: nat)
    requires Delisted(db, a)
    requires step.Edits? || step.Rotates? || step.SetsLifecycle? || step.Claims? || step.Succeeds? || step.Fails?
    ensures AllPassive(Next(db, step).jobs, a, db.sessions[a].camera)
  {
  }

  lemma OwnCommitKeepsDelisted(db: Db, j: nat, accepted: bool, a: nat)
    requires Delisted(db, a) && (j < |db.jobs| ==> db.jobs[j].session == a)
    ensures Delisted(JobCommit(db, j, accepted), a)
  {
    var db' := JobCommit(db, j, accepted);
    JobStepsKeepPassive(db, Commits(j, accepted), a);
    if db'.ledger == db.ledger {
      KeepsDelisted(db, db', a);
    } else {
      var job := db.jobs[j];
      assert Passive(db.sessions[a].camera, job);
      CommitKeepsValid(db.ledger, db.cameras, job.base.value.settings, JobItems(job), job.preview.value, KeyOf(job), accepted);
      SubstituteIs(job.base.value.items, job.target, db.sessions[a].camera);
      RowsHold(JobItems(job), db.cameras, db.sessions[a].camera);
    }
  }

  lemma OwnStepKeepsDelisted(db: Db, step: Step, a: nat)
    requires Delisted(db, a) && OwnStep(db, step, a)
    ensures Delisted(Next(db, step), a)
  {
    if step.Commits? {
      OwnCommitKeepsDelisted(db, step.job, step.accepted, a);
    } else if step.Claims? || step.Succeeds? || step.Fails? {
      SyncKeepsLedger(db, step);
      LedgerStepsKeepPassive(db, step, a);
      KeepsDelisted(db, Next(db, step), a);
    } else if step.Edits? || step.Rotates? || step.SetsLifecycle? {
      CloningStepClones(db, step);
      LedgerStepsKeepPassive(db, step, a);
      KeepsDelisted(db, Next(db, step), a);
    } else if step.Designates? || step.Starts? || step.Aborts? || step.Cancels? || step.Polls? {
      SessionStepsKeepLedger(db, step);
      SessionStepsKeepPassive(db, step, a);
      KeepsDelisted(db, Next(db, step), a);
    } else if step.Ticks? {
      JobStepsKeepLedger(db, step);
      SessionStepsKeepPassive(db, step, a);
      KeepsDelisted(db, Next(db, step), a);
    } else {
      JobStepsKeepLedger(db, step);
      JobStepsKeepPassive(db, step, a);
      KeepsDelisted(db, Next(db, step), a);
    }
  }

  lemma {:induction false} DelistedForGood(db: Db, steps: seq<Step>, a: nat)
    requires Delisted(db, a) && Alone(db, steps, a)
    ensures Delisted(Run(db, steps), a)
  {
    if steps != [] {
      DelistedForGood(db, steps[..|steps| - 1], a);
      OwnStepKeepsDelisted(Run(db, steps[..|steps| - 1]), steps[|steps| - 1], a);
    }
  }

  lemma DelistedNeverComesBack(db: Db, a: nat)
    requires Delisted(db, a)
    ensures !CanComeBack(db, a)
  {
    forall steps | Alone(db, steps, a) ensures !BackAndEnded(Run(db, steps), a) {
      DelistedForGood(db, steps, a);
    }
  }

  // ---------------------------------------------------------------- commits of operators

  /** A generic commit that adds a set while session a is active. */
  ghost predicate OperatorCommits(db: Db, a: nat, step: Step) {
    && Inv(db) && a < |db.sessions| && Active(db.sessions[a])
    && step.CommitsGeneric? && Next(db, step).ledger != db.ledger
  }

  /** No worker of the session is between its read and its commit. */
  ghost predicate NobodyMidway(db: Db, a: nat) {
    forall j :: 0 <= j < |db.jobs| && db.jobs[j].session == a ==>
      db.jobs[j].base.None? || db.jobs[j].stopped || db.jobs[j].committed.Some?
  }

  lemma OperatorAdds(db: Db, a: nat, step: Step)
    requires OperatorCommits(db, a, step)
    ensures var after := Next(db, step);
            && after == db.(ledger := after.ledger) && Valid(after.ledger)
            && |after.ledger.sets| == |db.ledger.sets| + 1 && db.ledger.sets <= after.ledger.sets
            && after.ledger.sets[|db.ledger.sets|].rows == RowsFrom(step.items, db.cameras)
            && AcceptableItems(step.items, db.cameras)
            && (Queued(after.ledger, a) <==> Queued(db.ledger, a))
            && (Lists(step.items, db.sessions[a].camera) ==> ItemOf(step.items, db.sessions[a].camera).value.apps == EnrollmentApps)
  {
    CommitKeepsValid(db.ledger, db.cameras, step.settings, step.items, step.preview, Operator(step.request), step.accepted);
    var set_ := Next(db, step).ledger.sets[|db.ledger.sets|];
    assert Next(db, step).ledger.sets == db.ledger.sets + [set_];
    FindKeyExtends(db.ledger.sets, set_, Restore(a));
    assert !Blocked(db, step.items, None);
  }

  /** Once the restore is committed, whatever an operator commits abandons the camera. */
  lemma OperatorAbandons(db: Db, a: nat, step: Step)
    requires OperatorCommits(db, a, step) && Queued(db.ledger, a)
    ensures Abandoned(Next(db, step), a)
  {
    var after, camera := Next(db, step), db.sessions[a].camera;
    assert SessionOk(db.ledger, a, db.sessions[a]);
    OperatorAdds(db, a, step);
    RowsHold(step.items, db.cameras, camera);
    if Lists(step.items, camera) {
      var item := ItemOf(step.items, camera).value;
      AppRowsAre(item.apps, item.config);
    }
    JobsGiveNothingBack(db, after, a);
  }

  lemma OperatorDelists(db: Db, a: nat, step: Step)
    requires OperatorCommits(db, a, step) && !Lists(step.items, db.sessions[a].camera) && NobodyMidway(db, a)
    ensures Delisted(Next(db, step), a)
  {
    assert SessionOk(db.ledger, a, db.sessions[a]);
    OperatorAdds(db, a, step);
    RowsHold(step.items, db.cameras, db.sessions[a].camera);
    forall j | 0 <= j < |db.jobs| && db.jobs[j].session == a ensures Passive(db.sessions[a].camera, db.jobs[j]) {
      assert JobOk(db.ledger, db.sessions, db.jobs[j]);
    }
  }

  /** A commit that lists the camera before the restore is committed leaves it enrolled,
      and its session can still give it back. */
  lemma OperatorKeepsTheWayBack(db: Db, a: nat, step: Step) returns (steps: seq<Step>)
    requires OperatorCommits(db, a, step) && !Queued(db.ledger, a) && Lists(step.items, db.sessions[a].camera)
    ensures Inv(Next(db, step)) && ComesBack(Next(db, step), steps, a)
  {
    var after, prior := Next(db, step), db.sessions[a].prior;
    assert SessionOk(db.ledger, a, db.sessions[a]);
    OperatorAdds(db, a, step);
    assert Permitted(db, step) by {
      assert forall b :: 0 <= b < |db.sessions| && Active(db.sessions[b]) ==> b == a;
    }
    StepKeepsInv(db, step);
    LatestIsDesired(after.ledger);
    CommittedItemsAre(step.items, db.cameras);
    SubstitutedAreAcceptable(step.items, prior, db.cameras);
    steps := ThereIsAWayBack(after, a, 0);
  }

  lemma {:induction false} RestoreRunIsAlone(db: Db, steps: seq<Step>, a: nat)
    requires RestoreRun(db, steps, a)
    ensures Alone(db, steps, a)
  {
    if steps != [] {
      RestoreRunIsAlone(db, steps[..|steps| - 1], a);
    }
  }

  /** A restore that had read the camera before it was left out undoes that: it lists
      the camera again and gives it back. */
  lemma MidwayListsAgain(db: Db, a: nat, step: Step, j: nat)
    requires OperatorCommits(db, a, step) && !Queued(db.ledger, a)
    requires IsRestoreOf(db, j, a) && db.jobs[j].base.Some? && CanCommit(db, db.jobs[j])
    ensures CanComeBack(Next(db, step), a)
  {
    var after := Next(db, step);
    assert SessionOk(db.ledger, a, db.sessions[a]) && JobOk(db.ledger, db.sessions, db.jobs[j]);
    OperatorAdds(db, a, step);
    assert ReadyToCommit(after, a, j) by {
      assert forall b :: 0 <= b < |db.sessions| && Active(db.sessions[b]) ==> b == a;
    }
    var steps := EndsOnTheRestore(after, a, j, 0);
    RestoreRunIsAlone(after, steps, a);
    assert ComesBack(after, steps, a);
  }

  /** Which commits of operators cost a session its camera: all that go through once the
      restore is committed, and before that exactly those that leave the camera out.
      The latter supposes that no worker of the session is midway (`MidwayListsAgain`). */
  lemma OperatorDecides(db: Db, a: nat, step: Step)
    requires OperatorCommits(db, a, step)
    requires !Queued(db.ledger, a) && !Lists(step.items, db.sessions[a].camera) ==> NobodyMidway(db, a)
    ensures CanComeBack(Next(db, step), a) <==> !Queued(db.ledger, a) && Lists(step.items, db.sessions[a].camera)
    ensures CanComeBack(Next(db, step), a) ==> Inv(Next(db, step))
  {
    if Queued(db.ledger, a) {
      OperatorAbandons(db, a, step);
      AbandonedNeverComesBack(Next(db, step), a);
    } else if Lists(step.items, db.sessions[a].camera) {
      var steps := OperatorKeepsTheWayBack(db, a, step);
    } else {
      OperatorDelists(db, a, step);
      DelistedNeverComesBack(Next(db, step), a);
    }
  }
}
