/** What the enrollment machine promises over whole runs, and where it stops
    promising it. */
module EnrollmentTheorems {
  import opened Options
  import opened CameraConfig
  import opened Ledger
  import opened Enrollment
  import opened EnrollmentSafety

  // ---------------------------------------------------------------- the ledger over runs

  /** How one step may change session a. */
  ghost predicate SessionFrame(db: Db, step: Step, db': Db, a: nat)
    requires a < |db.sessions| && a < |db'.sessions|
  {
    var s, s' := db.sessions[a], db'.sessions[a];
    && s'.camera == s.camera
    && s'.prior == (if EditReaches(db, step, a) then s.prior.(config := Merge(s.prior.config, step.geometry)) else s.prior)
    && (s'.restoration != s.restoration ==> step.Records? || (step.Edits? && step.camera == s.camera))
    && (s.status == Restoring && s'.status != Restoring ==> step.Ticks? && step.session == a)
  }

  ghost predicate Frame(db: Db, step: Step, db': Db) {
    && db.ledger.sets <= db'.ledger.sets
    && |db.sessions| <= |db'.sessions|
    && forall a :: 0 <= a < |db.sessions| ==> SessionFrame(db, step, db', a)
  }

  /** An edit that does not raise reaches the active session of its camera. */
  predicate EditReaches(db: Db, step: Step, a: nat)
    requires a < |db.sessions|
  {
    && step.Edits? && Active(db.sessions[a]) && db.sessions[a].camera == step.camera
    && EditResult(db, step.camera, step.geometry, step.accepted).Some?
  }

  lemma StartStepFrame(db: Db, step: Step)
    requires step.Designates? || step.Starts? || step.Aborts?
    ensures Frame(db, step, Next(db, step))
  {
  }

  lemma SessionStepFrame(db: Db, step: Step)
    requires step.Cancels? || step.Ticks? || step.Polls?
    ensures Frame(db, step, Next(db, step))
  {
  }

  lemma JobStepFrame(db: Db, step: Step)
    requires step.Reads? || step.Previews? || step.Records? || step.Commits?
    ensures Frame(db, step, Next(db, step))
  {
  }

  lemma LedgerStepFrame(db: Db, step: Step)
    requires step.CommitsGeneric? || step.Rotates? || step.SetsLifecycle? || step.SetsCamera?
             || step.Claims? || step.Succeeds? || step.Fails?
    ensures Frame(db, step, Next(db, step))
  {
  }

  lemma EditSessionFrame(db: Db, step: Step, a: nat)
    requires Inv(db) && step.Edits? && a < |db.sessions|
    ensures |Next(db, step).sessions| == |db.sessions| && SessionFrame(db, step, Next(db, step), a)
  {
    assert SessionOk(db.ledger, a, db.sessions[a]);
  }

  lemma EditFrame(db: Db, step: Step)
    requires Inv(db) && step.Edits?
    ensures Frame(db, step, Next(db, step))
  {
    forall a | 0 <= a < |db.sessions| ensures SessionFrame(db, step, Next(db, step), a) {
      EditSessionFrame(db, step, a);
    }
  }

  lemma StepFrame(db: Db, step: Step)
    requires Inv(db)
    ensures Frame(db, step, Next(db, step))
  {
    if step.Edits? {
      EditFrame(db, step);
    } else if step.Designates? || step.Starts? || step.Aborts? {
      StartStepFrame(db, step);
    } else if step.Cancels? || step.Ticks? || step.Polls? {
      SessionStepFrame(db, step);
    } else if step.Reads? || step.Previews? || step.Records? || step.Commits? {
      JobStepFrame(db, step);
    } else {
      LedgerStepFrame(db, step);
    }
  }

  lemma {:induction false} RunOnlyAppends(db: Db, steps: seq<Step>)
    requires Inv(db) && PermittedRun(db, steps)
    ensures db.ledger.sets <= Run(db, steps).ledger.sets
    ensures |db.sessions| <= |Run(db, steps).sessions|
  {
    if steps != [] {
      var init := steps[..|steps| - 1];
      RunOnlyAppends(db, init);
      RunKeepsInv(db, init);
      StepFrame(Run(db, init), steps[|steps| - 1]);
    }
  }

  /** Revisions are consecutive, keys are used once, and the desired set, the
      latest set by revision and the last set appended are one and the same. */
  lemma RevisionsAreConsecutive(db: Db, steps: seq<Step>)
    requires Initial(db) && PermittedRun(db, steps)
    ensures var d := Run(db, steps).ledger;
            && (forall i :: 0 <= i < |d.sets| ==> d.sets[i].revision == i + 1)
            && (forall i, j :: 0 <= i < j < |d.sets| ==> d.sets[i].key != d.sets[j].key)
            && (d.sets != [] ==> d.desired == Some(Latest(d.sets)) && Latest(d.sets) == |d.sets| - 1)
            && (d.phase == Applied ==> d.applied == d.desired)
  {
    RunKeepsInv(db, steps);
    var d := Run(db, steps).ledger;
    if d.sets != [] {
      LatestIsDesired(d);
    }
  }

  /** A preview obtained at `db` is accepted under a new key at a later state only if no set was issued between. */
  lemma PreviewIsCompareAndSwap(
    db: Db, steps: seq<Step>, settings: nat, items: seq<Item>, preview: Candidate, key: Key, accepted: bool)
    requires Inv(db) && PermittedRun(db, steps)
    requires CandidateFor(db.ledger, db.cameras, settings, items, accepted) == Some(preview)
    requires FindKey(Run(db, steps).ledger.sets, key).None?
    ensures var later := Run(db, steps);
            Commit(later.ledger, later.cameras, settings, items, preview, key, accepted).Ok?
            <==> later.ledger.sets == db.ledger.sets
                 && later.ledger.intent == db.ledger.intent
                 && AcceptableItems(items, later.cameras)
  {
    RunKeepsInv(db, steps);
    RunOnlyAppends(db, steps);
  }

  /** Replaying a commit under its key answers with the set it created and changes nothing. */
  lemma ReplayAddsNothing(
    d: Deployment, cameras: map<CameraId, Camera>, settings: nat, items: seq<Item>, preview: Candidate,
    key: Key, accepted: bool,
    cameras': map<CameraId, Camera>, settings': nat, items': seq<Item>, preview': Candidate, accepted': bool)
    requires Valid(d) && Commit(d, cameras, settings, items, preview, key, accepted).Ok?
    ensures var first := Commit(d, cameras, settings, items, preview, key, accepted).value;
            Commit(first.0, cameras', settings', items', preview', key, accepted') == Ok(first)
  {
    var first := Commit(d, cameras, settings, items, preview, key, accepted).value;
    if FindKey(d.sets, key).None? {
      FindKeyExtends(d.sets, first.0.sets[|d.sets|], key);
    }
  }

  // ---------------------------------------------------------------- how a session ends

  /** The step takes session a out of `restoring`. */
  ghost predicate Leaves(db: Db, step: Step, a: nat) {
    && a < |db.sessions| && db.sessions[a].status == Restoring
    && a < |Next(db, step).sessions| && Next(db, step).sessions[a].status != Restoring
  }

  /** The step is session a's own tick, its recorded restoration revision is the
      applied one, and the applied set gives its camera exactly the applications,
      rate and configuration that the session holds. */
  ghost predicate EndsGivenBack(db: Db, step: Step, a: nat)
    requires a < |db.sessions|
  {
    var s := db.sessions[a];
    var d := db.ledger;
    && step.Ticks? && step.session == a
    && RevisionApplied(d, s.restorationRevision)
    && s.restoration == d.applied && d.applied.Some?
    && Gives(d.sets[d.applied.value], s.prior)
    && Next(db, step)
       == db.(sessions := db.sessions[a := s.(
                result := Some(if s.result.Some? then s.result.value else Ok_),
                status := TerminalStatus(if s.result.Some? then s.result.value else Ok_),
                restoredAt := Some(step.now))])
  }

  lemma StepEndsRestored(db: Db, step: Step, a: nat)
    requires Inv(db) && Permitted(db, step)
    requires Leaves(db, step, a)
    ensures EndsGivenBack(db, step, a)
  {
    StepFrame(db, step);
    TickEndsRestored(db, a, step.now);
  }

  lemma TickEndsRestored(db: Db, a: nat, now: int)
    requires Inv(db) && a < |db.sessions| && db.sessions[a].status == Restoring
    requires Tick(db, a, now).sessions[a].status != Restoring
    ensures EndsGivenBack(db, Ticks(a, now), a)
  {
    assert SessionOk(db.ledger, a, db.sessions[a]);
  }

  lemma EndsRestored(db: Db, steps: seq<Step>, last: Step, a: nat)
    requires Initial(db) && PermittedRun(db, steps) && Permitted(Run(db, steps), last)
    requires Leaves(Run(db, steps), last, a)
    ensures EndsGivenBack(Run(db, steps), last, a)
  {
    RunKeepsInv(db, steps);
    StepEndsRestored(Run(db, steps), last, a);
  }

  /** However often the restore is retried, by however many workers, one set carries its key. */
  lemma OneRestoreCommit(db: Db, steps: seq<Step>, a: nat, i: nat, j: nat)
    requires Initial(db) && PermittedRun(db, steps)
    requires i < |Run(db, steps).ledger.sets| && Run(db, steps).ledger.sets[i].key == Restore(a)
    requires j < |Run(db, steps).ledger.sets| && Run(db, steps).ledger.sets[j].key == Restore(a)
    ensures i == j
  {
    RunKeepsInv(db, steps);
  }

  // ---------------------------------------------------------------- what is given back

  /** The geometries that reached session a's camera while the session was active, oldest first. */
  function EditsDuring(db: Db, steps: seq<Step>, a: nat): seq<Config> {
    if steps == [] then []
    else
      var before := Run(db, steps[..|steps| - 1]);
      var last := steps[|steps| - 1];
      var earlier := EditsDuring(db, steps[..|steps| - 1], a);
      if a < |before.sessions| && EditReaches(before, last, a) then earlier + [last.geometry] else earlier
  }

  lemma {:induction false} PriorFollowsEdits(db: Db, steps: seq<Step>, a: nat)
    requires Inv(db) && PermittedRun(db, steps) && a < |db.sessions|
    ensures a < |Run(db, steps).sessions|
    ensures Run(db, steps).sessions[a].camera == db.sessions[a].camera
    ensures Run(db, steps).sessions[a].prior
            == db.sessions[a].prior.(config := MergeAll(db.sessions[a].prior.config, EditsDuring(db, steps, a)))
  {
    if steps != [] {
      var init := steps[..|steps| - 1];
      PriorFollowsEdits(db, init, a);
      RunKeepsInv(db, init);
      StepFrame(Run(db, init), steps[|steps| - 1]);
      assert SessionFrame(Run(db, init), steps[|steps| - 1], Run(db, steps), a);
      var earlier := EditsDuring(db, init, a);
      assert forall g: Config :: (earlier + [g])[..|earlier|] == earlier;
    }
  }

  /** The applied set runs what the camera ran when it was borrowed, with the
      geometry of the last edit made meanwhile, if there was one, and every other
      key and zone as it was. */
  ghost predicate Returned(d: Deployment, borrowed: Item, edits: seq<Config>) {
    && d.applied.Some? && d.applied.value < |d.sets|
    && RowOf(d.sets[d.applied.value].rows, borrowed.camera).Some?
    && var returned := ItemOfRow(RowOf(d.sets[d.applied.value].rows, borrowed.camera).value);
    && Gives(d.sets[d.applied.value], returned)
    && returned.apps == borrowed.apps && returned.fps == borrowed.fps
    && (edits == [] ==> returned.config == borrowed.config)
    && (edits != [] ==> CarriesGeometry(returned.config, borrowed.config, edits[|edits| - 1]))
  }

  lemma MergedIsReturned(d: Deployment, borrowed: Item, edits: seq<Config>)
    requires d.applied.Some? && d.applied.value < |d.sets|
    requires Gives(d.sets[d.applied.value], borrowed.(config := MergeAll(borrowed.config, edits)))
    ensures Returned(d, borrowed, edits)
  {
    if edits != [] {
      OnlyTheLastEditMatters(borrowed.config, edits);
      MergeIsDetermined(MergeAll(borrowed.config, edits), borrowed.config, edits[|edits| - 1]);
    }
  }

  /** The prior item of a new session is the camera's item in the newest set. */
  lemma StartBorrows(db: Db, window: int, now: int)
    requires Inv(db) && |StartRow(db, window, now).sessions| == |db.sessions| + 1
    ensures db.designated.Some? && db.ledger.sets != []
    ensures ItemOf(CurrentItems(db.ledger), db.designated.value)
            == Some(StartRow(db, window, now).sessions[|db.sessions|].prior)
    ensures StartRow(db, window, now).sessions[|db.sessions|].prior.camera == db.designated.value
  {
    LatestIsDesired(db.ledger);
    var newest := db.ledger.sets[|db.ledger.sets| - 1];
    ItemsReadBack(newest.rows, db.designated.value);
    RowOfIsListed(newest.rows, db.designated.value);
  }

  /** From start to finish: a session that starts at `db` and leaves `restoring`
      after `steps` has its camera returned. */
  lemma CameraIsGivenBack(db: Db, window: int, now: int, steps: seq<Step>, last: Step)
    requires Inv(db)
    requires |StartRow(db, window, now).sessions| == |db.sessions| + 1
    requires PermittedRun(StartRow(db, window, now), steps)
    requires Permitted(Run(StartRow(db, window, now), steps), last)
    requires Leaves(Run(StartRow(db, window, now), steps), last, |db.sessions|)
    ensures db.designated.Some? && db.ledger.sets != []
    ensures ItemOf(CurrentItems(db.ledger), db.designated.value).Some?
    ensures Returned(Run(StartRow(db, window, now), steps).ledger,
                     ItemOf(CurrentItems(db.ledger), db.designated.value).value,
                     EditsDuring(StartRow(db, window, now), steps, |db.sessions|))
  {
    var a := |db.sessions|;
    var started := StartRow(db, window, now);
    StartBorrows(db, window, now);
    StartRowKeepsInv(db, window, now);
    PriorFollowsEdits(started, steps, a);
    RunKeepsInv(started, steps);
    var before := Run(started, steps);
    StepEndsRestored(before, last, a);
    MergedIsReturned(before.ledger, started.sessions[a].prior, EditsDuring(started, steps, a));
  }

  // ---------------------------------------------------------------- when a session does end

  lemma RunThen(db: Db, steps: seq<Step>, step: Step)
    ensures Run(db, steps + [step]) == Next(Run(db, steps), step)
  {
    assert (steps + [step])[..|steps|] == steps;
  }

  /** One undisturbed pass of a worker and of synchronization. */
  function QuietRestore(db: Db, a: nat, now: int): seq<Step> {
    var j := |db.jobs|;
    [Ticks(a, now)] + [Reads(j)] + [Previews(j, true)] + [Commits(j, true)] + [Records(j)]
    + [Claims] + [Succeeds(|db.ledger.claims|)] + [Ticks(a, now)]
  }

  lemma QuietCommit(db: Db, a: nat, now: int)
    requires Inv(db) && a < |db.sessions| && db.sessions[a].status == Restoring && !Queued(db.ledger, a)
    requires AcceptableItems(Substitute(CurrentItems(db.ledger), db.sessions[a].prior), db.cameras)
    ensures var j := |db.jobs|;
            var db1 := Tick(db, a, now);
            var db4 := JobCommit(JobPreview(JobRead(db1, j), j, true), j, true);
            && j < |db4.jobs| && db4.jobs[j].committed == Some(|db.ledger.sets|)
            && db4.jobs[j].session == a && db4.jobs[j].purpose == Restoration
            && db4.sessions == db.sessions
            && |db4.ledger.sets| == |db.ledger.sets| + 1 && db4.ledger.claims == db.ledger.claims
            && db4.ledger.sets[|db.ledger.sets|].rows
               == RowsFrom(Substitute(CurrentItems(db.ledger), db.sessions[a].prior), db.cameras)
            && db4.ledger.sets[|db.ledger.sets|].key == Restore(a)
            && db.ledger.sets <= db4.ledger.sets && db.jobs <= db4.jobs && db4.cameras == db.cameras
            && db4.ledger.phase == Pending
  {
    assert SessionOk(db.ledger, a, db.sessions[a]);
    LatestIsDesired(db.ledger);
    var j := |db.jobs|;
    var db1 := Tick(db, a, now);
    assert db1.jobs == db.jobs + [NewJob(a, db.sessions[a])];
    assert NewJob(a, db.sessions[a]).target == db.sessions[a].prior;
    var db2 := JobRead(db1, j);
    assert JobItems(db2.jobs[j]) == Substitute(CurrentItems(db.ledger), db.sessions[a].prior);
    var db3 := JobPreview(db2, j, true);
    assert db3.jobs[j].preview.Some?;
    assert !Blocked(db3, JobItems(db3.jobs[j]), Some(a));
    var db4 := JobCommit(db3, j, true);
  }

  /** Session a has ended with the outcome it left capturing with, and its camera runs what it ran before. */
  ghost predicate FinishedRestore(db: Db, a: nat, was: Session) {
    && a < |db.sessions|
    && db.sessions[a].status == TerminalStatus(if was.result.Some? then was.result.value else Ok_)
    && GivenBack(db.ledger, was.prior) && db.ledger.phase == Applied
  }

  /** Once a restore is committed and still newest, recording and applying it ends the session. */
  lemma QuietFinish(db: Db, a: nat, j: nat, now: int)
    requires Inv(db)
    requires a < |db.sessions| && db.sessions[a].status == Restoring
    requires j < |db.jobs| && db.jobs[j].session == a && db.jobs[j].purpose == Restoration
    requires db.ledger.sets != [] && db.jobs[j].committed == Some(|db.ledger.sets| - 1)
    requires db.ledger.phase == Pending
    ensures var s := db.sessions[a];
            var recorded := JobRecord(db, j);
            var d := RecordSuccess(Claim(recorded.ledger), |db.ledger.claims|);
            FinishedRestore(Tick(recorded.(ledger := d), a, now), a, s)
  {
    assert JobOk(db.ledger, db.sessions, db.jobs[j]);
    assert SessionOk(db.ledger, a, db.sessions[a]);
  }

  lemma RunOfEight(db: Db, s: seq<Step>, x: seq<Db>)
    requires |s| == 8 && |x| == 9 && x[0] == db
    requires forall i :: 0 <= i < 8 ==> x[i + 1] == Next(x[i], s[i])
    ensures Run(db, [s[0]] + [s[1]] + [s[2]] + [s[3]] + [s[4]] + [s[5]] + [s[6]] + [s[7]]) == x[8]
  {
    RunThen(db, [], s[0]);
    assert [] + [s[0]] == [s[0]];
    RunThen(db, [s[0]], s[1]);
    RunThen(db, [s[0]] + [s[1]], s[2]);
    RunThen(db, [s[0]] + [s[1]] + [s[2]], s[3]);
    RunThen(db, [s[0]] + [s[1]] + [s[2]] + [s[3]], s[4]);
    RunThen(db, [s[0]] + [s[1]] + [s[2]] + [s[3]] + [s[4]], s[5]);
    RunThen(db, [s[0]] + [s[1]] + [s[2]] + [s[3]] + [s[4]] + [s[5]], s[6]);
    RunThen(db, [s[0]] + [s[1]] + [s[2]] + [s[3]] + [s[4]] + [s[5]] + [s[6]], s[7]);
  }

  lemma QuietRestoreRuns(db: Db, a: nat, now: int)
    ensures Run(db, QuietRestore(db, a, now))
            == SecondHalf(FirstHalf(db, a, now), a, |db.jobs|, |db.ledger.claims|, now)
  {
    var j, t := |db.jobs|, |db.ledger.claims|;
    var s := [Ticks(a, now), Reads(j), Previews(j, true), Commits(j, true), Records(j), Claims, Succeeds(t), Ticks(a, now)];
    var x1 := Next(db, s[0]);
    var x2 := Next(x1, s[1]);
    var x3 := Next(x2, s[2]);
    var x4 := Next(x3, s[3]);
    var x5 := Next(x4, s[4]);
    var x6 := Next(x5, s[5]);
    var x7 := Next(x6, s[6]);
    RunOfEight(db, s, [db, x1, x2, x3, x4, x5, x6, x7, Next(x7, s[7])]);
  }

  lemma StaysIdle(db: Db, step: Step)
    requires Inv(db) && !step.Edits? && !step.CommitsGeneric? && !(step.Commits? && Activates(db, step.job))
    ensures Inv(Next(db, step))
  {
    StepKeepsInv(db, step);
  }

  lemma ReadAndPreviewKeepPurpose(db: Db, j: nat)
    requires j < |db.jobs|
    ensures var db' := Next(Next(db, Reads(j)), Previews(j, true));
            j < |db'.jobs| && db'.jobs[j].purpose == db.jobs[j].purpose
  {
  }

  lemma QuietCommitSteps(db: Db, a: nat, now: int)
    requires Inv(db) && a < |db.sessions| && db.sessions[a].status == Restoring && !Queued(db.ledger, a)
    ensures Inv(FirstHalf(db, a, now))
  {
    var j := |db.jobs|;
    assert SessionOk(db.ledger, a, db.sessions[a]);
    var db1 := Next(db, Ticks(a, now));
    assert db1.jobs[j] == NewJob(a, db.sessions[a]);
    StaysIdle(db, Ticks(a, now));
    var db2 := Next(db1, Reads(j));
    StaysIdle(db1, Reads(j));
    var db3 := Next(db2, Previews(j, true));
    StaysIdle(db2, Previews(j, true));
    ReadAndPreviewKeepPurpose(db1, j);
    StaysIdle(db3, Commits(j, true));
  }

  lemma QuietCommitIs(db: Db, a: nat, j: nat, now: int)
    ensures Next(Next(Next(Next(db, Ticks(a, now)), Reads(j)), Previews(j, true)), Commits(j, true))
            == JobCommit(JobPreview(JobRead(Tick(db, a, now), j), j, true), j, true)
  {
    var db1 := Next(db, Ticks(a, now));
    var db2 := Next(db1, Reads(j));
    var db3 := Next(db2, Previews(j, true));
    assert Next(db3, Commits(j, true)) == JobCommit(db3, j, true);
    assert db3 == JobPreview(db2, j, true);
    assert db2 == JobRead(db1, j);
  }

  lemma QuietFinishSteps(db: Db, a: nat, j: nat, t: nat, now: int)
    ensures var recorded := JobRecord(db, j);
            Tick(recorded.(ledger := RecordSuccess(Claim(recorded.ledger), t)), a, now)
            == Next(Next(Next(Next(db, Records(j)), Claims), Succeeds(t)), Ticks(a, now))
  {
  }

  /** The two halves of the quiet run, with the steps spelt out. */
  function FirstHalf(db: Db, a: nat, now: int): Db {
    var j := |db.jobs|;
    Next(Next(Next(Next(db, Ticks(a, now)), Reads(j)), Previews(j, true)), Commits(j, true))
  }

  function SecondHalf(db: Db, a: nat, j: nat, t: nat, now: int): Db {
    Next(Next(Next(Next(db, Records(j)), Claims), Succeeds(t)), Ticks(a, now))
  }

  lemma FirstHalfCommits(db: Db, a: nat, now: int)
    requires Inv(db)
    requires a < |db.sessions| && db.sessions[a].status == Restoring && !Queued(db.ledger, a)
    requires AcceptableItems(Substitute(CurrentItems(db.ledger), db.sessions[a].prior), db.cameras)
    ensures ReadyToFinish(FirstHalf(db, a, now), a, |db.jobs|)
    ensures FirstHalf(db, a, now).sessions == db.sessions
    ensures FirstHalf(db, a, now).ledger.claims == db.ledger.claims
  {
    QuietCommitSteps(db, a, now);
    QuietCommitIs(db, a, |db.jobs|, now);
    QuietCommit(db, a, now);
  }

  ghost predicate ReadyToFinish(db: Db, a: nat, j: nat) {
    && Inv(db)
    && a < |db.sessions| && db.sessions[a].status == Restoring
    && j < |db.jobs| && db.jobs[j].session == a && db.jobs[j].purpose == Restoration
    && db.ledger.sets != [] && db.jobs[j].committed == Some(|db.ledger.sets| - 1)
    && db.ledger.phase == Pending
  }

  lemma SecondHalfFinishes(db: Db, a: nat, j: nat, now: int)
    requires ReadyToFinish(db, a, j)
    ensures FinishedRestore(SecondHalf(db, a, j, |db.ledger.claims|, now), a, db.sessions[a])
  {
    QuietFinishSteps(db, a, j, |db.ledger.claims|, now);
    QuietFinish(db, a, j, now);
  }

  /** A restoring session finishes if nothing interferes, whatever happened before its restore was queued. */
  lemma QuietRestoreFinishes(db: Db, a: nat, now: int)
    requires Inv(db)
    requires a < |db.sessions| && db.sessions[a].status == Restoring && !Queued(db.ledger, a)
    requires AcceptableItems(Substitute(CurrentItems(db.ledger), db.sessions[a].prior), db.cameras)
    ensures FinishedRestore(Run(db, QuietRestore(db, a, now)), a, db.sessions[a])
  {
    QuietRestoreRuns(db, a, now);
    FirstHalfCommits(db, a, now);
    SecondHalfFinishes(FirstHalf(db, a, now), a, |db.jobs|, now);
  }

  // ---------------------------------------------------------------- when it does not

  /** The restoration that the session waits for is no longer the newest set. */
  ghost predicate Superseded(db: Db, a: nat) {
    && a < |db.sessions| && db.sessions[a].status == Restoring
    && db.sessions[a].restoration.Some? && db.sessions[a].restoration.value + 1 < |db.ledger.sets|
  }

  lemma RecordKeepsSuperseded(db: Db, j: nat, a: nat)
    requires Inv(db) && Superseded(db, a)
    ensures Superseded(JobRecord(db, j), a)
  {
    assert SessionOk(db.ledger, a, db.sessions[a]);
    if j < |db.jobs| {
      assert JobOk(db.ledger, db.sessions, db.jobs[j]);
    }
  }

  lemma StaysSuperseded(db: Db, step: Step, a: nat)
    requires Inv(db) && Permitted(db, step) && Superseded(db, a)
    requires !(step.Edits? && step.camera == db.sessions[a].camera)
    ensures Superseded(Next(db, step), a)
  {
    if step.Records? {
      RecordKeepsSuperseded(db, step.job, a);
    } else {
      assert SessionOk(db.ledger, a, db.sessions[a]);
      StepFrame(db, step);
      assert SessionFrame(db, step, Next(db, step), a);
      if Next(db, step).sessions[a].status != Restoring {
        StepEndsRestored(db, step, a);
      }
    }
  }

  /** A superseded restore never ends its session: no run without another geometry
      edit on the camera takes it out of `restoring`. */
  lemma {:induction false} SupersededNeverFinishes(db: Db, steps: seq<Step>, a: nat)
    requires Inv(db) && PermittedRun(db, steps) && Superseded(db, a)
    requires forall i :: 0 <= i < |steps| && steps[i].Edits? ==> steps[i].camera != db.sessions[a].camera
    ensures Superseded(Run(db, steps), a)
  {
    if steps != [] {
      var init := steps[..|steps| - 1];
      SupersededNeverFinishes(db, init, a);
      RunKeepsInv(db, init);
      PriorFollowsEdits(db, init, a);
      StaysSuperseded(Run(db, init), steps[|steps| - 1], a);
    }
  }

  /** An edit that the assumption excludes, with nothing in between: the session is
      pointed at a clone of the newest set and ends on it. The camera is then given back
      exactly if the newest set had not been switched to enrollment in the first place.
      What restores that are under way can do to it is in EnrollmentEdits. */
  lemma UnguardedEdit(db: Db, a: nat, geometry: Config, now: int)
    requires Inv(db)
    requires a < |db.sessions| && db.sessions[a].status == Restoring && !Queued(db.ledger, a)
    requires EditResult(db, db.sessions[a].camera, geometry, true).Some?
    ensures UnguardedOutcome(db, EditGeometry(db, db.sessions[a].camera, geometry, true), a, geometry, now)
  {
    var camera := db.sessions[a].camera;
    assert SessionOk(db.ledger, a, db.sessions[a]);
    assert EditClones(db, camera, geometry) by {
      assert Active(db.sessions[a]);
    }
    var set_, over := EditWithClone(db, camera, geometry);
    EditKeepsPending(db, camera, geometry);
    UnguardedEnd(db, EditGeometry(db, camera, geometry, true), set_, over, a, geometry, now);
  }

  lemma EditKeepsPending(db: Db, camera: CameraId, geometry: Config)
    requires Valid(db.ledger) && EditClones(db, camera, geometry)
    ensures EditGeometry(db, camera, geometry, true).ledger.phase == Pending
    ensures EditGeometry(db, camera, geometry, true).ledger.claims == db.ledger.claims
  {
  }

  /** What follows once the edited state is applied and the session ticks. */
  ghost predicate UnguardedOutcome(db: Db, edited: Db, a: nat, geometry: Config, now: int)
    requires a < |db.sessions| && db.ledger.sets != []
  {
    var d := RecordSuccess(Claim(edited.ledger), |db.ledger.claims|);
    var end := Tick(edited.(ledger := d), a, now);
    var before := ItemOf(CurrentItems(db.ledger), db.sessions[a].camera);
    var prior := db.sessions[a].prior;
    && before.Some? && a < |end.sessions| && end.sessions[a].restoredAt.Some? && !Active(end.sessions[a])
    && end.sessions[a].prior == prior.(config := Merge(prior.config, geometry))
    && (GivenBack(end.ledger, end.sessions[a].prior) <==> before.value.apps != EnrollmentApps)
  }

  lemma UnguardedTick(
    db: Db, edited: Db, a: nat, geometry: Config, now: int, set_: AssignmentSet, over: Overrides)
    requires a < |db.sessions| && db.sessions[a].status == Restoring && db.ledger.sets != []
    requires Edited(db, edited, set_, over, db.sessions[a].camera, geometry) && Valid(edited.ledger)
    requires edited.ledger.phase == Pending && edited.ledger.claims == db.ledger.claims
    ensures var d := RecordSuccess(Claim(edited.ledger), |db.ledger.claims|);
            var end := Tick(edited.(ledger := d), a, now);
            var prior := db.sessions[a].prior;
            && end.ledger.sets == db.ledger.sets + [set_]
            && a < |end.sessions| && end.sessions[a].restoredAt.Some? && !Active(end.sessions[a])
            && end.sessions[a].prior == prior.(config := Merge(prior.config, geometry))
  {
  }

  lemma UnguardedEnd(
    db: Db, edited: Db, set_: AssignmentSet, over: Overrides, a: nat, geometry: Config, now: int)
    requires Valid(db.ledger) && a < |db.sessions| && db.sessions[a].status == Restoring
    requires SessionOk(db.ledger, a, db.sessions[a]) && !Queued(db.ledger, a)
    requires db.sessions[a].camera in db.cameras && over == EditOverrides(db, db.sessions[a].camera, geometry)
    requires Edited(db, edited, set_, over, db.sessions[a].camera, geometry) && Valid(edited.ledger)
    requires edited.ledger.phase == Pending && edited.ledger.claims == db.ledger.claims
    ensures UnguardedOutcome(db, edited, a, geometry, now)
  {
    var camera := db.sessions[a].camera;
    UnguardedTick(db, edited, a, geometry, now, set_, over);
    NewestItem(db.ledger, camera);
    CloneGivesBack(db.ledger.sets[|db.ledger.sets| - 1], set_, over, db.sessions[a], geometry);
  }

  lemma NewestItem(d: Deployment, camera: CameraId)
    requires Valid(d) && Listed(d, camera)
    ensures ItemOf(CurrentItems(d), camera) == Some(ItemOfRow(RowOf(d.sets[|d.sets| - 1].rows, camera).value))
  {
    LatestIsDesired(d);
    ItemsReadBack(d.sets[|d.sets| - 1].rows, camera);
  }

  /** A clone with merged geometry gives the camera back exactly if its source did not have it enrolled. */
  lemma CloneGivesBack(source: AssignmentSet, set_: AssignmentSet, over: Overrides, s: Session, geometry: Config)
    requires ValidRows(source.rows) && Holds(source.rows, s)
    requires s.prior.camera == s.camera && s.prior.apps != EnrollmentApps
    requires set_.rows == CloneRows(source.rows, over)
    requires over.configs == map[s.camera := Merge(ItemOfRow(RowOf(source.rows, s.camera).value).config, geometry)]
    ensures Gives(set_, s.prior.(config := Merge(s.prior.config, geometry)))
            <==> ItemOfRow(RowOf(source.rows, s.camera).value).apps != EnrollmentApps
  {
    var item := ItemOfRow(RowOf(source.rows, s.camera).value);
    CloneGives(source, set_, over, s.camera);
    RowOfIsListed(source.rows, s.camera);
    if item.apps != EnrollmentApps {
      MergeIsDetermined(Merge(s.prior.config, geometry), s.prior.config, geometry);
      MergeIsDetermined(Merge(s.prior.config, geometry), item.config, geometry);
    }
  }

  /** A recorded restoration that is still newest ends its session as soon as it is applied. */
  lemma NewestRestorationFinishes(db: Db, a: nat, now: int)
    requires Inv(db) && a < |db.sessions| && db.sessions[a].status == Restoring
    requires db.sessions[a].restoration.Some? && !Superseded(db, a)
    requires db.ledger.phase == Pending || db.ledger.phase == Failed || db.ledger.phase == Applying
    ensures var d := RecordSuccess(Claim(db.ledger), |db.ledger.claims|);
            FinishedRestore(Tick(db.(ledger := d), a, now), a, db.sessions[a])
  {
    assert SessionOk(db.ledger, a, db.sessions[a]);
  }

  /** Any set issued after the restore was recorded supersedes it, unless it is the
      clone of a geometry edit on the session's own camera. A credential rotation or
      a lifecycle change is enough. */
  lemma AnotherSetSupersedes(db: Db, step: Step, a: nat)
    requires Inv(db)
    requires a < |db.sessions| && db.sessions[a].status == Restoring && db.sessions[a].restoration.Some?
    requires Next(db, step).ledger.sets != db.ledger.sets
    requires !(step.Edits? && step.camera == db.sessions[a].camera)
    ensures Superseded(Next(db, step), a)
  {
    assert SessionOk(db.ledger, a, db.sessions[a]);
    StepFrame(db, step);
    assert SessionFrame(db, step, Next(db, step), a);
    if Next(db, step).sessions[a].status != Restoring || step.Records? {
      NeitherTickNorRecordIssues(db, step);
    }
  }

  lemma NeitherTickNorRecordIssues(db: Db, step: Step)
    requires step.Ticks? || step.Records?
    ensures Next(db, step).ledger.sets == db.ledger.sets
  {
  }

  // ---------------------------------------------------------------- the other cameras

  /** What a session's commit leaves on every other camera is what its worker read,
      which is what the newest set says if no set was issued since that read. */
  lemma SessionCommitKeepsOthers(db: Db, j: nat, accepted: bool, other: CameraId)
    requires Inv(db) && j < |db.jobs| && other != db.jobs[j].target.camera
    requires JobCommit(db, j, accepted).ledger.sets != db.ledger.sets
    ensures db.ledger.sets != [] && JobCommit(db, j, accepted).ledger.sets != [] && db.jobs[j].base.Some?
    ensures ItemOf(CurrentItems(JobCommit(db, j, accepted).ledger), other) == ItemOf(db.jobs[j].base.value.items, other)
    ensures db.jobs[j].base.value.revision == |db.ledger.sets| ==>
              ItemOf(CurrentItems(JobCommit(db, j, accepted).ledger), other) == ItemOf(CurrentItems(db.ledger), other)
  {
    CommitAppends(db, j, accepted);
    OtherIsAsRead(db, j, JobCommit(db, j, accepted).ledger, other);
    ReadIsCurrent(db, j);
  }

  lemma ReadIsCurrent(db: Db, j: nat)
    requires Inv(db) && j < |db.jobs| && db.jobs[j].base.Some?
    ensures db.ledger.sets != []
    ensures db.jobs[j].base.value.revision == |db.ledger.sets| ==> db.jobs[j].base.value.items == CurrentItems(db.ledger)
  {
    assert JobOk(db.ledger, db.sessions, db.jobs[j]);
    LatestIsDesired(db.ledger);
  }

  lemma CommitAppends(db: Db, j: nat, accepted: bool)
    requires Inv(db) && j < |db.jobs| && JobCommit(db, j, accepted).ledger.sets != db.ledger.sets
    ensures db.ledger.sets != [] && db.jobs[j].base.Some? && AcceptableItems(JobItems(db.jobs[j]), db.cameras)
    ensures var d' := JobCommit(db, j, accepted).ledger;
            Valid(d') && d'.sets != [] && d'.sets[|d'.sets| - 1].rows == RowsFrom(JobItems(db.jobs[j]), db.cameras)
  {
    var job := db.jobs[j];
    assert JobOk(db.ledger, db.sessions, job);
    CommitKeepsValid(db.ledger, db.cameras, job.base.value.settings, JobItems(job), job.preview.value, KeyOf(job), accepted);
  }

  lemma OtherIsAsRead(db: Db, j: nat, d': Deployment, other: CameraId)
    requires j < |db.jobs| && other != db.jobs[j].target.camera && db.jobs[j].base.Some? && Valid(d') && d'.sets != []
    requires AcceptableItems(JobItems(db.jobs[j]), db.cameras)
    requires d'.sets[|d'.sets| - 1].rows == RowsFrom(JobItems(db.jobs[j]), db.cameras)
    ensures ItemOf(CurrentItems(d'), other) == ItemOf(db.jobs[j].base.value.items, other)
  {
    LatestIsDesired(d');
    SubstituteIs(db.jobs[j].base.value.items, db.jobs[j].target, other);
    CommittedItemsReadBack(JobItems(db.jobs[j]), db.cameras, other);
  }

  lemma CommittedItemsReadBack(items: seq<Item>, cameras: map<CameraId, Camera>, camera: CameraId)
    requires AcceptableItems(items, cameras)
    ensures ItemOf(ItemsOf(RowsFrom(items, cameras)), camera) == ItemOf(items, camera)
  {
    RowsHold(items, cameras, camera);
    ItemsReadBack(RowsFrom(items, cameras), camera);
    if ItemOf(items, camera).Some? {
      ItemOfIsListed(items, camera);
      RowFromGives(ItemOf(items, camera).value, cameras);
    }
  }

  lemma {:induction false} ItemOfIsListed(items: seq<Item>, camera: CameraId)
    ensures ItemOf(items, camera).Some? ==> ItemOf(items, camera).value in items
  {
    if items != [] {
      ItemOfIsListed(items[1..], camera);
    }
  }

  /** A session that is active holds the only camera held. */
  lemma NotBlocked(db: Db, j: nat)
    requires Inv(db) && j < |db.jobs| && !db.jobs[j].stopped && !Queued(db.ledger, db.jobs[j].session)
    ensures forall items :: !Blocked(db, items, Some(db.jobs[j].session))
  {
    assert JobOk(db.ledger, db.sessions, db.jobs[j]);
  }

  /** The compare-and-swap covers the preview, not the read before it: a set issued
      between the two passes, and the restore then puts the other cameras back to
      what they were at the read. */
  lemma StaleReadUndoesAnotherCamera(db: Db, j: nat, issued: Deployment, other: CameraId)
    requires Inv(db) && j < |db.jobs| && other != db.jobs[j].target.camera
    requires db.jobs[j].base.Some? && db.jobs[j].base.value.revision == |db.ledger.sets|
    requires db.jobs[j].preview.None? && db.jobs[j].committed.None? && !db.jobs[j].stopped
    requires !Queued(issued, db.jobs[j].session) && FindKey(issued.sets, KeyOf(db.jobs[j])).None?
    requires Inv(db.(ledger := issued)) && db.ledger.sets <= issued.sets
    requires issued.sets != [] && ItemOf(CurrentItems(issued), other) != ItemOf(db.jobs[j].base.value.items, other)
    requires AcceptableItems(JobItems(db.jobs[j]), db.cameras)
    ensures var later := db.(ledger := issued);
            var end := JobCommit(JobPreview(later, j, true), j, true).ledger;
            && end.sets != [] && |end.sets| == |issued.sets| + 1
            && ItemOf(CurrentItems(end), other) == ItemOf(db.jobs[j].base.value.items, other)
            && ItemOf(CurrentItems(end), other) != ItemOf(CurrentItems(issued), other)
  {
    var later := db.(ledger := issued);
    JobPreviewKeepsInv(later, j, true);
    assert JobOk(issued, db.sessions, db.jobs[j]);
    NotBlocked(JobPreview(later, j, true), j);
    SessionCommitKeepsOthers(JobPreview(later, j, true), j, true, other);
  }
}
