/** What every step of the enrollment machine keeps, and how a session ends. */
module EnrollmentSafety {
  import opened Options
  import opened CameraConfig
  import opened Ledger
  import opened Enrollment

  // ---------------------------------------------------------------- the invariant

  ghost predicate OneActive(sessions: seq<Session>) {
    forall a, b :: 0 <= a < |sessions| && 0 <= b < |sessions| && Active(sessions[a]) && Active(sessions[b]) ==> a == b
  }

  /** Session keys are issued only for stored sessions. */
  ghost predicate KeysKnown(d: Deployment, sessions: seq<Session>) {
    forall i :: 0 <= i < |d.sets| ==>
      && (d.sets[i].key.Activate? ==> d.sets[i].key.session < |sessions|)
      && (d.sets[i].key.Restore? ==> d.sets[i].key.session < |sessions|)
  }

  ghost predicate Listed(d: Deployment, camera: CameraId) {
    d.sets != [] && RowOf(d.sets[|d.sets| - 1].rows, camera).Some?
  }

  ghost predicate GivenBack(d: Deployment, item: Item) {
    d.sets != [] && Gives(d.sets[|d.sets| - 1], item)
  }

  /** The same item up to what geometry owns of its configuration. */
  ghost predicate SameButGeometry(x: Item, y: Item) {
    && x.camera == y.camera && x.apps == y.apps && x.fps == y.fps
    && OtherKeys(x.config) == OtherKeys(y.config) && OtherZones(x.config) == OtherZones(y.config)
  }

  /** The rows either have the session's camera enrolled or still as it was borrowed. */
  ghost predicate Holds(rows: seq<CameraRow>, s: Session) {
    && RowOf(rows, s.camera).Some?
    && var item := ItemOfRow(RowOf(rows, s.camera).value);
       item.apps == EnrollmentApps || SameButGeometry(item, s.prior)
  }

  ghost predicate Enrolled(rows: seq<CameraRow>, camera: CameraId) {
    RowOf(rows, camera).Some? && ItemOfRow(RowOf(rows, camera).value).apps == EnrollmentApps
  }

  /** While a session is active the newest set lists its camera, enrolled or as it
      was, and enrolled once the activation is committed; and once the restore is
      committed it gives the camera its prior item. */
  ghost predicate SessionOk(d: Deployment, a: nat, s: Session) {
    && s.prior.camera == s.camera
    && s.prior.apps != [] && s.prior.apps != EnrollmentApps && 1 <= s.prior.fps <= 120
    && (Active(s) ==> Listed(d, s.camera))
    && (Active(s) && !Queued(d, a) ==> Holds(d.sets[|d.sets| - 1].rows, s))
    && (Active(s) && !Queued(d, a) && FindKey(d.sets, Activate(a)).Some? ==> Enrolled(d.sets[|d.sets| - 1].rows, s.camera))
    && (Queued(d, a) ==> s.status != Activating && s.status != Capturing)
    && (Queued(d, a) && s.status == Restoring ==> GivenBack(d, s.prior))
    && (s.restoration.Some? ==>
          && Queued(d, a)
          && FindKey(d.sets, Restore(a)).value <= s.restoration.value < |d.sets|
          && s.restorationRevision == Some(s.restoration.value + 1))
    && (s.restoration.None? ==> s.restorationRevision.None?)
    && (s.restoredAt.Some? ==> Queued(d, a) && s.result.Some? && s.status == TerminalStatus(s.result.value))
  }

  /** A job restores a session that is restoring or already restored; or it activates
      one that is active or already restored, unless it was refused. */
  ghost predicate PurposeOk(d: Deployment, s: Session, job: Job) {
    match job.purpose
    case Restoration => Queued(d, job.session) || (s.status == Restoring && job.target == s.prior)
    case Activation =>
      && job.target.apps == EnrollmentApps && job.target.fps == s.prior.fps
      && (job.stopped || Active(s) || Queued(d, job.session))
  }

  ghost predicate BaseOk(d: Deployment, s: Session, job: Job) {
    job.base.Some? ==>
      && 1 <= job.base.value.revision <= |d.sets|
      && job.base.value.settings == d.sets[job.base.value.revision - 1].settings
      && job.base.value.items == ItemsOf(d.sets[job.base.value.revision - 1].rows)
      && (Queued(d, job.session) || job.stopped || ItemOf(job.base.value.items, s.camera).Some?)
  }

  ghost predicate JobOk(d: Deployment, sessions: seq<Session>, job: Job) {
    && job.session < |sessions|
    && var s := sessions[job.session];
    && job.target.camera == s.camera
    && job.target.apps != []
    && PurposeOk(d, s, job)
    && BaseOk(d, s, job)
    && (job.preview.Some? ==> job.preview.value.revision <= |d.sets| + 1)
    && (job.committed.Some? ==> FindKey(d.sets, KeyOf(job)) == job.committed)
  }

  /** A session has one start. */
  ghost predicate OneStart(jobs: seq<Job>) {
    forall i, j :: 0 <= i < j < |jobs| && jobs[i].purpose == Activation && jobs[j].purpose == Activation ==>
      jobs[i].session != jobs[j].session
  }

  ghost predicate Inv(db: Db) {
    && Valid(db.ledger)
    && KeysKnown(db.ledger, db.sessions)
    && OneActive(db.sessions)
    && (forall a :: 0 <= a < |db.sessions| ==> SessionOk(db.ledger, a, db.sessions[a]))
    && (forall j :: 0 <= j < |db.jobs| ==> JobOk(db.ledger, db.sessions, db.jobs[j]))
    && OneStart(db.jobs)
  }

  lemma UnissuedKey(db: Db, session: nat)
    requires KeysKnown(db.ledger, db.sessions) && session >= |db.sessions|
    ensures !Queued(db.ledger, session) && FindKey(db.ledger.sets, Activate(session)).None?
  {
    FindKeyIs(db.ledger.sets, Restore(session));
    FindKeyIs(db.ledger.sets, Activate(session));
  }

  lemma NewestListed(d: Deployment, camera: CameraId)
    requires Valid(d) && d.sets != []
    ensures Listed(d, camera) <==> ItemOf(CurrentItems(d), camera).Some?
  {
    LatestIsDesired(d);
    ItemsReadBack(d.sets[|d.sets| - 1].rows, camera);
  }

  // ---------------------------------------------------------------- appending a set

  /** What an appended set owes the session that is still active. */
  ghost predicate Serves(set_: AssignmentSet, d: Deployment, a: nat, s: Session) {
    && (Active(s) ==> RowOf(set_.rows, s.camera).Some?)
    && (Active(s) && !Queued(d, a) && set_.key != Restore(a) ==> Holds(set_.rows, s))
    && (Active(s) && !Queued(d, a) && set_.key != Restore(a) && (FindKey(d.sets, Activate(a)).Some? || set_.key == Activate(a)) ==>
          Enrolled(set_.rows, s.camera))
    && (s.status == Restoring && (Queued(d, a) || set_.key == Restore(a)) ==> Gives(set_, s.prior))
    && (set_.key == Restore(a) ==> s.status == Restoring)
  }

  lemma SessionSurvivesAppend(d: Deployment, d': Deployment, set_: AssignmentSet, a: nat, s: Session)
    requires SessionOk(d, a, s) && d'.sets == d.sets + [set_] && Serves(set_, d, a, s)
    ensures SessionOk(d', a, s)
  {
    FindKeyExtends(d.sets, set_, Restore(a));
    FindKeyExtends(d.sets, set_, Activate(a));
  }

  lemma JobSurvivesAppend(d: Deployment, d': Deployment, set_: AssignmentSet, sessions: seq<Session>, job: Job)
    requires JobOk(d, sessions, job) && d'.sets == d.sets + [set_]
    ensures JobOk(d', sessions, job)
  {
    FindKeyExtends(d.sets, set_, Restore(job.session));
    FindKeyExtends(d.sets, set_, KeyOf(job));
  }

  /** Appending a set keeps the invariant if it serves every session. */
  lemma AppendKeepsInv(db: Db, d': Deployment, set_: AssignmentSet)
    requires Inv(db) && Valid(d') && d'.sets == db.ledger.sets + [set_]
    requires set_.key.Activate? || set_.key.Restore? ==> set_.key.session < |db.sessions|
    requires forall a :: 0 <= a < |db.sessions| ==> Serves(set_, db.ledger, a, db.sessions[a])
    ensures Inv(db.(ledger := d'))
  {
    forall a | 0 <= a < |db.sessions| ensures SessionOk(d', a, db.sessions[a]) {
      SessionSurvivesAppend(db.ledger, d', set_, a, db.sessions[a]);
    }
    forall j | 0 <= j < |db.jobs| ensures JobOk(d', db.sessions, db.jobs[j]) {
      JobSurvivesAppend(db.ledger, d', set_, db.sessions, db.jobs[j]);
    }
  }

  /** Only the ledger's sets matter to the sessions and jobs. */
  lemma SameSetsKeepInv(db: Db, d': Deployment)
    requires Inv(db) && Valid(d') && d'.sets == db.ledger.sets
    ensures Inv(db.(ledger := d'))
  {
    forall a | 0 <= a < |db.sessions| ensures SessionOk(d', a, db.sessions[a]) {
      assert SessionOk(db.ledger, a, db.sessions[a]);
    }
    forall j | 0 <= j < |db.jobs| ensures JobOk(d', db.sessions, db.jobs[j]) {
      assert JobOk(db.ledger, db.sessions, db.jobs[j]);
    }
  }

  /** No start of the session can commit any more without having been committed. */
  ghost predicate StartRefused(db: Db, a: nat) {
    forall j :: 0 <= j < |db.jobs| && db.jobs[j].session == a && db.jobs[j].purpose == Activation ==> db.jobs[j].stopped
  }

  /** Replacing one session keeps the invariant if its identity, its place in the
      restore protocol and its activity allow it. */
  lemma ReplaceSessionKeepsInv(db: Db, a: nat, s: Session)
    requires Inv(db) && a < |db.sessions|
    requires SessionOk(db.ledger, a, s)
    requires s.camera == db.sessions[a].camera && s.prior == db.sessions[a].prior
    requires Active(s) ==> Active(db.sessions[a])
    requires !Queued(db.ledger, a) && db.sessions[a].status == Restoring ==> s.status == Restoring
    requires Active(s) || Queued(db.ledger, a) || StartRefused(db, a)
    ensures Inv(db.(sessions := db.sessions[a := s]))
  {
    var db' := db.(sessions := db.sessions[a := s]);
    forall j | 0 <= j < |db.jobs| ensures JobOk(db'.ledger, db'.sessions, db.jobs[j]) {
      assert JobOk(db.ledger, db.sessions, db.jobs[j]);
    }
  }

  lemma AddJobKeepsInv(db: Db, job: Job)
    requires Inv(db) && JobOk(db.ledger, db.sessions, job) && job.purpose == Restoration
    ensures Inv(db.(jobs := db.jobs + [job]))
  {
  }

  lemma ReplaceJobKeepsInv(db: Db, j: nat, job: Job)
    requires Inv(db) && j < |db.jobs| && JobOk(db.ledger, db.sessions, job)
    requires job.purpose == db.jobs[j].purpose && job.session == db.jobs[j].session
    ensures Inv(db.(jobs := db.jobs[j := job]))
  {
  }

  // ---------------------------------------------------------------- each step

  /** The session that a start stores borrows the camera as the newest set has it. */
  lemma StartedSessionOk(db: Db, requested: int, now: int)
    requires Inv(db) && StartRow(db, requested, now) != db
    ensures var db' := StartRow(db, requested, now);
            && |db'.sessions| == |db.sessions| + 1
            && SessionOk(db.ledger, |db.sessions|, db'.sessions[|db.sessions|])
            && !Queued(db.ledger, |db.sessions|) && FindKey(db.ledger.sets, Activate(|db.sessions|)).None?
  {
    var a := |db.sessions|;
    UnissuedKey(db, a);
    LatestIsDesired(db.ledger);
    var newest := db.ledger.sets[|db.ledger.sets| - 1];
    var camera := db.designated.value;
    ItemsReadBack(newest.rows, camera);
    RowOfIsListed(newest.rows, camera);
    var row := RowOf(newest.rows, camera).value;
    assert Uniform(row);
    UseCasesAre(row.apps);
  }

  lemma StartRowKeepsInv(db: Db, requested: int, now: int)
    requires Inv(db)
    ensures Inv(StartRow(db, requested, now))
  {
    var db' := StartRow(db, requested, now);
    if db' != db {
      StartedSessionOk(db, requested, now);
      forall j | 0 <= j < |db.jobs| ensures JobOk(db'.ledger, db'.sessions, db.jobs[j]) {
        assert JobOk(db.ledger, db.sessions, db.jobs[j]);
      }
      assert JobOk(db'.ledger, db'.sessions, db'.jobs[|db.jobs|]);
    }
  }

  /** The set that a commit of substituted items appends still lists every camera
      of the items, and gives the target its item. */
  lemma SubstitutedCommitServes(items: seq<Item>, target: Item, cameras: map<CameraId, Camera>, camera: CameraId)
    requires ItemOf(items, camera).Some? && target.apps != []
    ensures RowOf(RowsFrom(Substitute(items, target), cameras), camera).Some?
    ensures camera == target.camera ==>
              var row := RowOf(RowsFrom(Substitute(items, target), cameras), camera).value;
              Uniform(row) && ItemOfRow(row) == target
  {
    SubstituteIs(items, target, camera);
    RowsHold(Substitute(items, target), cameras, camera);
    RowFromGives(target, cameras);
  }

  lemma AbortKeepsInv(db: Db, j: nat)
    requires Inv(db)
    ensures Inv(AbortStart(db, j))
  {
    if AbortStart(db, j) != db {
      var a := db.jobs[j].session;
      assert JobOk(db.ledger, db.sessions, db.jobs[j]);
      assert SessionOk(db.ledger, a, db.sessions[a]);
      var refused := db.(jobs := db.jobs[j := db.jobs[j].(stopped := true)]);
      StoppedKeepsInv(db, j);
      forall k | 0 <= k < |refused.jobs| && refused.jobs[k].session == a && refused.jobs[k].purpose == Activation
        ensures refused.jobs[k].stopped
      {
        assert !(k < j) && !(j < k);
      }
      ReplaceSessionKeepsInv(refused, a, AbortStart(db, j).sessions[a]);
    }
  }

  lemma CancelKeepsInv(db: Db, session: nat)
    requires Inv(db)
    ensures Inv(Cancel(db, session))
  {
    if Cancel(db, session) != db {
      assert SessionOk(db.ledger, session, db.sessions[session]);
      ReplaceSessionKeepsInv(db, session, Cancel(db, session).sessions[session]);
    }
  }

  lemma ClosePollKeepsInv(db: Db, session: nat, verdict: Verdict)
    requires Inv(db)
    ensures Inv(ClosePoll(db, session, verdict))
  {
    if ClosePoll(db, session, verdict) != db {
      var s := db.sessions[session];
      assert SessionOk(db.ledger, session, s);
      var left := ClosePoll(db, session, verdict).sessions[session];
      ReplaceSessionKeepsInv(db, session, left);
      AddJobKeepsInv(db.(sessions := db.sessions[session := left]), NewJob(session, s));
    }
  }

  lemma TickKeepsInv(db: Db, session: nat, now: int)
    requires Inv(db)
    ensures Inv(Tick(db, session, now))
  {
    var db' := Tick(db, session, now);
    if db' != db {
      var s := db.sessions[session];
      assert SessionOk(db.ledger, session, s);
      ReplaceSessionKeepsInv(db, session, db'.sessions[session]);
      assert db'.sessions == db.sessions[session := db'.sessions[session]];
      if db'.jobs != db.jobs {
        AddJobKeepsInv(db.(sessions := db'.sessions), NewJob(session, s));
      }
    }
  }

  lemma JobReadKeepsInv(db: Db, j: nat)
    requires Inv(db)
    ensures Inv(JobRead(db, j))
  {
    if JobRead(db, j) != db {
      assert JobOk(db.ledger, db.sessions, db.jobs[j]);
      var s := db.sessions[db.jobs[j].session];
      assert SessionOk(db.ledger, db.jobs[j].session, s);
      LatestIsDesired(db.ledger);
      NewestListed(db.ledger, s.camera);
      ReplaceJobKeepsInv(db, j, JobRead(db, j).jobs[j]);
    }
  }

  lemma JobPreviewKeepsInv(db: Db, j: nat, accepted: bool)
    requires Inv(db)
    ensures Inv(JobPreview(db, j, accepted))
  {
    if JobPreview(db, j, accepted) != db {
      assert JobOk(db.ledger, db.sessions, db.jobs[j]);
      ReplaceJobKeepsInv(db, j, JobPreview(db, j, accepted).jobs[j]);
    }
  }

  lemma JobRecordKeepsInv(db: Db, j: nat)
    requires Inv(db)
    ensures Inv(JobRecord(db, j))
  {
    if JobRecord(db, j) != db {
      var a := db.jobs[j].session;
      assert JobOk(db.ledger, db.sessions, db.jobs[j]);
      assert SessionOk(db.ledger, a, db.sessions[a]);
      FindKeyIs(db.ledger.sets, KeyOf(db.jobs[j]));
      ReplaceSessionKeepsInv(db, a, JobRecord(db, j).sessions[a]);
    }
  }

  /** The set a restore commit appends serves the one session that is active. */
  lemma RestoreServes(db: Db, job: Job, set_: AssignmentSet, b: nat)
    requires Inv(db) && JobOk(db.ledger, db.sessions, job) && job.base.Some? && !job.stopped
    requires job.purpose == Restoration && !Queued(db.ledger, job.session)
    requires set_.key == Restore(job.session) && set_.rows == RowsFrom(JobItems(job), db.cameras)
    requires b < |db.sessions|
    ensures Serves(set_, db.ledger, b, db.sessions[b])
  {
    assert SessionOk(db.ledger, b, db.sessions[b]);
    assert Active(db.sessions[job.session]);
    if Active(db.sessions[b]) {
      assert b == job.session;
      SubstitutedCommitServes(job.base.value.items, job.target, db.cameras, db.sessions[b].camera);
    }
  }

  /** The set an activation in time appends serves the one session that is active. */
  lemma ActivationServes(db: Db, job: Job, set_: AssignmentSet, b: nat)
    requires Inv(db) && JobOk(db.ledger, db.sessions, job) && job.base.Some? && !job.stopped
    requires job.purpose == Activation && !Queued(db.ledger, job.session)
    requires set_.key == Activate(job.session) && set_.rows == RowsFrom(JobItems(job), db.cameras)
    requires b < |db.sessions|
    ensures Serves(set_, db.ledger, b, db.sessions[b])
  {
    assert SessionOk(db.ledger, b, db.sessions[b]);
    assert Active(db.sessions[job.session]);
    if Active(db.sessions[b]) {
      assert b == job.session;
      SubstitutedCommitServes(job.base.value.items, job.target, db.cameras, db.sessions[b].camera);
    }
  }

  lemma JobServes(db: Db, j: nat, set_: AssignmentSet, b: nat)
    requires Inv(db) && j < |db.jobs| && db.jobs[j].base.Some? && !db.jobs[j].stopped
    requires FindKey(db.ledger.sets, KeyOf(db.jobs[j])).None? && !Queued(db.ledger, db.jobs[j].session)
    requires set_.key == KeyOf(db.jobs[j]) && set_.rows == RowsFrom(JobItems(db.jobs[j]), db.cameras)
    requires b < |db.sessions|
    ensures Serves(set_, db.ledger, b, db.sessions[b])
  {
    assert JobOk(db.ledger, db.sessions, db.jobs[j]);
    if db.jobs[j].purpose == Activation {
      ActivationServes(db, db.jobs[j], set_, b);
    } else {
      RestoreServes(db, db.jobs[j], set_, b);
    }
  }

  lemma JobAppends(db: Db, j: nat, d': Deployment, id: nat)
    requires Inv(db) && j < |db.jobs| && db.jobs[j].base.Some? && !db.jobs[j].stopped && db.jobs[j].preview.Some?
    requires FindKey(db.ledger.sets, KeyOf(db.jobs[j])).None? && !Queued(db.ledger, db.jobs[j].session)
    requires exists accepted ::
               Commit(db.ledger, db.cameras, db.jobs[j].base.value.settings, JobItems(db.jobs[j]),
                      db.jobs[j].preview.value, KeyOf(db.jobs[j]), accepted) == Ok((d', id))
    ensures Inv(db.(ledger := d')) && FindKey(d'.sets, KeyOf(db.jobs[j])) == Some(id)
  {
    var job := db.jobs[j];
    var accepted :| Commit(db.ledger, db.cameras, job.base.value.settings, JobItems(job),
                           job.preview.value, KeyOf(job), accepted) == Ok((d', id));
    CommitKeepsValid(db.ledger, db.cameras, job.base.value.settings, JobItems(job), job.preview.value, KeyOf(job), accepted);
    assert JobOk(db.ledger, db.sessions, job);
    var set_ := d'.sets[|db.ledger.sets|];
    FindKeyExtends(db.ledger.sets, set_, KeyOf(job));
    forall b | 0 <= b < |db.sessions| ensures Serves(set_, db.ledger, b, db.sessions[b]) {
      JobServes(db, j, set_, b);
    }
    AppendKeepsInv(db, d', set_);
  }

  lemma StoppedKeepsInv(db: Db, j: nat)
    requires Inv(db) && j < |db.jobs|
    ensures Inv(db.(jobs := db.jobs[j := db.jobs[j].(stopped := true)]))
  {
    assert JobOk(db.ledger, db.sessions, db.jobs[j]);
    ReplaceJobKeepsInv(db, j, db.jobs[j].(stopped := true));
  }

  lemma CommittedKeepsInv(db: Db, j: nat, id: nat)
    requires Inv(db) && j < |db.jobs| && FindKey(db.ledger.sets, KeyOf(db.jobs[j])) == Some(id)
    ensures Inv(db.(jobs := db.jobs[j := db.jobs[j].(committed := Some(id))]))
  {
    assert JobOk(db.ledger, db.sessions, db.jobs[j]);
    ReplaceJobKeepsInv(db, j, db.jobs[j].(committed := Some(id)));
  }

  lemma JobCommitKeepsInv(db: Db, j: nat, accepted: bool)
    requires Inv(db) && (Activates(db, j) ==> !Queued(db.ledger, db.jobs[j].session))
    ensures Inv(JobCommit(db, j, accepted))
  {
    var db' := JobCommit(db, j, accepted);
    if db' != db {
      StoppedKeepsInv(db, j);
      if db'.jobs[j].committed.Some? {
        var id := db'.jobs[j].committed.value;
        if FindKey(db.ledger.sets, KeyOf(db.jobs[j])).None? {
          JobAppends(db, j, db'.ledger, id);
        }
        CommittedKeepsInv(db.(ledger := db'.ledger), j, id);
      }
    }
  }

  lemma GenericCommitKeepsInv(
    db: Db, request: string, settings: nat, items: seq<Item>, preview: Candidate, accepted: bool)
    requires Inv(db) && Permitted(db, CommitsGeneric(request, settings, items, preview, accepted))
    ensures Inv(GenericCommit(db, request, settings, items, preview, accepted))
  {
    var d := db.ledger;
    var db' := GenericCommit(db, request, settings, items, preview, accepted);
    CommitKeepsValid(d, db.cameras, settings, items, preview, Operator(request), accepted);
    if db'.ledger.sets != d.sets {
      var set_ := db'.ledger.sets[|d.sets|];
      forall a | 0 <= a < |db.sessions| ensures Serves(set_, d, a, db.sessions[a]) {
        if Active(db.sessions[a]) {
          var item := ItemOf(items, db.sessions[a].camera).value;
          RowsHold(items, db.cameras, db.sessions[a].camera);
          AppRowsAre(item.apps, item.config);
          assert item.apps == EnrollmentApps && !Queued(d, a);
        }
      }
      AppendKeepsInv(db, db'.ledger, set_);
    }
  }

  /** A clone of the newest set with no configuration changed serves every session. */
  lemma PlainCloneKeepsInv(db: Db, key: Key, intent: Intent, over: Overrides)
    requires Inv(db) && db.ledger.sets != [] && over.configs == map[]
    requires !key.Activate? && !key.Restore?
    ensures var c := Clone(db.ledger, db.ledger.sets[|db.ledger.sets| - 1], key, intent, over);
            c.Ok? ==> Inv(db.(ledger := c.value))
  {
    var d := db.ledger;
    var source := d.sets[|d.sets| - 1];
    CloneKeepsLedger(d, source, key, intent, over);
    var c := Clone(d, source, key, intent, over);
    if c.Ok? {
      var set_ := c.value.sets[|d.sets|];
      forall a | 0 <= a < |db.sessions| ensures Serves(set_, d, a, db.sessions[a]) {
        var camera := db.sessions[a].camera;
        assert SessionOk(d, a, db.sessions[a]);
        CloneHolds(source.rows, over, camera);
        RowOfIsListed(source.rows, camera);
        if Active(db.sessions[a]) {
          CloneRowKeeps(RowOf(source.rows, camera).value, over);
        }
      }
      AppendKeepsInv(db, c.value, set_);
    }
  }

  lemma RotationKeepsInv(db: Db, camera: CameraId, credential: nat, request: string)
    requires Inv(db)
    ensures Inv(RotateCredential(db, camera, credential, request))
  {
    if db.ledger.sets != [] {
      PlainCloneKeepsInv(db, Credential(request), db.ledger.sets[|db.ledger.sets| - 1].intent,
                         Overrides(map[camera := Some(credential)], map[], map[]));
    }
  }

  lemma LifecycleKeepsInv(db: Db, intent: Intent, request: string)
    requires Inv(db)
    ensures Inv(SetLifecycle(db, intent, request))
  {
    if db.ledger.sets != [] {
      PlainCloneKeepsInv(db, Lifecycle(request), intent, NoOverrides);
      var c := Clone(db.ledger, db.ledger.sets[|db.ledger.sets| - 1], Lifecycle(request), intent, NoOverrides);
      if c.Ok? {
        SameSetsKeepInv(db.(ledger := c.value), c.value.(intent := intent));
      }
    }
  }

  /** Merging geometry into the sessions of a camera, before any clone. */
  lemma MergeKeepsInv(db: Db, camera: CameraId, geometry: Config)
    requires Inv(db)
    requires forall a :: 0 <= a < |db.sessions| && db.sessions[a].camera == camera
               ==> db.sessions[a].status != Restoring
    ensures Inv(db.(sessions := MergeSessions(db.sessions, camera, geometry)))
  {
    var merged := MergeSessions(db.sessions, camera, geometry);
    forall a | 0 <= a < |merged| ensures SessionOk(db.ledger, a, merged[a]) {
      assert SessionOk(db.ledger, a, db.sessions[a]);
      MergeIsDetermined(merged[a].prior.config, db.sessions[a].prior.config, geometry);
    }
    forall j | 0 <= j < |db.jobs| ensures JobOk(db.ledger, merged, db.jobs[j]) {
      assert JobOk(db.ledger, db.sessions, db.jobs[j]);
    }
  }

  function EditOverrides(db: Db, camera: CameraId, geometry: Config): Overrides
    requires camera in db.cameras && db.ledger.sets != []
    requires RowOf(db.ledger.sets[|db.ledger.sets| - 1].rows, camera).Some?
  {
    var row := RowOf(db.ledger.sets[|db.ledger.sets| - 1].rows, camera).value;
    Overrides(map[],
              map[camera := Merge(ItemOfRow(row).config, geometry)],
              map[camera := db.cameras[camera].geometryRevision + 1])
  }

  /** A session across a clone that leaves its camera's configuration alone. */
  lemma SessionSurvivesClone(d: Deployment, d': Deployment, set_: AssignmentSet, over: Overrides, a: nat, s: Session)
    requires Valid(d) && SessionOk(d, a, s) && d.sets != [] && d'.sets == d.sets + [set_]
    requires !set_.key.Activate? && !set_.key.Restore?
    requires set_.rows == CloneRows(d.sets[|d.sets| - 1].rows, over) && (Active(s) ==> s.camera !in over.configs)
    ensures SessionOk(d', a, s)
  {
    if Active(s) {
      RowOfIsListed(d.sets[|d.sets| - 1].rows, s.camera);
      CloneGives(d.sets[|d.sets| - 1], set_, over, s.camera);
    }
    SessionSurvivesAppend(d, d', set_, a, s);
  }

  /** The session of the edited camera, whose restore is committed: it waits for the clone. */
  lemma RepointedSessionOk(
    d: Deployment, d': Deployment, set_: AssignmentSet, over: Overrides, a: nat, s: Session, geometry: Config)
    requires Valid(d) && SessionOk(d, a, s) && Listed(d, s.camera) && d'.sets == d.sets + [set_] && set_.key.Geometry?
    requires set_.rows == CloneRows(d.sets[|d.sets| - 1].rows, over) && s.camera in over.configs
    requires over.configs[s.camera]
          == Merge(ItemOfRow(RowOf(d.sets[|d.sets| - 1].rows, s.camera).value).config, geometry)
    requires s.status == Restoring && Queued(d, a)
    ensures SessionOk(d', a, Repoint(MergeInto(s, s.camera, geometry), s.camera, |d.sets|, |d.sets| + 1))
  {
    FindKeyIs(d.sets, Restore(a));
    FindKeyExtends(d.sets, set_, Restore(a));
    RowOfIsListed(d.sets[|d.sets| - 1].rows, s.camera);
    CloneGives(d.sets[|d.sets| - 1], set_, over, s.camera);
  }

  /** One session across an edit that clones the newest set. */
  lemma SessionSurvivesEdit(
    d: Deployment, d': Deployment, set_: AssignmentSet, over: Overrides, a: nat, s: Session,
    camera: CameraId, geometry: Config)
    requires Valid(d) && SessionOk(d, a, s) && Listed(d, camera)
    requires d'.sets == d.sets + [set_] && set_.key.Geometry?
    requires set_.rows == CloneRows(d.sets[|d.sets| - 1].rows, over)
    requires over.configs.Keys == {camera}
    requires over.configs[camera]
          == Merge(ItemOfRow(RowOf(d.sets[|d.sets| - 1].rows, camera).value).config, geometry)
    requires s.camera == camera && Active(s) ==> s.status == Restoring && Queued(d, a)
    ensures SessionOk(d', a, Repoint(MergeInto(s, camera, geometry), camera, |d.sets|, |d.sets| + 1))
  {
    if Active(s) && s.camera == camera {
      RepointedSessionOk(d, d', set_, over, a, s, geometry);
    } else {
      SessionSurvivesClone(d, d', set_, over, a, s);
    }
  }

  /** What a clone gives a camera that its source lists. */
  lemma CloneGives(source: AssignmentSet, set_: AssignmentSet, over: Overrides, camera: CameraId)
    requires ValidRows(source.rows) && set_.rows == CloneRows(source.rows, over)
    requires RowOf(source.rows, camera).Some?
    ensures RowOf(set_.rows, camera).Some?
    ensures var was := ItemOfRow(RowOf(source.rows, camera).value);
            Gives(set_, if camera in over.configs then was.(config := over.configs[camera]) else was)
  {
    CloneHolds(source.rows, over, camera);
    RowOfIsListed(source.rows, camera);
    CloneRowKeeps(RowOf(source.rows, camera).value, over);
  }

  ghost predicate EditClones(db: Db, camera: CameraId, geometry: Config) {
    && camera in db.cameras
    && Listed(db.ledger, camera)
    && (forall a :: 0 <= a < |db.sessions| ==> !Holding(db.sessions[a], camera))
    && EditResult(db, camera, geometry, true).Some?
  }

  /** The state after an edit that clones, field by field. */
  ghost predicate Edited(db: Db, db': Db, set_: AssignmentSet, over: Overrides, camera: CameraId, geometry: Config) {
    var d := db.ledger;
    && d.sets != []
    && db'.ledger.sets == d.sets + [set_]
    && set_.key.Geometry?
    && set_.rows == CloneRows(d.sets[|d.sets| - 1].rows, over)
    && db'.jobs == db.jobs
    && |db'.sessions| == |db.sessions|
    && forall a :: 0 <= a < |db.sessions| ==>
         db'.sessions[a] == Repoint(MergeInto(db.sessions[a], camera, geometry), camera, |d.sets|, |d.sets| + 1)
  }

  lemma EditWithClone(db: Db, camera: CameraId, geometry: Config) returns (set_: AssignmentSet, over: Overrides)
    requires Valid(db.ledger) && EditClones(db, camera, geometry)
    ensures over == EditOverrides(db, camera, geometry)
    ensures Valid(EditGeometry(db, camera, geometry, true).ledger)
    ensures Edited(db, EditGeometry(db, camera, geometry, true), set_, over, camera, geometry)
  {
    var d := db.ledger;
    var source := d.sets[|d.sets| - 1];
    over := EditOverrides(db, camera, geometry);
    var key := Geometry(camera, db.cameras[camera].geometryRevision + 1);
    CloneKeepsLedger(d, source, key, source.intent, over);
    var clone := Clone(d, source, key, source.intent, over).value;
    set_ := clone.sets[|d.sets|];
  }

  ghost predicate EditAllowed(db: Db, camera: CameraId) {
    forall a :: 0 <= a < |db.sessions| && db.sessions[a].camera == camera && Active(db.sessions[a])
      ==> db.sessions[a].status == Restoring && Queued(db.ledger, a)
  }

  lemma SessionsSurviveEdit(db: Db, db': Db, set_: AssignmentSet, over: Overrides, camera: CameraId, geometry: Config)
    requires Inv(db) && EditAllowed(db, camera)
    requires camera in db.cameras && Listed(db.ledger, camera) && over == EditOverrides(db, camera, geometry)
    requires Edited(db, db', set_, over, camera, geometry)
    ensures forall a :: 0 <= a < |db'.sessions| ==> SessionOk(db'.ledger, a, db'.sessions[a])
  {
    forall a | 0 <= a < |db.sessions| ensures SessionOk(db'.ledger, a, db'.sessions[a]) {
      assert SessionOk(db.ledger, a, db.sessions[a]);
      SessionSurvivesEdit(db.ledger, db'.ledger, set_, over, a, db.sessions[a], camera, geometry);
    }
  }

  lemma EditedKeepsInv(db: Db, db': Db, set_: AssignmentSet, over: Overrides, camera: CameraId, geometry: Config)
    requires Inv(db) && EditAllowed(db, camera)
    requires camera in db.cameras && Listed(db.ledger, camera) && over == EditOverrides(db, camera, geometry)
    requires Edited(db, db', set_, over, camera, geometry) && Valid(db'.ledger)
    ensures Inv(db')
  {
    SessionsSurviveEdit(db, db', set_, over, camera, geometry);
    forall j | 0 <= j < |db.jobs| ensures JobOk(db'.ledger, db'.sessions, db.jobs[j]) {
      JobSurvivesEdit(db, db', set_, camera, geometry, db.jobs[j]);
    }
  }

  lemma JobSurvivesEdit(db: Db, db': Db, set_: AssignmentSet, camera: CameraId, geometry: Config, job: Job)
    requires Inv(db) && JobOk(db.ledger, db.sessions, job)
    requires EditAllowed(db, camera)
    requires db'.ledger.sets == db.ledger.sets + [set_]
    requires |db'.sessions| == |db.sessions|
    requires forall a :: 0 <= a < |db.sessions| ==>
               db'.sessions[a] == Repoint(
                 MergeInto(db.sessions[a], camera, geometry), camera, |db.ledger.sets|, |db.ledger.sets| + 1)
    ensures JobOk(db'.ledger, db'.sessions, job)
  {
    JobSurvivesAppend(db.ledger, db'.ledger, set_, db.sessions, job);
    var s := db.sessions[job.session];
    assert s.status == Restoring && s.camera == camera ==> Queued(db.ledger, job.session);
  }

  lemma EditKeepsInv(db: Db, camera: CameraId, geometry: Config, accepted: bool)
    requires Inv(db) && Permitted(db, Edits(camera, geometry, accepted))
    ensures Inv(EditGeometry(db, camera, geometry, accepted))
  {
    var edited := EditResult(db, camera, geometry, accepted);
    if edited.Some? && Listed(db.ledger, camera) {
      if a :| 0 <= a < |db.sessions| && Holding(db.sessions[a], camera) {
        forall b | 0 <= b < |db.sessions| && db.sessions[b].camera == camera ensures db.sessions[b].status != Restoring {
          assert Active(db.sessions[a]);
        }
        MergeKeepsInv(db, camera, geometry);
      } else {
        var set_, over := EditWithClone(db, camera, geometry);
        EditedKeepsInv(db, EditGeometry(db, camera, geometry, true), set_, over, camera, geometry);
      }
    }
  }

  lemma SessionStepKeepsInv(db: Db, step: Step)
    requires Inv(db) && Permitted(db, step)
    requires step.Designates? || step.Starts? || step.Aborts? || step.Cancels?
             || step.Ticks? || step.Polls?
    ensures Inv(Next(db, step))
  {
    match step
    case Designates(camera) => assert Next(db, step) == Designate(db, camera);
    case Starts(window, now) => StartRowKeepsInv(db, window, now);
    case Aborts(job) => AbortKeepsInv(db, job);
    case Cancels(session) => CancelKeepsInv(db, session);
    case Ticks(session, now) => TickKeepsInv(db, session, now);
    case Polls(session, poll, now) =>
      if session < |db.sessions| {
        ClosePollKeepsInv(db, session, PollVerdict(db.sessions[session], poll, now));
      }
  }

  lemma JobStepKeepsInv(db: Db, step: Step)
    requires Inv(db) && Permitted(db, step)
    requires step.Reads? || step.Previews? || step.Commits? || step.Records?
    ensures Inv(Next(db, step))
  {
    match step
    case Reads(job) => JobReadKeepsInv(db, job);
    case Previews(job, accepted) => JobPreviewKeepsInv(db, job, accepted);
    case Commits(job, accepted) => JobCommitKeepsInv(db, job, accepted);
    case Records(job) => JobRecordKeepsInv(db, job);
  }

  lemma SyncStepKeepsInv(db: Db, step: Step)
    requires Inv(db)
    requires step.Claims? || step.Succeeds? || step.Fails?
    ensures Inv(Next(db, step))
  {
    match step
    case Claims =>
      SyncKeepsValid(db.ledger, 0, false);
      SameSetsKeepInv(db, Claim(db.ledger));
    case Succeeds(token) =>
      SyncKeepsValid(db.ledger, token, false);
      SameSetsKeepInv(db, RecordSuccess(db.ledger, token));
    case Fails(token, operatorRequired) =>
      SyncKeepsValid(db.ledger, token, operatorRequired);
      SameSetsKeepInv(db, RecordFailure(db.ledger, token, operatorRequired));
  }

  lemma LedgerStepKeepsInv(db: Db, step: Step)
    requires Inv(db) && Permitted(db, step)
    requires step.CommitsGeneric? || step.Edits? || step.Rotates? || step.SetsLifecycle? || step.SetsCamera?
    ensures Inv(Next(db, step))
  {
    match step
    case CommitsGeneric(request, settings, items, preview, accepted) =>
      GenericCommitKeepsInv(db, request, settings, items, preview, accepted);
    case Edits(camera, geometry, accepted) => EditKeepsInv(db, camera, geometry, accepted);
    case Rotates(camera, credential, request) => RotationKeepsInv(db, camera, credential, request);
    case SetsLifecycle(intent, request) => LifecycleKeepsInv(db, intent, request);
    case SetsCamera(camera, enabled) => assert Next(db, step) == SetCamera(db, camera, enabled);
  }

  /** Every permitted step keeps the invariant. */
  lemma StepKeepsInv(db: Db, step: Step)
    requires Inv(db) && Permitted(db, step)
    ensures Inv(Next(db, step))
  {
    if step.Reads? || step.Previews? || step.Commits? || step.Records? {
      JobStepKeepsInv(db, step);
    } else if step.Claims? || step.Succeeds? || step.Fails? {
      SyncStepKeepsInv(db, step);
    } else if step.CommitsGeneric? || step.Edits? || step.Rotates? || step.SetsLifecycle? || step.SetsCamera? {
      LedgerStepKeepsInv(db, step);
    } else {
      SessionStepKeepsInv(db, step);
    }
  }

  lemma {:induction false} RunKeepsInv(db: Db, steps: seq<Step>)
    requires (Initial(db) || Inv(db)) && PermittedRun(db, steps)
    ensures Inv(Run(db, steps))
  {
    if steps != [] {
      RunKeepsInv(db, steps[..|steps| - 1]);
      StepKeepsInv(Run(db, steps[..|steps| - 1]), steps[|steps| - 1]);
    }
  }
}
