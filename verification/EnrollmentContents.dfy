/** What the sets of the ledger carry besides applications and configurations:
    credentials, geometry revisions and the lifecycle intent, over whole runs. */
module EnrollmentContents {
  import opened Options
  import opened CameraConfig
  import opened Ledger
  import opened Enrollment

  // ---------------------------------------------------------------- a camera's record

  /** A rotation that raises, because its request was used before, changes nothing. */
  predicate RotationTakes(db: Db, step: Step, camera: CameraId) {
    && step.Rotates? && step.camera == camera && camera in db.cameras
    && (db.ledger.desired.None? || db.ledger.desired.value >= |db.ledger.sets|
        || RowOf(db.ledger.sets[db.ledger.desired.value].rows, camera).None?
        || FindKey(db.ledger.sets, Credential(step.request)).None?)
  }

  predicate EditTakes(db: Db, step: Step, camera: CameraId) {
    && step.Edits? && step.camera == camera
    && EditResult(db, camera, step.geometry, step.accepted).Some?
  }

  /** Only a rotation changes a camera's credential, and to the rotated one; only an
      edit moves its geometry revision, by one; only registration enables or disables it. */
  lemma RecordFollows(db: Db, step: Step, camera: CameraId)
    requires camera in db.cameras
    ensures var was := db.cameras[camera];
            && camera in Next(db, step).cameras
            && var now := Next(db, step).cameras[camera];
            && now.credential == (if RotationTakes(db, step, camera) then Some(step.credential) else was.credential)
            && now.geometryRevision == was.geometryRevision + (if EditTakes(db, step, camera) then 1 else 0)
            && now.enabled == (if step.SetsCamera? && step.camera == camera then step.enabled else was.enabled)
  {
  }

  lemma NewRecord(db: Db, step: Step, camera: CameraId)
    requires camera !in db.cameras && camera in Next(db, step).cameras
    ensures step.SetsCamera? && step.camera == camera && Next(db, step).cameras[camera] == Camera(step.enabled, None, 0)
  {
  }

  /** The credential that the last rotation in the run gave the camera. */
  function LastRotation(db: Db, steps: seq<Step>, camera: CameraId): Option<nat> {
    if steps == [] then None
    else
      var before, last := Run(db, steps[..|steps| - 1]), steps[|steps| - 1];
      if RotationTakes(before, last, camera) then Some(last.credential) else LastRotation(db, steps[..|steps| - 1], camera)
  }

  lemma {:induction false} CredentialIsLastRotated(db: Db, steps: seq<Step>, camera: CameraId)
    requires camera in db.cameras
    ensures camera in Run(db, steps).cameras
    ensures Run(db, steps).cameras[camera].credential
            == if LastRotation(db, steps, camera).Some? then LastRotation(db, steps, camera) else db.cameras[camera].credential
  {
    if steps != [] {
      CredentialIsLastRotated(db, steps[..|steps| - 1], camera);
      RecordFollows(Run(db, steps[..|steps| - 1]), steps[|steps| - 1], camera);
    }
  }

  // ---------------------------------------------------------------- the newest set

  ghost predicate RowIsCurrent(row: CameraRow, cameras: map<CameraId, Camera>) {
    && row.camera in cameras && row.credential == cameras[row.camera].credential
    && row.geometryRevision <= cameras[row.camera].geometryRevision
  }

  /** The newest set carries the intent of the deployment, and for every camera the
      credential of its record and a geometry revision it has had. */
  ghost predicate Current(db: Db) {
    && Valid(db.ledger)
    && (db.ledger.sets != [] ==>
          var newest := db.ledger.sets[|db.ledger.sets| - 1];
          && newest.intent == db.ledger.intent
          && forall i :: 0 <= i < |newest.rows| ==> RowIsCurrent(newest.rows[i], db.cameras))
  }

  lemma CommitIsCurrent(
    db: Db, settings: nat, items: seq<Item>, preview: Candidate, key: Key, accepted: bool)
    requires Current(db)
    ensures var c := Commit(db.ledger, db.cameras, settings, items, preview, key, accepted);
            c.Ok? ==> Current(db.(ledger := c.value.0))
  {
    CommitKeepsValid(db.ledger, db.cameras, settings, items, preview, key, accepted);
    RowsHold(items, db.cameras, "");
  }

  lemma JobCommitIsCurrent(db: Db, j: nat, accepted: bool)
    requires Current(db)
    ensures Current(JobCommit(db, j, accepted))
  {
    if JobCommit(db, j, accepted).ledger != db.ledger {
      var job := db.jobs[j];
      CommitIsCurrent(db, job.base.value.settings, JobItems(job), job.preview.value, KeyOf(job), accepted);
    }
  }

  /** The rows of a clone are current again if the overrides are the cameras' new records. */
  lemma CloneIsCurrent(
    db: Db, key: Key, intent: Intent, over: Overrides, cameras: map<CameraId, Camera>)
    requires Current(db) && db.ledger.sets != []
    requires db.cameras.Keys <= cameras.Keys
    requires forall c :: c in db.cameras ==>
               && cameras[c].credential == (if c in over.credentials then over.credentials[c] else db.cameras[c].credential)
               && db.cameras[c].geometryRevision <= cameras[c].geometryRevision
               && (c in over.geometry ==> over.geometry[c] <= cameras[c].geometryRevision)
    ensures var c := Clone(db.ledger, db.ledger.sets[|db.ledger.sets| - 1], key, intent, over);
            c.Ok? ==> Current(db.(ledger := c.value.(intent := intent), cameras := cameras))
  {
    var source := db.ledger.sets[|db.ledger.sets| - 1];
    CloneKeepsLedger(db.ledger, source, key, intent, over);
    CloneHolds(source.rows, over, "");
  }

  lemma RotationIsCurrent(db: Db, camera: CameraId, credential: nat, request: string)
    requires Current(db)
    ensures Current(RotateCredential(db, camera, credential, request))
  {
    if camera in db.cameras && db.ledger.sets != [] {
      var stored := db.cameras[camera := db.cameras[camera].(credential := Some(credential))];
      var source := db.ledger.sets[|db.ledger.sets| - 1];
      if RowOf(source.rows, camera).None? {
        RowOfIsListed(source.rows, camera);
      } else {
        CloneIsCurrent(db, Credential(request), source.intent, Overrides(map[camera := Some(credential)], map[], map[]), stored);
      }
    }
  }

  lemma LifecycleIsCurrent(db: Db, intent: Intent, request: string)
    requires Current(db)
    ensures Current(SetLifecycle(db, intent, request))
  {
    if db.ledger.sets != [] {
      CloneIsCurrent(db, Lifecycle(request), intent, NoOverrides, db.cameras);
    }
  }

  lemma RequeueIsCurrent(db: Db, camera: CameraId, geometry: Config, revision: nat, sessions: seq<Session>, row: CameraRow)
    requires Current(db) && db.ledger.sets != [] && camera in db.cameras && revision == db.cameras[camera].geometryRevision + 1
    requires |sessions| == |db.sessions|
    ensures var cameras := db.cameras[camera := db.cameras[camera].(geometryRevision := revision)];
            var requeued := RequeueGeometry(db.(cameras := cameras, sessions := sessions), camera, geometry, revision,
                                            db.ledger.sets[|db.ledger.sets| - 1], row);
            requeued.Some? ==> Current(requeued.value)
  {
    var source := db.ledger.sets[|db.ledger.sets| - 1];
    var cameras := db.cameras[camera := db.cameras[camera].(geometryRevision := revision)];
    CloneIsCurrent(db, Geometry(camera, revision), source.intent,
                   Overrides(map[], map[camera := Merge(ItemOfRow(row).config, geometry)], map[camera := revision]), cameras);
  }

  lemma BumpIsCurrent(db: Db, camera: CameraId, sessions: seq<Session>)
    requires Current(db) && camera in db.cameras
    ensures var bumped := db.cameras[camera := db.cameras[camera].(geometryRevision := db.cameras[camera].geometryRevision + 1)];
            Current(db.(cameras := bumped, sessions := sessions))
  {
  }

  lemma EditIsCurrent(db: Db, camera: CameraId, geometry: Config, accepted: bool)
    requires Current(db)
    ensures Current(EditGeometry(db, camera, geometry, accepted))
  {
    if camera in db.cameras {
      var merged := MergeSessions(db.sessions, camera, geometry);
      BumpIsCurrent(db, camera, db.sessions);
      BumpIsCurrent(db, camera, merged);
      if db.ledger.sets != [] {
        var source := db.ledger.sets[|db.ledger.sets| - 1];
        if RowOf(source.rows, camera).Some? {
          RequeueIsCurrent(db, camera, geometry, db.cameras[camera].geometryRevision + 1, merged, RowOf(source.rows, camera).value);
        }
      }
      EditIsOneOf(db, camera, geometry, accepted);
    }
  }

  lemma EditIsOneOf(db: Db, camera: CameraId, geometry: Config, accepted: bool)
    requires Valid(db.ledger) && camera in db.cameras
    ensures var revision := db.cameras[camera].geometryRevision + 1;
            var cameras := db.cameras[camera := db.cameras[camera].(geometryRevision := revision)];
            var merged := MergeSessions(db.sessions, camera, geometry);
            var edited := EditGeometry(db, camera, geometry, accepted);
            || edited == db
            || edited == db.(cameras := cameras, sessions := db.sessions)
            || edited == db.(cameras := cameras, sessions := merged)
            || (db.ledger.sets != [] && RowOf(db.ledger.sets[|db.ledger.sets| - 1].rows, camera).Some?
                && RequeueGeometry(db.(cameras := cameras, sessions := merged), camera, geometry, revision,
                                   db.ledger.sets[|db.ledger.sets| - 1],
                                   RowOf(db.ledger.sets[|db.ledger.sets| - 1].rows, camera).value) == Some(edited))
  {
  }

  lemma SyncIsCurrent(db: Db, step: Step)
    requires Current(db) && (step.Claims? || step.Succeeds? || step.Fails?)
    ensures Current(Next(db, step))
  {
    SyncKeepsValid(db.ledger, if step.Claims? then 0 else step.token, step.Fails? && step.operatorRequired);
  }

  lemma StepIsCurrent(db: Db, step: Step)
    requires Current(db)
    ensures Current(Next(db, step))
  {
    match step
    case Commits(j, accepted) => JobCommitIsCurrent(db, j, accepted);
    case CommitsGeneric(request, settings, items, preview, accepted) =>
      CommitIsCurrent(db, settings, items, preview, Operator(request), accepted);
    case Edits(camera, geometry, accepted) => EditIsCurrent(db, camera, geometry, accepted);
    case Rotates(camera, credential, request) => RotationIsCurrent(db, camera, credential, request);
    case SetsLifecycle(intent, request) => LifecycleIsCurrent(db, intent, request);
    case Claims => SyncIsCurrent(db, step);
    case Succeeds(_) => SyncIsCurrent(db, step);
    case Fails(_, _) => SyncIsCurrent(db, step);
    case _ =>
  }

  /** Over every run whatsoever, permitted or not. */
  lemma {:induction false} RunIsCurrent(db: Db, steps: seq<Step>)
    requires Initial(db) || Current(db)
    ensures Current(Run(db, steps))
  {
    if steps != [] {
      RunIsCurrent(db, steps[..|steps| - 1]);
      StepIsCurrent(Run(db, steps[..|steps| - 1]), steps[|steps| - 1]);
    }
  }

  /** So what synchronization is asked to apply gives every camera the credential that
      was last rotated in, whichever sets, clones and commits came in between. */
  lemma NewestCarriesLastRotation(db: Db, steps: seq<Step>, camera: CameraId)
    requires (Initial(db) || Current(db)) && camera in db.cameras && Run(db, steps).ledger.sets != []
    ensures var d := Run(db, steps).ledger;
            && d.desired == Some(|d.sets| - 1) && d.sets[|d.sets| - 1].intent == d.intent
            && (RowOf(d.sets[|d.sets| - 1].rows, camera).Some? ==>
                  RowOf(d.sets[|d.sets| - 1].rows, camera).value.credential
                  == if LastRotation(db, steps, camera).Some? then LastRotation(db, steps, camera) else db.cameras[camera].credential)
  {
    RunIsCurrent(db, steps);
    CredentialIsLastRotated(db, steps, camera);
    var d := Run(db, steps).ledger;
    RowOfIsListed(d.sets[|d.sets| - 1].rows, camera);
  }

  // ---------------------------------------------------------------- one step of the ledger

  /** The step adds a set, and is not a commit. */
  ghost predicate Clones(db: Db, step: Step) {
    && !step.Commits? && !step.CommitsGeneric? && Next(db, step).ledger.sets != db.ledger.sets
  }

  ghost predicate ClonedFrom(source: AssignmentSet, added: AssignmentSet, step: Step, cameras: map<CameraId, Camera>) {
    && added.settings == source.settings
    && added.intent == (if step.SetsLifecycle? then step.intent else source.intent)
    && |added.rows| == |source.rows|
    && forall i :: 0 <= i < |source.rows| ==>
         var was, now := source.rows[i], added.rows[i];
         && now.camera == was.camera && now.fps == was.fps && |now.apps| == |was.apps|
         && now.credential == (if step.Rotates? && step.camera == was.camera then Some(step.credential) else was.credential)
         && now.geometryRevision == (if step.Edits? && step.camera == was.camera && was.camera in cameras
                                    then cameras[was.camera].geometryRevision else was.geometryRevision)
         && (!(step.Edits? && step.camera == was.camera) ==> now.apps == was.apps)
  }

  lemma CloneIs(d: Deployment, key: Key, intent: Intent, over: Overrides)
    requires Valid(d) && d.sets != [] && Clone(d, d.sets[|d.sets| - 1], key, intent, over).Ok?
    ensures var source, d' := d.sets[|d.sets| - 1], Clone(d, d.sets[|d.sets| - 1], key, intent, over).value;
            && |d'.sets| == |d.sets| + 1 && d.sets <= d'.sets
            && var added := d'.sets[|d.sets|];
            && added.settings == source.settings && added.intent == intent && added.rows == CloneRows(source.rows, over)
            && |added.rows| == |source.rows|
            && forall i :: 0 <= i < |source.rows| ==>
                 added.rows[i] == CloneRow(source.rows[i], over) && |added.rows[i].apps| == |source.rows[i].apps|
  {
    var source := d.sets[|d.sets| - 1];
    CloneHolds(source.rows, over, "");
    forall i | 0 <= i < |source.rows| ensures |CloneRow(source.rows[i], over).apps| == |source.rows[i].apps| {
      UseCasesAre(source.rows[i].apps);
      if source.rows[i].camera in over.configs {
        AppRowsAre(UseCases(source.rows[i].apps), over.configs[source.rows[i].camera]);
      }
    }
  }

  lemma OnlyThreeClone(db: Db, step: Step)
    requires Clones(db, step)
    ensures step.Edits? || step.Rotates? || step.SetsLifecycle?
  {
  }

  /** The ledger after a clone of the newest set on account of this step. */
  ghost predicate GrowsBy(d: Deployment, d': Deployment, step: Step, cameras: map<CameraId, Camera>) {
    && d.sets != [] && |d'.sets| == |d.sets| + 1 && d.sets <= d'.sets
    && ClonedFrom(d.sets[|d.sets| - 1], d'.sets[|d.sets|], step, cameras)
    && (step.SetsLifecycle? ==> d'.intent == step.intent)
  }

  lemma RotationGrows(db: Db, camera: CameraId, credential: nat, request: string)
    requires Valid(db.ledger) && RotateCredential(db, camera, credential, request).ledger.sets != db.ledger.sets
    ensures var after := RotateCredential(db, camera, credential, request);
            GrowsBy(db.ledger, after.ledger, Rotates(camera, credential, request), after.cameras)
  {
    var source := db.ledger.sets[|db.ledger.sets| - 1];
    CloneIs(db.ledger, Credential(request), source.intent, Overrides(map[camera := Some(credential)], map[], map[]));
  }

  lemma LifecycleGrows(db: Db, intent: Intent, request: string)
    requires Valid(db.ledger) && SetLifecycle(db, intent, request).ledger.sets != db.ledger.sets
    ensures var after := SetLifecycle(db, intent, request);
            GrowsBy(db.ledger, after.ledger, SetsLifecycle(intent, request), after.cameras)
  {
    CloneIs(db.ledger, Lifecycle(request), intent, NoOverrides);
  }

  lemma EditGrows(db: Db, camera: CameraId, geometry: Config, accepted: bool)
    requires Valid(db.ledger) && EditGeometry(db, camera, geometry, accepted).ledger.sets != db.ledger.sets
    ensures var after := EditGeometry(db, camera, geometry, accepted);
            GrowsBy(db.ledger, after.ledger, Edits(camera, geometry, accepted), after.cameras)
  {
    var source := db.ledger.sets[|db.ledger.sets| - 1];
    var revision := db.cameras[camera].geometryRevision + 1;
    CloneIs(db.ledger, Geometry(camera, revision), source.intent,
            Overrides(map[], map[camera := Merge(ItemOfRow(RowOf(source.rows, camera).value).config, geometry)],
                      map[camera := revision]));
  }

  /** Among all steps but commits: a set is added only as a copy of the newest one in
      which a rotation changes its camera's credential, an edit its camera's geometry
      revision and configurations, and a lifecycle change the intent. */
  lemma ClonesChangeOneThing(db: Db, step: Step)
    requires Valid(db.ledger) && Clones(db, step)
    ensures GrowsBy(db.ledger, Next(db, step).ledger, step, Next(db, step).cameras)
  {
    OnlyThreeClone(db, step);
    if step.Rotates? {
      RotationGrows(db, step.camera, step.credential, step.request);
    } else if step.SetsLifecycle? {
      LifecycleGrows(db, step.intent, step.request);
    } else {
      EditGrows(db, step.camera, step.geometry, step.accepted);
    }
  }
}
