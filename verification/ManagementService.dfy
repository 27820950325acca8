/** The management service's rows and the transactions that update them in place
    (tvt_edge/service.py, tvt_edge/cluster/sync.py). Every method is tied to the
    transaction of the same name in modules Ledger and Enrollment, and keeps the
    invariant of module EnrollmentSafety wherever its step is permitted. */
module ManagementService {
  import opened Options
  import opened CameraConfig
  import opened Ledger
  import opened Enrollment
  import opened EnrollmentSafety
  import Capture

  /** The step, where it is permitted, leads from the invariant to the invariant. */
  ghost predicate Keeps(before: Db, step: Step, after: Db) {
    Inv(before) && Permitted(before, step) ==> Inv(after)
  }

  lemma NextKeeps(before: Db, step: Step)
    ensures Keeps(before, step, Next(before, step))
  {
    if Inv(before) && Permitted(before, step) {
      StepKeepsInv(before, step);
    }
  }

  lemma TickKeeps(before: Db, a: nat, now: int)
    ensures Keeps(before, Ticks(a, now), Tick(before, a, now))
  {
    if Inv(before) {
      TickKeepsInv(before, a, now);
    }
  }

  lemma ClaimKeeps(before: Db)
    ensures Keeps(before, Claims, before.(ledger := Claim(before.ledger)))
  {
    if Inv(before) {
      SyncStepKeepsInv(before, Claims);
    }
  }

  lemma SuccessKeeps(before: Db, token: nat)
    ensures Keeps(before, Succeeds(token), before.(ledger := RecordSuccess(before.ledger, token)))
  {
    if Inv(before) {
      SyncStepKeepsInv(before, Succeeds(token));
    }
  }

  lemma FailureKeeps(before: Db, token: nat, operatorRequired: bool)
    ensures Keeps(before, Fails(token, operatorRequired),
                  before.(ledger := RecordFailure(before.ledger, token, operatorRequired)))
  {
    if Inv(before) {
      SyncStepKeepsInv(before, Fails(token, operatorRequired));
    }
  }

  lemma PollKeeps(before: Db, a: nat, poll: Poll, now: int)
    ensures Keeps(before, Polls(a, poll, now), PollCapture(before, a, poll, now))
  {
    if Inv(before) && a < |before.sessions| {
      ClosePollKeepsInv(before, a, PollVerdict(before.sessions[a], poll, now));
    }
  }

  lemma CancelKeeps(before: Db, a: nat)
    ensures Keeps(before, Cancels(a), Cancel(before, a))
  {
    if Inv(before) {
      CancelKeepsInv(before, a);
    }
  }

  lemma RecordKeeps(before: Db, j: nat)
    ensures Keeps(before, Records(j), JobRecord(before, j))
  {
    if Inv(before) {
      JobRecordKeepsInv(before, j);
    }
  }

  lemma PreviewKeeps(before: Db, j: nat, accepted: bool)
    ensures Keeps(before, Previews(j, accepted), JobPreview(before, j, accepted))
  {
    if Inv(before) {
      JobPreviewKeepsInv(before, j, accepted);
    }
  }

  lemma CommitKeeps(before: Db, j: nat, accepted: bool)
    ensures Keeps(before, Commits(j, accepted), JobCommit(before, j, accepted))
  {
    if Inv(before) && Permitted(before, Commits(j, accepted)) {
      JobCommitKeepsInv(before, j, accepted);
    }
  }

  lemma GenericCommitKeeps(
    before: Db, request: string, settings: nat, items: seq<Item>, preview: Candidate, accepted: bool)
    ensures Keeps(before, CommitsGeneric(request, settings, items, preview, accepted),
                  GenericCommit(before, request, settings, items, preview, accepted))
  {
    if Inv(before) && Permitted(before, CommitsGeneric(request, settings, items, preview, accepted)) {
      GenericCommitKeepsInv(before, request, settings, items, preview, accepted);
    }
  }

  lemma EditKeeps(before: Db, camera: CameraId, geometry: Config, accepted: bool)
    ensures Keeps(before, Edits(camera, geometry, accepted), EditGeometry(before, camera, geometry, accepted))
  {
    if Inv(before) && Permitted(before, Edits(camera, geometry, accepted)) {
      EditKeepsInv(before, camera, geometry, accepted);
    }
  }

  lemma RotationKeeps(before: Db, camera: CameraId, credential: nat, request: string)
    ensures Keeps(before, Rotates(camera, credential, request), RotateCredential(before, camera, credential, request))
  {
    if Inv(before) && Permitted(before, Rotates(camera, credential, request)) {
      RotationKeepsInv(before, camera, credential, request);
    }
  }

  lemma LifecycleKeeps(before: Db, wanted: Intent, request: string)
    ensures Keeps(before, SetsLifecycle(wanted, request), SetLifecycle(before, wanted, request))
  {
    if Inv(before) && Permitted(before, SetsLifecycle(wanted, request)) {
      LifecycleKeepsInv(before, wanted, request);
    }
  }

  class Service {
    // The deployment and its synchronization row.
    var next: int
    var intent: Intent
    var sets: seq<AssignmentSet>
    var desired: Option<nat>
    var applied: Option<nat>
    var phase: Phase
    var token: Option<nat>
    var claims: seq<nat>
    // Cameras, the designation and the enrollment sessions.
    var cameras: map<CameraId, Camera>
    var designated: Option<CameraId>
    var sessions: seq<Session>
    // Workers in flight.
    var jobs: seq<Job>

    constructor ()
      ensures Initial(View()) && Inv(View())
    {
      next, intent, sets := 1, Running, [];
      desired, applied, phase := None, None, Pending;
      token, claims := None, [];
      cameras, designated, sessions := map[], None, [];
      jobs := [];
    }

    function LedgerView(): Deployment
      reads this
    {
      Deployment(next, intent, sets, desired, applied, phase, token, claims)
    }

    function View(): Db
      reads this
    {
      Db(LedgerView(), cameras, designated, sessions, jobs)
    }

    // -------------------------------------------------------------- the ledger

    method SetDesired(id: nat)
      modifies this`desired, this`phase
      ensures desired == Some(id) && phase == Pending
    {
      desired := Some(id);
      phase := Pending;
    }

    /** Stores a set under the deployment's next revision and makes it desired. */
    method AppendSet(key: Key, settings: nat, intent_: Intent, rows: seq<CameraRow>) returns (id: nat)
      modifies this`next, this`sets, this`desired, this`phase
      ensures id == old(|sets|)
      ensures LedgerView() == Append(old(LedgerView()), key, settings, intent_, rows)
    {
      id := |sets|;
      var added := AssignmentSet(next, key, settings, intent_, rows);
      next := next + 1;
      sets := sets + [added];
      SetDesired(id);
    }

    method CopyApps(row: CameraRow, over: Overrides) returns (apps: seq<AppRow>)
      ensures apps == CloneRow(row, over).apps
    {
      apps := [];
      var i := 0;
      while i < |row.apps|
        invariant 0 <= i <= |row.apps|
        invariant row.camera in over.configs ==>
                    apps + Reconfigured(row.apps[i..], over.configs[row.camera])
                    == Reconfigured(row.apps, over.configs[row.camera])
        invariant row.camera !in over.configs ==> apps == row.apps[..i]
      {
        var app := row.apps[i];
        assert row.apps[i..][0] == app && row.apps[i..][1..] == row.apps[i + 1..];
        if row.camera in over.configs {
          apps := apps + [AppRow(app.useCase, over.configs[row.camera])];
        } else {
          apps := apps + [app];
        }
        i := i + 1;
      }
    }

    method CopyRow(original: CameraRow, over: Overrides) returns (copied: CameraRow)
      ensures copied == CloneRow(original, over)
    {
      var credential := original.credential;
      if original.camera in over.credentials {
        credential := over.credentials[original.camera];
      }
      var geometry := original.geometryRevision;
      if original.camera in over.geometry {
        geometry := over.geometry[original.camera];
      }
      var apps := CopyApps(original, over);
      copied := CameraRow(original.camera, original.fps, credential, geometry, apps);
    }

    method CopyRows(rows: seq<CameraRow>, over: Overrides) returns (copied: seq<CameraRow>)
      ensures copied == CloneRows(rows, over)
    {
      copied := [];
      var i := 0;
      while i < |rows|
        invariant 0 <= i <= |rows|
        invariant copied + CloneRows(rows[i..], over) == CloneRows(rows, over)
      {
        assert rows[i..][0] == rows[i] && rows[i..][1..] == rows[i + 1..];
        var row := CopyRow(rows[i], over);
        copied := copied + [row];
        i := i + 1;
      }
    }

    method CloneAssignmentSet(source: AssignmentSet, key: Key, intent_: Intent, over: Overrides)
      returns (r: Result<nat, CloneError>)
      modifies this`next, this`sets, this`desired, this`phase
      ensures match Clone(old(LedgerView()), source, key, intent_, over)
              case Ok(d) => LedgerView() == d && r == Ok(old(|sets|))
              case Err(e) => LedgerView() == old(LedgerView()) && r == Err(e)
      ensures Valid(old(LedgerView())) && ValidRows(source.rows) ==> Valid(LedgerView())
    {
      if Valid(LedgerView()) && ValidRows(source.rows) {
        CloneKeepsLedger(LedgerView(), source, key, intent_, over);
      }
      if FindKey(sets, key).Some? {
        return Err(DuplicateKey);
      }
      var copied := CopyRows(source.rows, over);
      var id := AppendSet(key, source.settings, intent_, copied);
      r := Ok(id);
    }

    method StoredApps(apps: seq<string>, config: Config) returns (rows: seq<AppRow>)
      ensures rows == AppRows(apps, config)
    {
      rows := [];
      var i := 0;
      while i < |apps|
        invariant 0 <= i <= |apps|
        invariant rows + AppRows(apps[i..], config) == AppRows(apps, config)
      {
        assert apps[i..][0] == apps[i] && apps[i..][1..] == apps[i + 1..];
        rows := rows + [AppRow(apps[i], config)];
        i := i + 1;
      }
    }

    method StoredRows(items: seq<Item>) returns (rows: seq<CameraRow>)
      requires forall i :: 0 <= i < |items| ==> items[i].camera in cameras
      ensures rows == RowsFrom(items, cameras)
    {
      rows := [];
      var i := 0;
      while i < |items|
        invariant 0 <= i <= |items|
        invariant rows + RowsFrom(items[i..], cameras) == RowsFrom(items, cameras)
      {
        var item := items[i];
        assert items[i..][0] == item && items[i..][1..] == items[i + 1..];
        var camera := cameras[item.camera];
        var apps := StoredApps(item.apps, item.config);
        rows := rows + [CameraRow(item.camera, item.fps, camera.credential, camera.geometryRevision, apps)];
        i := i + 1;
      }
    }

    method CommitCatalogDeployment(settings: nat, items: seq<Item>, preview: Candidate, key: Key, accepted: bool)
      returns (r: Result<nat, CommitError>)
      modifies this`next, this`sets, this`desired, this`phase
      ensures match Commit(old(LedgerView()), cameras, settings, items, preview, key, accepted)
              case Ok((d, id)) => LedgerView() == d && r == Ok(id)
              case Err(e) => LedgerView() == old(LedgerView()) && r == Err(e)
      ensures Valid(old(LedgerView())) ==> Valid(LedgerView())
    {
      if Valid(LedgerView()) {
        CommitKeepsValid(LedgerView(), cameras, settings, items, preview, key, accepted);
      }
      var existing := FindKey(sets, key);
      if existing.Some? {
        return Ok(existing.value);
      }
      var candidate := CandidateFor(LedgerView(), cameras, settings, items, accepted);
      if candidate.None? {
        return Err(Invalid);
      }
      if candidate.value != preview {
        return Err(ChangedAfterPreview);
      }
      var rows := StoredRows(items);
      var id := AppendSet(key, settings, intent, rows);
      r := Ok(id);
    }

    method ClaimSync()
      modifies this`phase, this`token, this`claims
      ensures LedgerView() == Claim(old(LedgerView()))
      ensures Keeps(old(View()), Claims, View())
    {
      ClaimKeeps(View());
      if desired.Some? && (phase == Pending || phase == Failed || phase == Applying) {
        phase := Applying;
        token := Some(|claims|);
        claims := claims + [desired.value];
      }
    }

    method RecordSyncSuccess(work: nat)
      modifies this`phase, this`token, this`applied
      ensures LedgerView() == RecordSuccess(old(LedgerView()), work)
      ensures Keeps(old(View()), Succeeds(work), View())
    {
      SuccessKeeps(View(), work);
      if token != Some(work) || work >= |claims| {
        return;
      }
      applied := Some(claims[work]);
      if desired == Some(claims[work]) {
        phase := Applied;
      } else {
        phase := Pending;
      }
      token := None;
    }

    method RecordSyncFailure(work: nat, operatorRequired: bool)
      modifies this`phase, this`token
      ensures LedgerView() == RecordFailure(old(LedgerView()), work, operatorRequired)
      ensures Keeps(old(View()), Fails(work, operatorRequired), View())
    {
      FailureKeeps(View(), work, operatorRequired);
      if token != Some(work) || work >= |claims| {
        return;
      }
      if desired == Some(claims[work]) {
        phase := if operatorRequired then OperatorRequired else Failed;
      } else {
        phase := Pending;
      }
      token := None;
    }

    // -------------------------------------------------------------- sessions

    method HasActiveSession() returns (found: bool)
      ensures found == AnyActive(View())
    {
      found := false;
      var i := 0;
      while i < |sessions| && !found
        invariant 0 <= i <= |sessions|
        invariant found ==> i < |sessions| && Active(sessions[i])
        invariant !found ==> forall a :: 0 <= a < i ==> !Active(sessions[a])
        decreases |sessions| - i, !found
      {
        if Active(sessions[i]) {
          found := true;
        } else {
          i := i + 1;
        }
      }
    }

    /** Stores the row; the caller goes on to activate. */
    method StartEnrollmentSession(requested: int, now: int)
      modifies this`sessions, this`jobs
      ensures View() == StartRow(old(View()), requested, now)
      ensures Keeps(old(View()), Starts(requested, now), View())
    {
      NextKeeps(View(), Starts(requested, now));
      var window := if requested == 0 then DefaultWindow else requested;
      if window < MinimumWindow || window > MaximumWindow {
        return;
      }
      var active := HasActiveSession();
      if active || designated.None? || sets == [] {
        return;
      }
      var target := ItemOf(CurrentItems(LedgerView()), designated.value);
      if target.None? || target.value.apps == EnrollmentApps {
        return;
      }
      var row := Session(
        designated.value, target.value, window, Activating, None, now, None, None, None, None, None, None, None);
      jobs := jobs + [Job(Activation, |sessions|, Item(row.camera, EnrollmentApps, target.value.fps, map[]),
                          None, None, None, false)];
      sessions := sessions + [row];
    }

    /** What an activation that raised leaves of its session. */
    method AbortStartingSession(j: nat)
      modifies this`sessions, this`jobs
      ensures View() == AbortStart(old(View()), j)
      ensures Keeps(old(View()), Aborts(j), View())
    {
      NextKeeps(View(), Aborts(j));
      if j >= |jobs| || !jobs[j].purpose.Activation? || jobs[j].session >= |sessions| {
        return;
      }
      var a := jobs[j].session;
      if sessions[a].status == Activating && sessions[a].activation.None? {
        sessions := sessions[a := sessions[a].(status := Aborted, result := Some(ActivationFailed))];
        jobs := jobs[j := jobs[j].(stopped := true)];
      }
    }

    method CancelEnrollmentSession(a: nat)
      modifies this`sessions
      ensures View() == Cancel(old(View()), a)
      ensures Keeps(old(View()), Cancels(a), View())
    {
      CancelKeeps(View(), a);
      if a < |sessions| && (sessions[a].status == Activating || sessions[a].status == Capturing) {
        sessions := sessions[a := sessions[a].(status := Restoring, result := Some(Cancelled_))];
      }
    }

    method QueueRestore(a: nat)
      requires a < |sessions|
      modifies this`jobs
      ensures jobs == old(jobs) + [NewJob(a, sessions[a])]
    {
      var s := sessions[a];
      jobs := jobs + [Job(Restoration, a, Item(s.camera, s.prior.apps, s.prior.fps, s.prior.config),
                          None, None, None, false)];
    }

    method ReconcileSession(a: nat, now: int)
      modifies this`sessions, this`jobs
      ensures View() == Tick(old(View()), a, now)
      ensures Keeps(old(View()), Ticks(a, now), View())
    {
      TickKeeps(View(), a, now);
      if a >= |sessions| {
        return;
      }
      var row := sessions[a];
      if row.status == Activating {
        if RevisionApplied(LedgerView(), row.activationRevision) {
          row := row.(status := Capturing);
          row := row.(activatedAt := Some(now));
          row := row.(deadline := Some(now + row.window));
        } else if now - row.startedAt > ActivationTimeout {
          row := row.(status := Restoring);
          row := row.(result := Some(ActivationFailed));
          QueueRestore(a);
        }
      } else if row.status == Restoring {
        if row.restoration.Some? {
          if RevisionApplied(LedgerView(), row.restorationRevision) {
            if row.result.None? {
              row := row.(result := Some(Ok_));
            }
            row := row.(status := TerminalStatus(row.result.value));
            row := row.(restoredAt := Some(now));
          }
        } else {
          QueueRestore(a);
        }
      }
      sessions := sessions[a := row];
      assert sessions == old(sessions)[a := row];
    }

    /** One poll of a capturing session: it goes on waiting, times out, or has captured. */
    method PollEnrollmentCapture(a: nat, poll: Poll, now: int)
      modifies this`sessions, this`jobs
      ensures View() == PollCapture(old(View()), a, poll, now)
      ensures Keeps(old(View()), Polls(a, poll, now), View())
    {
      PollKeeps(View(), a, poll, now);
      if a >= |sessions| || sessions[a].status != Capturing {
        return;
      }
      var row := sessions[a];
      if row.activatedAt.None? || row.deadline.None? {
        return;
      }
      var window := CaptureWindow(row, poll);
      var deadlinePassed := now >= window.deadline;
      var accepted := if poll.answer.None? then [] else Capture.Accepted(Capture.Candidates(poll.events, window), poll.answer.value);
      if accepted == [] {
        if !deadlinePassed {
          return;
        }
        row := row.(result := Some(TimedOut_));
      } else {
        var settled := now - accepted[0].at >= Capture.SettleSeconds;
        if |accepted| < Capture.MaximumCaptures && !settled && !deadlinePassed {
          return;
        }
      }
      QueueRestore(a);
      row := row.(status := Restoring);
      sessions := sessions[a := row];
    }

    /** Whether the items reassign a camera that another session holds. */
    method ConflictsWith(items: seq<Item>, exempt: Option<nat>) returns (blocked: bool)
      ensures blocked == Blocked(View(), items, exempt)
    {
      var a := 0;
      while a < |sessions|
        invariant 0 <= a <= |sessions|
        invariant forall b :: 0 <= b < a && Active(sessions[b]) && exempt != Some(b)
                    && ItemOf(items, sessions[b].camera).Some?
                    ==> ItemOf(items, sessions[b].camera).value.apps == EnrollmentApps
      {
        if Active(sessions[a]) && exempt != Some(a) {
          var item := ItemOf(items, sessions[a].camera);
          if item.Some? && item.value.apps != EnrollmentApps {
            return true;
          }
        }
        a := a + 1;
      }
      return false;
    }

    /** A worker reads the newest assignments, then obtains a preview with its camera's target in them. */
    method ReadAssignments(j: nat)
      modifies this`jobs
      ensures View() == JobRead(old(View()), j)
      ensures Keeps(old(View()), Reads(j), View())
    {
      NextKeeps(View(), Reads(j));
      if j < |jobs| && jobs[j].base.None? && sets != [] {
        var newest := sets[Latest(sets)];
        jobs := jobs[j := jobs[j].(base := Some(Snapshot(newest.revision, newest.settings, ItemsOf(newest.rows))))];
      }
    }

    method PreviewTarget(j: nat, accepted: bool)
      modifies this`jobs
      ensures View() == JobPreview(old(View()), j, accepted)
      ensures Keeps(old(View()), Previews(j, accepted), View())
    {
      PreviewKeeps(View(), j, accepted);
      if j >= |jobs| || jobs[j].base.None? || jobs[j].preview.Some? || jobs[j].stopped {
        return;
      }
      var job := jobs[j];
      var preview := CandidateFor(LedgerView(), cameras, job.base.value.settings, JobItems(job), accepted);
      jobs := jobs[j := if preview.Some? then job.(preview := preview) else job.(stopped := true)];
    }

    /** A worker's commit of what it previewed, exempt from its own session's hold on the camera. */
    method CommitTarget(j: nat, accepted: bool)
      modifies this`next, this`sets, this`desired, this`phase, this`jobs
      ensures View() == JobCommit(old(View()), j, accepted)
      ensures Keeps(old(View()), Commits(j, accepted), View())
    {
      CommitKeeps(View(), j, accepted);
      if || j >= |jobs| || jobs[j].base.None? || jobs[j].preview.None?
         || jobs[j].committed.Some? || jobs[j].stopped {
        return;
      }
      var job := jobs[j];
      if FindKey(sets, KeyOf(job)).None? {
        var blocked := ConflictsWith(JobItems(job), Some(job.session));
        if blocked {
          jobs := jobs[j := job.(stopped := true)];
          return;
        }
      }
      var r := CommitCatalogDeployment(job.base.value.settings, JobItems(job), job.preview.value, KeyOf(job), accepted);
      match r {
        case Ok(id) => jobs := jobs[j := job.(committed := Some(id))];
        case Err(_) => jobs := jobs[j := job.(stopped := true)];
      }
    }

    method RecordTarget(j: nat)
      modifies this`sessions
      ensures View() == JobRecord(old(View()), j)
      ensures Keeps(old(View()), Records(j), View())
    {
      RecordKeeps(View(), j);
      if j >= |jobs| || jobs[j].committed.None? || jobs[j].session >= |sessions| || jobs[j].committed.value >= |sets| {
        return;
      }
      var a, id := jobs[j].session, jobs[j].committed.value;
      var revision := sets[id].revision;
      if jobs[j].purpose == Activation {
        if sessions[a].status == Activating {
          sessions := sessions[a := sessions[a].(activation := Some(id), activationRevision := Some(revision))];
        }
      } else if sessions[a].status == Restoring {
        sessions := sessions[a := sessions[a].(restoration := Some(id), restorationRevision := Some(revision))];
      }
    }

    // -------------------------------------------------------------- everyone else

    method CommitGeneric(request: string, settings: nat, items: seq<Item>, preview: Candidate, accepted: bool)
      modifies this`next, this`sets, this`desired, this`phase
      ensures View() == GenericCommit(old(View()), request, settings, items, preview, accepted)
      ensures Keeps(old(View()), CommitsGeneric(request, settings, items, preview, accepted), View())
    {
      GenericCommitKeeps(View(), request, settings, items, preview, accepted);
      if FindKey(sets, Operator(request)).None? {
        var blocked := ConflictsWith(items, None);
        if blocked {
          return;
        }
      }
      var _ := CommitCatalogDeployment(settings, items, preview, Operator(request), accepted);
    }

    /** The sessions after a geometry edit, and whether one of them has the camera enrolled. */
    method MergeIntoSessions(camera: CameraId, geometry: Config) returns (merged: seq<Session>, holding: bool)
      ensures merged == MergeSessions(sessions, camera, geometry)
      ensures holding <==> exists a :: 0 <= a < |sessions| && Holding(sessions[a], camera)
    {
      merged := sessions;
      holding := false;
      var a := 0;
      while a < |sessions|
        invariant 0 <= a <= |sessions| && |merged| == |sessions|
        invariant forall b :: 0 <= b < a ==> merged[b] == MergeInto(sessions[b], camera, geometry)
        invariant forall b :: a <= b < |sessions| ==> merged[b] == sessions[b]
        invariant holding <==> exists b :: 0 <= b < a && Holding(sessions[b], camera)
      {
        var row := sessions[a];
        if row.camera == camera && Active(row) {
          var config := MergeCameraGeometry(row.prior.config, geometry);
          merged := merged[a := row.(prior := row.prior.(config := config))];
          if row.status != Restoring {
            holding := true;
          }
        }
        a := a + 1;
      }
    }

    method PointSessions(merged: seq<Session>, camera: CameraId, id: nat, revision: int) returns (pointed: seq<Session>)
      ensures pointed == RepointSessions(merged, camera, id, revision)
    {
      pointed := merged;
      var a := 0;
      while a < |merged|
        invariant 0 <= a <= |merged| && |pointed| == |merged|
        invariant forall b :: 0 <= b < a ==> pointed[b] == Repoint(merged[b], camera, id, revision)
        invariant forall b :: a <= b < |merged| ==> pointed[b] == merged[b]
      {
        if merged[a].status == Restoring && merged[a].camera == camera {
          pointed := pointed[a := merged[a].(restoration := Some(id), restorationRevision := Some(revision))];
        }
        a := a + 1;
      }
    }

    /** A geometry edit: the camera's revision, the sessions that hold the camera and,
        unless one of them has it enrolled, a clone with the merged configuration. */
    method QueueCameraGeometry(camera: CameraId, geometry: Config, accepted: bool)
      modifies this`next, this`sets, this`desired, this`phase, this`cameras, this`sessions
      ensures View() == EditGeometry(old(View()), camera, geometry, accepted)
      ensures Keeps(old(View()), Edits(camera, geometry, accepted), View())
    {
      EditKeeps(View(), camera, geometry, accepted);
      ApplyGeometry(camera, geometry, accepted);
    }

    method ApplyGeometry(camera: CameraId, geometry: Config, accepted: bool)
      modifies this`next, this`sets, this`desired, this`phase, this`cameras, this`sessions
      ensures View() == EditGeometry(old(View()), camera, geometry, accepted)
    {
      if camera !in cameras {
        return;
      }
      var bumped := cameras[camera].(geometryRevision := cameras[camera].geometryRevision + 1);
      if desired.None? || desired.value >= |sets| || RowOf(sets[desired.value].rows, camera).None? {
        cameras := cameras[camera := bumped];
        return;
      }
      var source := sets[desired.value];
      var target := RowOf(source.rows, camera).value;
      if !SameConfig(target.apps) {
        return;
      }
      var merged, holding := MergeIntoSessions(camera, geometry);
      if holding {
        cameras := cameras[camera := bumped];
        sessions := merged;
        return;
      }
      if !accepted {
        return;
      }
      var before := (cameras, sessions);
      cameras := cameras[camera := bumped];
      sessions := merged;
      var done := RequeueEdited(camera, geometry, bumped.geometryRevision, source, target);
      if !done {
        cameras, sessions := before.0, before.1;
      }
    }

    method RequeueEdited(camera: CameraId, geometry: Config, revision: nat, source: AssignmentSet, target: CameraRow)
      returns (done: bool)
      modifies this`next, this`sets, this`desired, this`phase, this`sessions
      ensures match RequeueGeometry(old(View()), camera, geometry, revision, source, target)
              case Some(db) => done && View() == db
              case None => !done && View() == old(View())
    {
      var issued := next;
      var config := MergeCameraGeometry(ItemOfRow(target).config, geometry);
      var over := Overrides(map[], map[camera := config], map[camera := revision]);
      var r := CloneAssignmentSet(source, Geometry(camera, revision), source.intent, over);
      done := r.Ok?;
      if done {
        sessions := PointSessions(sessions, camera, r.value, issued);
      }
    }

    method RequeueCredential(camera: CameraId, credential: nat, request: string)
      modifies this`next, this`sets, this`desired, this`phase, this`cameras
      ensures View() == RotateCredential(old(View()), camera, credential, request)
      ensures Keeps(old(View()), Rotates(camera, credential, request), View())
    {
      RotationKeeps(View(), camera, credential, request);
      if camera !in cameras {
        return;
      }
      if desired.Some? && desired.value < |sets| && RowOf(sets[desired.value].rows, camera).Some? {
        var source := sets[desired.value];
        var r := CloneAssignmentSet(
          source, Credential(request), source.intent, Overrides(map[camera := Some(credential)], map[], map[]));
        if r.Err? {
          return;
        }
      }
      cameras := cameras[camera := cameras[camera].(credential := Some(credential))];
    }

    method ChangeLifecycle(wanted: Intent, request: string)
      modifies this`next, this`sets, this`desired, this`phase, this`intent
      ensures View() == SetLifecycle(old(View()), wanted, request)
      ensures Keeps(old(View()), SetsLifecycle(wanted, request), View())
    {
      LifecycleKeeps(View(), wanted, request);
      if desired.None? || desired.value >= |sets| {
        return;
      }
      var r := CloneAssignmentSet(sets[desired.value], Lifecycle(request), wanted, NoOverrides);
      if r.Ok? {
        intent := wanted;
      }
    }
  }
}
