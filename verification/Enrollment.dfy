/** The enrollment session machine over the revision ledger
    (tvt_edge/service.py, tvt_edge/enrollment.py).

    A camera is borrowed for face enrollment and given back. Every function
    named after an operation is one database transaction; a transaction that
    raises leaves the state as it was. */
module Enrollment {
  import opened Options
  import opened CameraConfig
  import opened Ledger
  import Capture

  type Verdict = Capture.Verdict

  const EnrollmentApps: seq<string> := ["face_enrollment"]
  const DefaultWindow := 300
  const MinimumWindow := 30
  const MaximumWindow := 1800
  const ActivationTimeout := 180

  datatype Status = Activating | Capturing | Restoring | Completed | TimedOut | Cancelled | Aborted

  datatype ResultCode = Ok_ | TimedOut_ | Cancelled_ | ActivationFailed

  function TerminalStatus(code: ResultCode): Status {
    match code
    case Ok_ => Completed
    case TimedOut_ => TimedOut
    case Cancelled_ => Cancelled
    case ActivationFailed => Aborted
  }

  datatype Session = Session(
    camera: CameraId,
    prior: Item,
    window: int,
    status: Status,
    result: Option<ResultCode>,
    startedAt: int,
    activatedAt: Option<int>, deadline: Option<int>,
    activation: Option<nat>, activationRevision: Option<int>,
    restoration: Option<nat>, restorationRevision: Option<int>,
    restoredAt: Option<int>)

  /** One worker's pass through putting a camera onto a target, for a start or for a
      restore: the target, then the assignments it read, the preview it obtained and
      the set its commit returned. A refused preview or commit ends the pass,
      and so does giving up; a crashed worker is a job that never advances. */
  datatype Purpose = Activation | Restoration
  datatype Snapshot = Snapshot(revision: int, settings: nat, items: seq<Item>)
  datatype Job = Job(
    purpose: Purpose, session: nat, target: Item,
    base: Option<Snapshot>, preview: Option<Candidate>, committed: Option<nat>, stopped: bool)

  datatype Db = Db(
    ledger: Deployment,
    cameras: map<CameraId, Camera>,
    designated: Option<CameraId>,
    sessions: seq<Session>,
    jobs: seq<Job>)

  predicate Active(s: Session) {
    s.status == Activating || s.status == Capturing || s.status == Restoring
  }

  predicate AnyActive(db: Db) {
    exists a :: 0 <= a < |db.sessions| && Active(db.sessions[a])
  }

  function CurrentItems(d: Deployment): seq<Item>
    requires d.sets != []
  {
    ItemsOf(d.sets[Latest(d.sets)].rows)
  }

  // ---------------------------------------------------------------- starting

  function Designate(db: Db, camera: CameraId): Db {
    if AnyActive(db) || camera !in db.cameras || db.ledger.sets == [] then db
    else match ItemOf(CurrentItems(db.ledger), camera)
      case Some(item) => if "face_recognition" in item.apps then db.(designated := Some(camera)) else db
      case None => db
  }

  function WindowOf(requested: int): int {
    if requested == 0 then DefaultWindow else requested
  }

  /** The first transaction of a start: remember what the camera does now. The caller
      goes on to activate. */
  function StartRow(db: Db, requested: int, now: int): Db {
    var window := WindowOf(requested);
    if !(MinimumWindow <= window <= MaximumWindow) || AnyActive(db) || db.designated.None? || db.ledger.sets == [] then db
    else match ItemOf(CurrentItems(db.ledger), db.designated.value)
      case None => db
      case Some(item) =>
        if item.apps == EnrollmentApps then db
        else
          var s := Session(
            db.designated.value, item, window, Activating, None, now, None, None, None, None, None, None, None);
          db.(sessions := db.sessions + [s], jobs := db.jobs + [ActivationJob(|db.sessions|, s)])
  }

  function ActivationTarget(s: Session): Item {
    Item(s.camera, EnrollmentApps, s.prior.fps, map[])
  }

  function ActivationJob(session: nat, s: Session): Job {
    Job(Activation, session, ActivationTarget(s), None, None, None, false)
  }

  /** The last transaction of a start whose activation raised, at whichever point: on
      a failed read, a refused preview or commit, or a commit whose answer was lost.
      The worker gives up. */
  function AbortStart(db: Db, j: nat): Db {
    if || j >= |db.jobs| || !db.jobs[j].purpose.Activation? || db.jobs[j].session >= |db.sessions|
       || db.sessions[db.jobs[j].session].status != Activating
       || db.sessions[db.jobs[j].session].activation.Some? then db
    else
      var a := db.jobs[j].session;
      db.(sessions := db.sessions[a := db.sessions[a].(status := Aborted, result := Some(ActivationFailed))],
          jobs := db.jobs[j := db.jobs[j].(stopped := true)])
  }

  // ---------------------------------------------------------------- leaving, ticking

  function Leave(s: Session, result: Option<ResultCode>): Session {
    s.(status := Restoring, result := result)
  }

  function NewJob(session: nat, s: Session): Job {
    Job(Restoration, session, Item(s.camera, s.prior.apps, s.prior.fps, s.prior.config), None, None, None, false)
  }

  function Cancel(db: Db, session: nat): Db {
    if session >= |db.sessions| then db
    else
      var s := db.sessions[session];
      if s.status == Activating || s.status == Capturing then
        db.(sessions := db.sessions[session := Leave(s, Some(Cancelled_))])
      else db
  }

  /** The first transaction of a reconcile pass over one session. */
  function Tick(db: Db, session: nat, now: int): Db {
    if session >= |db.sessions| then db
    else
      var s := db.sessions[session];
      match s.status
      case Activating =>
        if RevisionApplied(db.ledger, s.activationRevision) then
          db.(sessions := db.sessions[session := s.(
                status := Capturing, activatedAt := Some(now), deadline := Some(now + s.window))])
        else if now - s.startedAt > ActivationTimeout then
          db.(sessions := db.sessions[session := Leave(s, Some(ActivationFailed))],
              jobs := db.jobs + [NewJob(session, s)])
        else db
      case Restoring =>
        if s.restoration.Some? then
          if RevisionApplied(db.ledger, s.restorationRevision) then
            var code := if s.result.Some? then s.result.value else Ok_;
            db.(sessions := db.sessions[session := s.(
                  result := Some(code), status := TerminalStatus(code), restoredAt := Some(now))])
          else db
        else db.(jobs := db.jobs + [NewJob(session, s)])
      case _ => db
  }

  /** What one poll of a capture sees: the reported events and the identity plane's answer. */
  datatype Poll = Poll(
    deployment: string, events: seq<Capture.Event>, minimumSharpness: Option<real>, answer: Option<seq<Capture.Staged>>)

  function CaptureWindow(s: Session, poll: Poll): Capture.Window
    requires s.activatedAt.Some? && s.deadline.Some?
  {
    Capture.Window(poll.deployment, s.camera, s.activatedAt.value, s.deadline.value, poll.minimumSharpness)
  }

  function PollVerdict(s: Session, poll: Poll, now: int): Verdict {
    if s.activatedAt.None? || s.deadline.None? then Capture.Waiting
    else Capture.Decide(poll.events, CaptureWindow(s, poll), poll.answer, now)
  }

  function PollCapture(db: Db, session: nat, poll: Poll, now: int): Db {
    if session >= |db.sessions| then db else ClosePoll(db, session, PollVerdict(db.sessions[session], poll, now))
  }

  /** The transaction that closes a capture window, on the verdict of one poll. */
  function ClosePoll(db: Db, session: nat, verdict: Verdict): Db {
    if session >= |db.sessions| || !(verdict.Expired? || verdict.Captured?) then db
    else
      var s := db.sessions[session];
      if s.status != Capturing then db
      else db.(
        sessions := db.sessions[session := Leave(s, if verdict.Expired? then Some(TimedOut_) else s.result)],
        jobs := db.jobs + [NewJob(session, s)])
  }

  // ---------------------------------------------------------------- putting a camera onto a target

  function JobRead(db: Db, j: nat): Db {
    if j >= |db.jobs| || db.jobs[j].base.Some? || db.ledger.sets == [] then db
    else
      var newest := db.ledger.sets[Latest(db.ledger.sets)];
      db.(jobs := db.jobs[j := db.jobs[j].(
            base := Some(Snapshot(newest.revision, newest.settings, ItemsOf(newest.rows))))])
  }

  function JobItems(job: Job): seq<Item>
    requires job.base.Some?
  {
    Substitute(job.base.value.items, job.target)
  }

  function JobPreview(db: Db, j: nat, accepted: bool): Db {
    if j >= |db.jobs| || db.jobs[j].base.None? || db.jobs[j].preview.Some? || db.jobs[j].stopped then db
    else
      var job := db.jobs[j];
      match CandidateFor(db.ledger, db.cameras, job.base.value.settings, JobItems(job), accepted)
      case Some(preview) => db.(jobs := db.jobs[j := job.(preview := Some(preview))])
      case None => db.(jobs := db.jobs[j := job.(stopped := true)])
  }

  function KeyOf(job: Job): Key {
    if job.purpose == Activation then Activate(job.session) else Restore(job.session)
  }

  /** A commit is refused when it reassigns a camera that another session holds. */
  predicate Blocked(db: Db, items: seq<Item>, exempt: Option<nat>) {
    exists a :: 0 <= a < |db.sessions| && Active(db.sessions[a]) && exempt != Some(a)
      && ItemOf(items, db.sessions[a].camera).Some?
      && ItemOf(items, db.sessions[a].camera).value.apps != EnrollmentApps
  }

  function JobCommit(db: Db, j: nat, accepted: bool): Db {
    if || j >= |db.jobs| || db.jobs[j].base.None? || db.jobs[j].preview.None?
       || db.jobs[j].committed.Some? || db.jobs[j].stopped then db
    else
      var job := db.jobs[j];
      if FindKey(db.ledger.sets, KeyOf(job)).None? && Blocked(db, JobItems(job), Some(job.session)) then
        db.(jobs := db.jobs[j := job.(stopped := true)])
      else match Commit(db.ledger, db.cameras, job.base.value.settings, JobItems(job),
                        job.preview.value, KeyOf(job), accepted)
        case Ok((d, i)) => db.(ledger := d, jobs := db.jobs[j := job.(committed := Some(i))])
        case Err(_) => db.(jobs := db.jobs[j := job.(stopped := true)])
  }

  /** The committed set is recorded on a session that still waits for it. */
  function JobRecord(db: Db, j: nat): Db {
    if || j >= |db.jobs| || db.jobs[j].committed.None? || db.jobs[j].session >= |db.sessions|
       || db.jobs[j].committed.value >= |db.ledger.sets| then db
    else
      var a, i := db.jobs[j].session, db.jobs[j].committed.value;
      var s, revision := db.sessions[a], db.ledger.sets[i].revision;
      if db.jobs[j].purpose == Activation && s.status == Activating then
        db.(sessions := db.sessions[a := s.(activation := Some(i), activationRevision := Some(revision))])
      else if db.jobs[j].purpose == Restoration && s.status == Restoring then
        db.(sessions := db.sessions[a := s.(restoration := Some(i), restorationRevision := Some(revision))])
      else db
  }

  // ---------------------------------------------------------------- everyone else

  function GenericCommit(
    db: Db, request: string, settings: nat, items: seq<Item>, preview: Candidate, accepted: bool): Db
  {
    if FindKey(db.ledger.sets, Operator(request)).None? && Blocked(db, items, None) then db
    else match Commit(db.ledger, db.cameras, settings, items, preview, Operator(request), accepted)
      case Ok((d, _)) => db.(ledger := d)
      case Err(_) => db
  }

  function MergeInto(s: Session, camera: CameraId, geometry: Config): Session {
    if Active(s) && s.camera == camera then s.(prior := s.prior.(config := Merge(s.prior.config, geometry))) else s
  }

  function MergeSessions(sessions: seq<Session>, camera: CameraId, geometry: Config): (merged: seq<Session>)
    ensures |merged| == |sessions|
    ensures forall a :: 0 <= a < |sessions| ==> merged[a] == MergeInto(sessions[a], camera, geometry)
  {
    if sessions == [] then []
    else [MergeInto(sessions[0], camera, geometry)] + MergeSessions(sessions[1..], camera, geometry)
  }

  function Repoint(s: Session, camera: CameraId, set_: nat, revision: int): Session {
    if s.status == Restoring && s.camera == camera then
      s.(restoration := Some(set_), restorationRevision := Some(revision))
    else s
  }

  function RepointSessions(sessions: seq<Session>, camera: CameraId, set_: nat, revision: int): (r: seq<Session>)
    ensures |r| == |sessions|
    ensures forall a :: 0 <= a < |sessions| ==> r[a] == Repoint(sessions[a], camera, set_, revision)
  {
    if sessions == [] then []
    else [Repoint(sessions[0], camera, set_, revision)] + RepointSessions(sessions[1..], camera, set_, revision)
  }

  predicate Holding(s: Session, camera: CameraId) {
    s.camera == camera && (s.status == Activating || s.status == Capturing)
  }

  /** Several configurations on one camera stop an edit. */
  predicate SameConfig(apps: seq<AppRow>) {
    forall i, j :: 0 <= i < |apps| && 0 <= j < |apps| ==> apps[i].config == apps[j].config
  }

  /** The clone that carries new geometry, and the restoring sessions pointed at it. */
  function RequeueGeometry(
    db: Db, camera: CameraId, geometry: Config, revision: nat, source: AssignmentSet, row: CameraRow): Option<Db>
  {
    var config := Merge(ItemOfRow(row).config, geometry);
    match Clone(db.ledger, source, Geometry(camera, revision), source.intent,
                Overrides(map[], map[camera := config], map[camera := revision]))
    case Err(_) => None
    case Ok(clone) => Some(db.(
      ledger := clone,
      sessions := RepointSessions(db.sessions, camera, |db.ledger.sets|, db.ledger.next)))
  }

  /** A geometry edit on one camera, with its newly compiled geometry. None: it raised. */
  function EditResult(db: Db, camera: CameraId, geometry: Config, accepted: bool): Option<Db> {
    if camera !in db.cameras then None
    else
      var revision := db.cameras[camera].geometryRevision + 1;
      var bumped := db.(cameras := db.cameras[camera := db.cameras[camera].(geometryRevision := revision)]);
      var d := db.ledger;
      if d.desired.None? || d.desired.value >= |d.sets| then Some(bumped)
      else
        var source := d.sets[d.desired.value];
        match RowOf(source.rows, camera)
        case None => Some(bumped)
        case Some(row) =>
          if !SameConfig(row.apps) then None
          else
            var merged := bumped.(sessions := MergeSessions(db.sessions, camera, geometry));
            if exists a :: 0 <= a < |db.sessions| && Holding(db.sessions[a], camera) then Some(merged)
            else if !accepted then None
            else RequeueGeometry(merged, camera, geometry, revision, source, row)
  }

  function EditGeometry(db: Db, camera: CameraId, geometry: Config, accepted: bool): Db {
    match EditResult(db, camera, geometry, accepted)
    case Some(edited) => edited
    case None => db
  }

  /** A new credential version, requeued for the deployment that uses the camera. */
  function RotateCredential(db: Db, camera: CameraId, credential: nat, request: string): Db {
    if camera !in db.cameras then db
    else
      var stored := db.(cameras := db.cameras[camera := db.cameras[camera].(credential := Some(credential))]);
      var d := db.ledger;
      if d.desired.None? || d.desired.value >= |d.sets| || RowOf(d.sets[d.desired.value].rows, camera).None? then stored
      else
        var source := d.sets[d.desired.value];
        match Clone(d, source, Credential(request), source.intent, Overrides(map[camera := Some(credential)], map[], map[]))
        case Ok(clone) => stored.(ledger := clone)
        case Err(_) => db
  }

  function SetLifecycle(db: Db, intent: Intent, request: string): Db {
    var d := db.ledger;
    if d.desired.None? || d.desired.value >= |d.sets| then db
    else match Clone(d, d.sets[d.desired.value], Lifecycle(request), intent, NoOverrides)
      case Ok(clone) => db.(ledger := clone.(intent := intent))
      case Err(_) => db
  }

  /** Registering, enabling or disabling a camera. */
  function SetCamera(db: Db, camera: CameraId, enabled: bool): Db {
    var known := if camera in db.cameras then db.cameras[camera] else Camera(false, None, 0);
    db.(cameras := db.cameras[camera := known.(enabled := enabled)])
  }

  // ---------------------------------------------------------------- steps and runs

  datatype Step =
    | Designates(camera: CameraId)
    | Starts(window: int, now: int)
    | Aborts(job: nat)
    | Cancels(session: nat)
    | Ticks(session: nat, now: int)
    | Polls(session: nat, poll: Poll, now: int)
    | Reads(job: nat)
    | Previews(job: nat, accepted: bool)
    | Commits(job: nat, accepted: bool)
    | Records(job: nat)
    | CommitsGeneric(request: string, settings: nat, items: seq<Item>, preview: Candidate, accepted: bool)
    | Edits(camera: CameraId, geometry: Config, accepted: bool)
    | Rotates(camera: CameraId, credential: nat, request: string)
    | SetsLifecycle(intent: Intent, request: string)
    | SetsCamera(camera: CameraId, enabled: bool)
    | Claims
    | Succeeds(token: nat)
    | Fails(token: nat, operatorRequired: bool)

  function Next(db: Db, step: Step): Db {
    match step
    case Designates(camera) => Designate(db, camera)
    case Starts(window, now) => StartRow(db, window, now)
    case Aborts(job) => AbortStart(db, job)
    case Cancels(session) => Cancel(db, session)
    case Ticks(session, now) => Tick(db, session, now)
    case Polls(session, poll, now) => PollCapture(db, session, poll, now)
    case Reads(job) => JobRead(db, job)
    case Previews(job, accepted) => JobPreview(db, job, accepted)
    case Commits(job, accepted) => JobCommit(db, job, accepted)
    case Records(job) => JobRecord(db, job)
    case CommitsGeneric(request, settings, items, preview, accepted) =>
      GenericCommit(db, request, settings, items, preview, accepted)
    case Edits(camera, geometry, accepted) => EditGeometry(db, camera, geometry, accepted)
    case Rotates(camera, credential, request) => RotateCredential(db, camera, credential, request)
    case SetsLifecycle(intent, request) => SetLifecycle(db, intent, request)
    case SetsCamera(camera, enabled) => SetCamera(db, camera, enabled)
    case Claims => db.(ledger := Claim(db.ledger))
    case Succeeds(token) => db.(ledger := RecordSuccess(db.ledger, token))
    case Fails(token, operatorRequired) => db.(ledger := RecordFailure(db.ledger, token, operatorRequired))
  }

  function Run(db: Db, steps: seq<Step>): Db {
    if steps == [] then db else Next(Run(db, steps[..|steps| - 1]), steps[|steps| - 1])
  }

  predicate Queued(d: Deployment, session: nat) {
    FindKey(d.sets, Restore(session)).Some?
  }

  /** The job would add its session's activation to the ledger. */
  predicate Activates(db: Db, j: nat) {
    && j < |db.jobs| && db.jobs[j].purpose == Activation
    && FindKey(db.ledger.sets, Activate(db.jobs[j].session)).None?
  }

  /** The assumptions under which the camera is given back:
      - an activation is not committed once its session's restore has been;
      - no geometry edit reaches a camera whose session is restoring before the
        restore has been committed;
      - a generic commit keeps listing a camera that a session holds, and does not
        put it back into enrollment once the restore has been committed. */
  ghost predicate Permitted(db: Db, step: Step) {
    && (step.Commits? && Activates(db, step.job) ==> !Queued(db.ledger, db.jobs[step.job].session))
    && (step.Edits? ==>
          forall a :: 0 <= a < |db.sessions| && db.sessions[a].camera == step.camera
            ==> !(db.sessions[a].status == Restoring && !Queued(db.ledger, a)))
    && (step.CommitsGeneric? ==>
          forall a :: 0 <= a < |db.sessions| && Active(db.sessions[a]) ==>
            var item := ItemOf(step.items, db.sessions[a].camera);
            item.Some? && (Queued(db.ledger, a) ==> item.value.apps != EnrollmentApps))
  }

  ghost predicate PermittedRun(db: Db, steps: seq<Step>) {
    steps == [] ||
    (PermittedRun(db, steps[..|steps| - 1]) && Permitted(Run(db, steps[..|steps| - 1]), steps[|steps| - 1]))
  }

  ghost predicate Initial(db: Db) {
    db.ledger == NewDeployment && db.sessions == [] && db.jobs == []
  }
}
