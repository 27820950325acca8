/** The course of a session: how long it captures, and how each way out of it ends. */
module EnrollmentCourse {
  import opened Options
  import opened Ledger
  import opened Enrollment
  import Capture

  // ---------------------------------------------------------------- one session across one step

  predicate Untouched(s: Session, s': Session) {
    s'.status == s.status && s'.result == s.result && s'.activatedAt == s.activatedAt && s'.deadline == s.deadline
  }

  /** How a step may move session a along. */
  ghost predicate Course(db: Db, step: Step, db': Db, a: nat)
    requires a < |db.sessions| && a < |db'.sessions|
  {
    var s, s' := db.sessions[a], db'.sessions[a];
    && s'.window == s.window && s'.startedAt == s.startedAt
    && (|| Untouched(s, s')
        || Opens(db, step, s, s', a)
        || (exists way :: LeavesBy(db, step, a, way) && Left(s, s', way))
        || (s.status == Restoring && step.Ticks? && step.session == a && s'.result.Some?
            && (s.result.Some? ==> s'.result == s.result) && (s.result.None? ==> s'.result == Some(Ok_))
            && s'.status == TerminalStatus(s'.result.value)))
  }

  ghost predicate Opens(db: Db, step: Step, s: Session, s': Session, a: nat) {
    && s.status == Activating && s'.status == Capturing && s'.result == s.result
    && step.Ticks? && step.session == a
    && s'.activatedAt == Some(step.now) && s'.deadline == Some(step.now + s.window)
  }

  /** The ways out of activating and capturing. */
  datatype WayOut = Face | Deadline | Cancellation | NoActivation | Failure

  predicate LeavesBy(db: Db, step: Step, a: nat, way: WayOut) {
    && a < |db.sessions|
    && var s := db.sessions[a];
    match way
    case Face =>
      s.status == Capturing && step.Polls? && step.session == a && PollVerdict(s, step.poll, step.now).Captured?
    case Deadline =>
      s.status == Capturing && step.Polls? && step.session == a && PollVerdict(s, step.poll, step.now).Expired?
    case Cancellation => step == Cancels(a) && (s.status == Activating || s.status == Capturing)
    case NoActivation =>
      && s.status == Activating && step.Ticks? && step.session == a
      && !RevisionApplied(db.ledger, s.activationRevision) && step.now - s.startedAt > 180
    case Failure =>
      && s.status == Activating && s.activation.None? && step.Aborts?
      && step.job < |db.jobs| && db.jobs[step.job].purpose == Activation && db.jobs[step.job].session == a
  }

  predicate Left(s: Session, s': Session, way: WayOut) {
    match way
    case Face => s'.status == Restoring && s'.result == s.result
    case Deadline => s'.status == Restoring && s'.result == Some(TimedOut_)
    case Cancellation => s'.status == Restoring && s'.result == Some(Cancelled_)
    case NoActivation => s'.status == Restoring && s'.result == Some(ActivationFailed)
    case Failure => s'.status == Aborted && s'.result == Some(ActivationFailed)
  }

  lemma SessionStepCourse(db: Db, step: Step, a: nat)
    requires a < |db.sessions| && (step.Designates? || step.Starts? || step.Ticks? || step.Cancels?)
    ensures a < |Next(db, step).sessions| && Course(db, step, Next(db, step), a)
  {
    if step == Cancels(a) && (db.sessions[a].status == Activating || db.sessions[a].status == Capturing) {
      assert LeavesBy(db, step, a, Cancellation);
    } else if step.Ticks? && step.session == a && db.sessions[a].status == Activating
              && !RevisionApplied(db.ledger, db.sessions[a].activationRevision) && step.now - db.sessions[a].startedAt > 180 {
      assert LeavesBy(db, step, a, NoActivation);
    }
  }

  lemma PollCourse(db: Db, step: Step, a: nat)
    requires a < |db.sessions| && step.Polls?
    ensures a < |Next(db, step).sessions| && Course(db, step, Next(db, step), a)
  {
    if step.session == a && db.sessions[a].status == Capturing {
      var verdict := PollVerdict(db.sessions[a], step.poll, step.now);
      if verdict.Captured? {
        assert LeavesBy(db, step, a, Face);
      } else if verdict.Expired? {
        assert LeavesBy(db, step, a, Deadline);
      }
    }
  }

  lemma AbortCourse(db: Db, step: Step, a: nat)
    requires a < |db.sessions| && step.Aborts?
    ensures a < |Next(db, step).sessions| && Course(db, step, Next(db, step), a)
  {
    if AbortStart(db, step.job) != db && db.jobs[step.job].session == a {
      assert LeavesBy(db, step, a, Failure);
    }
  }

  lemma JobStepCourse(db: Db, step: Step, a: nat)
    requires a < |db.sessions| && (step.Reads? || step.Previews? || step.Commits? || step.Records?)
    ensures a < |Next(db, step).sessions| && Course(db, step, Next(db, step), a)
  {
  }

  lemma EditCourse(db: Db, step: Step, a: nat)
    requires a < |db.sessions| && step.Edits?
    ensures a < |Next(db, step).sessions| && Course(db, step, Next(db, step), a)
  {
    assert Untouched(db.sessions[a], Next(db, step).sessions[a]);
  }

  lemma OtherStepCourse(db: Db, step: Step, a: nat)
    requires a < |db.sessions|
    requires step.CommitsGeneric? || step.Rotates? || step.SetsLifecycle? || step.SetsCamera?
             || step.Claims? || step.Succeeds? || step.Fails?
    ensures a < |Next(db, step).sessions| && Course(db, step, Next(db, step), a)
  {
  }

  lemma StepCourse(db: Db, step: Step, a: nat)
    requires a < |db.sessions|
    ensures a < |Next(db, step).sessions| && Course(db, step, Next(db, step), a)
  {
    if step.Edits? {
      EditCourse(db, step, a);
    } else if step.Polls? {
      PollCourse(db, step, a);
    } else if step.Aborts? {
      AbortCourse(db, step, a);
    } else if step.Reads? || step.Previews? || step.Commits? || step.Records? {
      JobStepCourse(db, step, a);
    } else if step.Designates? || step.Starts? || step.Ticks? || step.Cancels? {
      SessionStepCourse(db, step, a);
    } else {
      OtherStepCourse(db, step, a);
    }
  }

  // ---------------------------------------------------------------- runs

  /** The state before step n. */
  function At(db: Db, steps: seq<Step>, n: nat): Db
    requires n <= |steps|
  {
    Run(db, steps[..n])
  }

  lemma AtNext(db: Db, steps: seq<Step>, n: nat)
    requires n < |steps|
    ensures At(db, steps, n + 1) == Next(At(db, steps, n), steps[n])
  {
    assert steps[..n + 1][..n] == steps[..n];
  }

  lemma AtStart(db: Db, steps: seq<Step>)
    ensures At(db, steps, 0) == db
  {
    assert steps[..0] == [];
  }

  /** Step k starts session a with the window that was asked for. */
  ghost predicate StartsSession(db: Db, steps: seq<Step>, k: nat, a: nat, requested: int) {
    && k < |steps| && steps[k].Starts? && steps[k].window == requested
    && |At(db, steps, k).sessions| == a < |At(db, steps, k + 1).sessions|
  }

  /** The session has the window that was asked for, and no result while it activates or captures. */
  ghost predicate Begun(db: Db, a: nat, requested: int) {
    && a < |db.sessions|
    && var s, length := db.sessions[a], if requested == 0 then 300 else requested;
    && s.window == length && 30 <= length <= 1800
    && (s.status == Activating || s.status == Capturing ==> s.result.None?)
  }

  lemma SessionsGrow(db: Db, step: Step)
    ensures |Next(db, step).sessions| == |db.sessions| || (step.Starts? && |Next(db, step).sessions| == |db.sessions| + 1)
  {
  }

  /** A step that adds a session starts it. */
  lemma NewSession(db: Db, steps: seq<Step>, n: nat, a: nat)
    requires n < |steps| && |At(db, steps, n).sessions| <= a < |At(db, steps, n + 1).sessions|
    ensures steps[n].Starts? && StartsSession(db, steps, n, a, steps[n].window)
    ensures Begun(At(db, steps, n + 1), a, steps[n].window) && At(db, steps, n + 1).sessions[a].status == Activating
  {
    AtNext(db, steps, n);
    SessionsGrow(At(db, steps, n), steps[n]);
  }

  lemma BegunStays(db: Db, steps: seq<Step>, n: nat, a: nat, requested: int)
    requires n < |steps| && Begun(At(db, steps, n), a, requested)
    ensures Begun(At(db, steps, n + 1), a, requested)
  {
    AtNext(db, steps, n);
    StepCourse(At(db, steps, n), steps[n], a);
  }

  /** A session goes back to the start that created it. */
  lemma {:induction false} StartOf(db: Db, steps: seq<Step>, n: nat, a: nat) returns (k: nat, requested: int)
    requires n <= |steps| && |db.sessions| <= a < |At(db, steps, n).sessions|
    ensures k < n && StartsSession(db, steps, k, a, requested) && Begun(At(db, steps, n), a, requested)
  {
    if n == 0 {
      AtStart(db, steps);
    } else if a < |At(db, steps, n - 1).sessions| {
      k, requested := StartOf(db, steps, n - 1, a);
      BegunStays(db, steps, n - 1, a, requested);
    } else {
      NewSession(db, steps, n - 1, a);
      k, requested := n - 1, steps[n - 1].window;
    }
  }

  /** Step i makes session a capture, at this time. */
  ghost predicate OpensCapture(db: Db, steps: seq<Step>, i: nat, a: nat, now: int) {
    && i < |steps| && steps[i] == Ticks(a, now)
    && a < |At(db, steps, i).sessions| && At(db, steps, i).sessions[a].status == Activating
    && a < |At(db, steps, i + 1).sessions| && At(db, steps, i + 1).sessions[a].status == Capturing
  }

  ghost predicate OpenedAt(db: Db, a: nat, now: int) {
    && a < |db.sessions| && db.sessions[a].status == Capturing
    && db.sessions[a].activatedAt == Some(now) && db.sessions[a].deadline == Some(now + db.sessions[a].window)
  }

  lemma CapturingStepBack(db: Db, steps: seq<Step>, n: nat, a: nat)
    requires n < |steps| && a < |At(db, steps, n).sessions|
    requires a < |At(db, steps, n + 1).sessions| && At(db, steps, n + 1).sessions[a].status == Capturing
    ensures forall now :: OpenedAt(At(db, steps, n), a, now) ==> OpenedAt(At(db, steps, n + 1), a, now)
    ensures At(db, steps, n).sessions[a].status == Capturing
            || (steps[n].Ticks? && OpensCapture(db, steps, n, a, steps[n].now) && OpenedAt(At(db, steps, n + 1), a, steps[n].now))
  {
    AtNext(db, steps, n);
    StepCourse(At(db, steps, n), steps[n], a);
  }

  lemma {:induction false} OpeningOf(db: Db, steps: seq<Step>, n: nat, a: nat) returns (i: nat, now: int)
    requires n <= |steps| && |db.sessions| <= a < |At(db, steps, n).sessions|
    requires At(db, steps, n).sessions[a].status == Capturing
    ensures i < n && OpensCapture(db, steps, i, a, now) && OpenedAt(At(db, steps, n), a, now)
  {
    if n == 0 {
      AtStart(db, steps);
    } else if a >= |At(db, steps, n - 1).sessions| {
      NewSession(db, steps, n - 1, a);
    } else {
      CapturingStepBack(db, steps, n - 1, a);
      if At(db, steps, n - 1).sessions[a].status == Capturing {
        i, now := OpeningOf(db, steps, n - 1, a);
      } else {
        i, now := n - 1, steps[n - 1].now;
      }
    }
  }

  // ---------------------------------------------------------------- the capture window

  /** Whatever a poll sees: before the end it does not time out, from the end on it
      decides, and a capture comes from the window and its fifteen seconds of tolerance. */
  ghost predicate CapturesBetween(s: Session, start: int, end: int) {
    forall poll: Poll, at: int ::
      && (PollVerdict(s, poll, at).Expired? ==> at >= end)
      && (at >= end ==> PollVerdict(s, poll, at).Expired? || PollVerdict(s, poll, at).Captured?)
      && (PollVerdict(s, poll, at).Captured? ==> HasEventBetween(poll.events, start - 15, end + 15))
  }

  ghost predicate HasEventBetween(events: seq<Capture.Event>, from: int, to: int) {
    exists i :: 0 <= i < |events| && events[i].at.Some? && from <= events[i].at.value <= to
  }

  lemma {:induction false} CandidatesAreInside(events: seq<Capture.Event>, w: Capture.Window)
    requires Capture.Candidates(events, w) != []
    ensures HasEventBetween(events, w.start - 15, w.deadline + 15)
  {
    if Capture.Eligible(events[0], w) {
      assert events[0].at.Some? && w.start - 15 <= events[0].at.value <= w.deadline + 15;
    } else {
      CandidatesAreInside(events[1..], w);
      var i :| 0 <= i < |events[1..]| && events[1..][i].at.Some? && w.start - 15 <= events[1..][i].at.value <= w.deadline + 15;
      assert events[i + 1] == events[1..][i];
    }
  }

  lemma PollsDecideAtTheDeadline(s: Session, start: int, end: int)
    requires s.activatedAt == Some(start) && s.deadline == Some(end)
    ensures CapturesBetween(s, start, end)
  {
    forall poll: Poll, at: int
      ensures PollVerdict(s, poll, at).Expired? ==> at >= end
      ensures at >= end ==> PollVerdict(s, poll, at).Expired? || PollVerdict(s, poll, at).Captured?
      ensures PollVerdict(s, poll, at).Captured? ==> HasEventBetween(poll.events, start - 15, end + 15)
    {
      var w := CaptureWindow(s, poll);
      if PollVerdict(s, poll, at).Captured? {
        assert Capture.Candidates(poll.events, w) != [];
        CandidatesAreInside(poll.events, w);
      }
    }
  }

  /** Over every run: a session that captures was started with a window of 30 to 1800
      seconds, 300 if none was asked for, and from the tick that made it capture its polls
      leave it exactly that long. */
  lemma CaptureLastsItsWindow(db: Db, steps: seq<Step>, a: nat) returns (k: nat, requested: int, i: nat, now: int)
    requires |db.sessions| <= a < |Run(db, steps).sessions| && Run(db, steps).sessions[a].status == Capturing
    ensures StartsSession(db, steps, k, a, requested) && OpensCapture(db, steps, i, a, now)
    ensures var length := if requested == 0 then 300 else requested;
            30 <= length <= 1800 && CapturesBetween(Run(db, steps).sessions[a], now, now + length)
  {
    assert steps[..|steps|] == steps;
    k, requested := StartOf(db, steps, |steps|, a);
    i, now := OpeningOf(db, steps, |steps|, a);
    PollsDecideAtTheDeadline(Run(db, steps).sessions[a], now, now + if requested == 0 then 300 else requested);
  }

  // ---------------------------------------------------------------- how each way out ends

  /** The status in which a session ends that left in this way. */
  function EndOf(way: WayOut): Status {
    match way
    case Face => Completed
    case Deadline => TimedOut
    case Cancellation => Cancelled
    case NoActivation => Aborted
    case Failure => Aborted
  }

  /** On its way to that end: still restoring with the result that leads there, or there. */
  ghost predicate OnTheWayTo(s: Session, way: WayOut) {
    || (s.status == EndOf(way) && !Active(s))
    || (s.status == Restoring && TerminalStatus(if s.result.Some? then s.result.value else Ok_) == EndOf(way))
  }

  lemma LeavingIsOnTheWay(db: Db, steps: seq<Step>, i: nat, a: nat, way: WayOut)
    requires i < |steps| && LeavesBy(At(db, steps, i), steps[i], a, way)
    requires way.Face? ==> At(db, steps, i).sessions[a].result.None?
    ensures a < |At(db, steps, i + 1).sessions| && OnTheWayTo(At(db, steps, i + 1).sessions[a], way)
  {
    AtNext(db, steps, i);
  }

  lemma StaysOnTheWay(db: Db, steps: seq<Step>, n: nat, a: nat, way: WayOut)
    requires n < |steps| && a < |At(db, steps, n).sessions| && OnTheWayTo(At(db, steps, n).sessions[a], way)
    ensures a < |At(db, steps, n + 1).sessions| && OnTheWayTo(At(db, steps, n + 1).sessions[a], way)
  {
    AtNext(db, steps, n);
    StepCourse(At(db, steps, n), steps[n], a);
  }

  /** Whichever way a session leaves activating or capturing, from then on it restores,
      and if it ends it ends so: completed with a face, timed out at the deadline,
      cancelled by a cancellation, failed without an activation. */
  lemma {:induction false} WayOutDecides(db: Db, steps: seq<Step>, i: nat, n: nat, a: nat, way: WayOut)
    requires |db.sessions| <= a && i < n <= |steps| && LeavesBy(At(db, steps, i), steps[i], a, way)
    ensures a < |At(db, steps, n).sessions| && OnTheWayTo(At(db, steps, n).sessions[a], way)
    ensures var s := At(db, steps, n).sessions[a];
            s.status == Restoring
            || match way
               case Face => s.status == Completed
               case Deadline => s.status == TimedOut
               case Cancellation => s.status == Cancelled
               case NoActivation => s.status == Aborted
               case Failure => s.status == Aborted
    decreases n
  {
    if i == n - 1 {
      var k, requested := StartOf(db, steps, i, a);
      LeavingIsOnTheWay(db, steps, i, a, way);
    } else {
      WayOutDecides(db, steps, i, n - 1, a, way);
      StaysOnTheWay(db, steps, n - 1, a, way);
    }
  }

  lemma LeftOrHadLeft(db: Db, steps: seq<Step>, n: nat, a: nat) returns (way: WayOut)
    requires n < |steps| && a < |At(db, steps, n).sessions| && a < |At(db, steps, n + 1).sessions|
    requires At(db, steps, n).sessions[a].status == Activating || At(db, steps, n).sessions[a].status == Capturing
    requires At(db, steps, n + 1).sessions[a].status != Activating && At(db, steps, n + 1).sessions[a].status != Capturing
    ensures LeavesBy(At(db, steps, n), steps[n], a, way)
  {
    AtNext(db, steps, n);
    StepCourse(At(db, steps, n), steps[n], a);
    way :| LeavesBy(At(db, steps, n), steps[n], a, way);
  }

  /** And a session that no longer activates or captures has left in one of these ways. */
  lemma {:induction false} EverySessionLeft(db: Db, steps: seq<Step>, n: nat, a: nat) returns (i: nat, way: WayOut)
    requires n <= |steps| && |db.sessions| <= a < |At(db, steps, n).sessions|
    requires At(db, steps, n).sessions[a].status != Activating && At(db, steps, n).sessions[a].status != Capturing
    ensures i < n && LeavesBy(At(db, steps, i), steps[i], a, way)
  {
    if n == 0 {
      AtStart(db, steps);
    } else if a >= |At(db, steps, n - 1).sessions| {
      NewSession(db, steps, n - 1, a);
    } else if At(db, steps, n - 1).sessions[a].status == Activating || At(db, steps, n - 1).sessions[a].status == Capturing {
      i := n - 1;
      way := LeftOrHadLeft(db, steps, n - 1, a);
    } else {
      i, way := EverySessionLeft(db, steps, n - 1, a);
    }
  }
}
