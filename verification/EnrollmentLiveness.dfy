/** From which states a restoring session can still end. */
module EnrollmentLiveness {
  import opened Options
  import opened Ledger
  import opened Enrollment
  import opened EnrollmentSafety
  import opened EnrollmentTheorems
  import opened EnrollmentEdits

  /** The set that decides about the session: the recorded one, or until one is
      recorded the one under its restore key. */
  function Awaited(db: Db, a: nat): nat
    requires a < |db.sessions| && Queued(db.ledger, a)
  {
    if db.sessions[a].restoration.Some? then db.sessions[a].restoration.value
    else FindKey(db.ledger.sets, Restore(a)).value
  }

  // ---------------------------------------------------------------- when it cannot

  /** The restore is committed, and newer sets or a failure that needs an operator
      keep it from being applied. */
  ghost predicate Stuck(db: Db, a: nat) {
    && Inv(db) && a < |db.sessions| && db.sessions[a].status == Restoring && Queued(db.ledger, a)
    && (db.ledger.phase == OperatorRequired || Awaited(db, a) != |db.ledger.sets| - 1)
  }

  lemma RestoreStepIsPermitted(db: Db, step: Step, a: nat)
    requires RestoreStep(db, step, a)
    ensures Permitted(db, step)
  {
  }

  /** A step of the session's own leaves sets and phase to synchronization. */
  lemma OwnStepKeepsSets(db: Db, step: Step, a: nat)
    requires Inv(db) && Queued(db.ledger, a) && RestoreStep(db, step, a)
    ensures var db' := Next(db, step);
            && db'.ledger.sets == db.ledger.sets
            && (db.ledger.phase == OperatorRequired ==> db'.ledger.phase == OperatorRequired)
  {
  }

  lemma OwnStepKeepsAwaited(db: Db, step: Step, a: nat)
    requires Stuck(db, a) && RestoreStep(db, step, a)
    ensures var db' := Next(db, step);
            && a < |db'.sessions| && db'.sessions[a].status == Restoring
            && (db'.sessions[a].restoration == db.sessions[a].restoration
                || db'.sessions[a].restoration == FindKey(db.ledger.sets, Restore(a)))
  {
    assert SessionOk(db.ledger, a, db.sessions[a]);
    if step.Records? {
      assert JobOk(db.ledger, db.sessions, db.jobs[step.job]);
    }
  }

  lemma StaysStuck(db: Db, step: Step, a: nat)
    requires Stuck(db, a) && RestoreStep(db, step, a)
    ensures Stuck(Next(db, step), a)
  {
    RestoreStepIsPermitted(db, step, a);
    StepKeepsInv(db, step);
    OwnStepKeepsSets(db, step, a);
    OwnStepKeepsAwaited(db, step, a);
    FindKeyIs(db.ledger.sets, Restore(a));
    assert SessionOk(db.ledger, a, db.sessions[a]);
  }

  lemma {:induction false} StuckForGood(db: Db, steps: seq<Step>, a: nat)
    requires Stuck(db, a) && RestoreRun(db, steps, a)
    ensures Stuck(Run(db, steps), a)
  {
    if steps != [] {
      StuckForGood(db, steps[..|steps| - 1], a);
      StaysStuck(Run(db, steps[..|steps| - 1]), steps[|steps| - 1], a);
    }
  }

  // ---------------------------------------------------------------- when it can

  /** The newest set is recorded on the session: it is applied, or can be. */
  lemma RecordedEnds(db: Db, before: seq<Step>, s: Db, a: nat, now: int) returns (steps: seq<Step>)
    requires RestoreLeads(db, before, s, a) && Inv(s) && s.ledger.sets != [] && s.ledger.phase != OperatorRequired
    requires a < |s.sessions| && s.sessions[a].status == Restoring && s.sessions[a].restoration == Some(|s.ledger.sets| - 1)
    ensures EndsBy(db, steps, a)
  {
    assert SessionOk(s.ledger, a, s.sessions[a]);
    if s.ledger.phase == Applied {
      RestoreLeadsOn(db, before, s, Ticks(a, now), a);
      steps := before + [Ticks(a, now)];
      assert RevisionApplied(s.ledger, s.sessions[a].restorationRevision);
    } else {
      steps := AppliedLeads(db, before, s, a, now);
      AppliedEnds(s, a, now);
    }
  }

  /** A worker's pass that finds its key taken answers with the set under it. */
  lemma ReplayCommits(db: Db, a: nat, now: int)
    requires Inv(db) && a < |db.sessions| && db.sessions[a].status == Restoring && db.sessions[a].restoration.None?
    requires Queued(db.ledger, a) && AcceptableItems(Substitute(CurrentItems(db.ledger), db.sessions[a].prior), db.cameras)
    ensures var j, end := |db.jobs|, FirstHalf(db, a, now);
            && end.ledger == db.ledger && end.sessions == db.sessions && IsRestoreOf(end, j, a)
            && end.jobs[j].committed == FindKey(db.ledger.sets, Restore(a))
  {
    var j := |db.jobs|;
    assert SessionOk(db.ledger, a, db.sessions[a]);
    FindKeyIs(db.ledger.sets, Restore(a));
    QuietCommitIs(db, a, j, now);
    var ticked := Tick(db, a, now);
    assert ticked == db.(jobs := db.jobs + [NewJob(a, db.sessions[a])]);
    assert NewJob(a, db.sessions[a]).target == db.sessions[a].prior;
    var read := JobRead(ticked, j);
    assert JobItems(read.jobs[j]) == Substitute(CurrentItems(db.ledger), db.sessions[a].prior);
    var previewed := JobPreview(read, j, true);
    assert previewed.jobs[j].preview.Some?;
  }

  lemma WholePassLeads(db: Db, a: nat, now: int)
    requires a < |db.sessions| && db.sessions[a].status == Restoring && db.sessions[a].restoration.None?
    ensures RestoreLeads(db, WholePass(a, |db.jobs|, now), FirstHalf(db, a, now), a)
  {
    var j := |db.jobs|;
    var ticked := Next(db, Ticks(a, now));
    var read := Next(ticked, Reads(j));
    assert ticked.jobs == db.jobs + [NewJob(a, db.sessions[a])];
    assert RestoreLeads(db, [], db, a);
    RestoreLeadsOn(db, [], db, Ticks(a, now), a);
    RestoreLeadsOn(db, [] + [Ticks(a, now)], ticked, Reads(j), a);
    RestoreLeadsOn(db, [] + [Ticks(a, now)] + [Reads(j)], read, Previews(j, true), a);
    RestoreLeadsOn(db, [] + [Ticks(a, now)] + [Reads(j)] + [Previews(j, true)], Next(read, Previews(j, true)), Commits(j, true), a);
  }

  /** A pass whose committed set is newest is recorded, and then ends the session. */
  lemma CommittedEnds(db: Db, before: seq<Step>, s: Db, a: nat, j: nat, now: int) returns (steps: seq<Step>)
    requires RestoreLeads(db, before, s, a) && Inv(s) && s.ledger.sets != [] && s.ledger.phase != OperatorRequired
    requires a < |s.sessions| && s.sessions[a].status == Restoring
    requires IsRestoreOf(s, j, a) && s.jobs[j].committed == Some(|s.ledger.sets| - 1)
    ensures EndsBy(db, steps, a)
  {
    RestoreLeadsOn(db, before, s, Records(j), a);
    JobRecordKeepsInv(s, j);
    RecordedIs(s, a, j);
    steps := RecordedEnds(db, before + [Records(j)], Next(s, Records(j)), a, now);
  }

  lemma RecordedIs(s: Db, a: nat, j: nat)
    requires s.ledger.sets != [] && a < |s.sessions| && s.sessions[a].status == Restoring
    requires IsRestoreOf(s, j, a) && s.jobs[j].committed == Some(|s.ledger.sets| - 1)
    ensures var end := Next(s, Records(j));
            && end.ledger == s.ledger && a < |end.sessions| && end.sessions[a].status == Restoring
            && end.sessions[a].restoration == Some(|s.ledger.sets| - 1)
            && end == JobRecord(s, j)
  {
  }

  function WholePass(a: nat, j: nat, now: int): seq<Step> {
    [] + [Ticks(a, now)] + [Reads(j)] + [Previews(j, true)] + [Commits(j, true)]
  }

  /** A restore that was committed but not recorded, because its worker crashed, is
      found under its key by the next one. */
  lemma UnrecordedEnds(db: Db, a: nat, now: int) returns (steps: seq<Step>)
    requires Inv(db) && a < |db.sessions| && db.sessions[a].status == Restoring && db.sessions[a].restoration.None?
    requires Queued(db.ledger, a) && FindKey(db.ledger.sets, Restore(a)).value == |db.ledger.sets| - 1
    requires db.ledger.phase != OperatorRequired
    requires AcceptableItems(Substitute(CurrentItems(db.ledger), db.sessions[a].prior), db.cameras)
    ensures EndsBy(db, steps, a)
  {
    WholePassLeads(db, a, now);
    ReplayCommits(db, a, now);
    FindKeyIs(db.ledger.sets, Restore(a));
    RestoreRunKeepsInv(db, WholePass(a, |db.jobs|, now), a);
    steps := CommittedEnds(db, WholePass(a, |db.jobs|, now), FirstHalf(db, a, now), a, |db.jobs|, now);
  }

  lemma {:induction false} RestoreRunKeepsInv(db: Db, steps: seq<Step>, a: nat)
    requires Inv(db) && RestoreRun(db, steps, a)
    ensures Inv(Run(db, steps))
  {
    if steps != [] {
      RestoreRunKeepsInv(db, steps[..|steps| - 1], a);
      RestoreStepIsPermitted(Run(db, steps[..|steps| - 1]), steps[|steps| - 1], a);
      StepKeepsInv(Run(db, steps[..|steps| - 1]), steps[|steps| - 1]);
    }
  }

  lemma UncommittedEnds(db: Db, a: nat, now: int) returns (steps: seq<Step>)
    requires Inv(db) && a < |db.sessions| && db.sessions[a].status == Restoring && !Queued(db.ledger, a)
    requires AcceptableItems(Substitute(CurrentItems(db.ledger), db.sessions[a].prior), db.cameras)
    ensures EndsBy(db, steps, a)
  {
    assert SessionOk(db.ledger, a, db.sessions[a]);
    WholePassLeads(db, a, now);
    FirstHalfCommits(db, a, now);
    steps := CommittedEnds(db, WholePass(a, |db.jobs|, now), FirstHalf(db, a, now), a, |db.jobs|, now);
  }

  /** Whatever led to a restoring session, crashes and late answers included: by its own
      steps it can end exactly if its restore is not committed, or the set it waits for
      is still the newest one and synchronization does not need an operator. */
  lemma RestoringDecides(db: Db, a: nat)
    requires Inv(db) && a < |db.sessions| && db.sessions[a].status == Restoring && db.ledger.sets != []
    requires db.sessions[a].restoration.None? ==>
               AcceptableItems(Substitute(CurrentItems(db.ledger), db.sessions[a].prior), db.cameras)
    ensures (exists steps :: EndsBy(db, steps, a)) <==>
              || !Queued(db.ledger, a)
              || (db.ledger.phase != OperatorRequired && Awaited(db, a) == |db.ledger.sets| - 1)
  {
    assert SessionOk(db.ledger, a, db.sessions[a]);
    if Stuck(db, a) {
      forall steps ensures !EndsBy(db, steps, a) {
        if RestoreRun(db, steps, a) {
          StuckForGood(db, steps, a);
        }
      }
    } else {
      var steps: seq<Step>;
      if !Queued(db.ledger, a) {
        steps := UncommittedEnds(db, a, 0);
      } else if db.sessions[a].restoration.None? {
        steps := UnrecordedEnds(db, a, 0);
      } else {
        assert RestoreLeads(db, [], db, a);
        steps := RecordedEnds(db, [], db, a, 0);
      }
      assert EndsBy(db, steps, a);
    }
  }

  /** A record that comes late puts the pointer back from the clone of an edit, which
      was newest, to the restore, which no longer is: the session then stays. */
  lemma LateRecordSticks(db: Db, a: nat, j: nat)
    requires Inv(db) && a < |db.sessions| && db.sessions[a].status == Restoring && Queued(db.ledger, a)
    requires Awaited(db, a) == |db.ledger.sets| - 1 && FindKey(db.ledger.sets, Restore(a)).value < |db.ledger.sets| - 1
    requires IsRestoreOf(db, j, a) && db.jobs[j].committed.Some?
    ensures Stuck(JobRecord(db, j), a)
  {
    assert JobOk(db.ledger, db.sessions, db.jobs[j]);
    FindKeyIs(db.ledger.sets, Restore(a));
    JobRecordKeepsInv(db, j);
  }
}
