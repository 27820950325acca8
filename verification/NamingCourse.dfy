/** What a session's row and a naming request go back to, over every run of module Naming
    (tvt_edge/service.py). */
module NamingCourse {
  import opened Options
  import opened Identity
  import opened Naming

  // ---------------------------------------------------------------- rows

  /** The row is what this acceptance made of it, apart from the verdict on its naming. */
  ghost predicate Taken(row: Row, step: Step) {
    && step.Accepts? && step.ids != [] && !row.open
    && row.accepted == Some(step.ids[0]) && row.capturedAt == step.now
    && match step.matched
       case Some(person) => row.naming == NotApplicable && row.captures == [] && row.person == Some(person)
       case None =>
         row.captures == step.ids && row.naming != NotApplicable && (row.naming != Named ==> row.person == None)
  }

  /** A row without a captured face names nobody, and one that captured a face did so in one
      acceptance of its session. */
  ghost predicate Follows(steps: seq<Step>, a: nat, row: Row) {
    && (row.accepted.None? ==> row.naming == NotApplicable && row.captures == [] && row.person == None)
    && (row.accepted.Some? ==> exists i :: 0 <= i < |steps| && steps[i].Accepts? && steps[i].session == a && Taken(row, steps[i]))
  }

  /** A face is taken exactly while the session is open and no session took it before. */
  lemma AcceptDecides(s: System, a: nat, ids: seq<CaptureId>, matched: Option<PersonId>, now: real, threshold: real, sim: Similarity)
    requires a < |s.rows|
    ensures var step := Accepts(a, ids, matched, now);
            var s' := Next(s, step, threshold, sim);
            if s.rows[a].open && ids != [] && (forall b :: 0 <= b < |s.rows| ==> s.rows[b].accepted != Some(ids[0]))
            then Taken(s'.rows[a], step) && s'.rows[a].naming == (if matched.Some? then NotApplicable else PendingName)
            else s' == s
  {
  }

  lemma StepFollows(s: System, init: seq<Step>, step: Step, a: nat, threshold: real, sim: Similarity)
    requires a < |s.rows| && Follows(init, a, s.rows[a])
    ensures a < |Next(s, step, threshold, sim).rows| && Follows(init + [step], a, Next(s, step, threshold, sim).rows[a])
  {
    var all, before, after := init + [step], s.rows[a], Next(s, step, threshold, sim).rows[a];
    if before.accepted.Some? {
      var i :| 0 <= i < |init| && init[i].Accepts? && init[i].session == a && Taken(before, init[i]);
      assert all[i] == init[i] && Taken(after, all[i]);
    } else if after.accepted.Some? {
      assert all[|init|] == step && Taken(after, step);
    }
  }

  lemma NewRowFollows(s: System, steps: seq<Step>, step: Step, a: nat, threshold: real, sim: Similarity)
    requires |s.rows| <= a < |Next(s, step, threshold, sim).rows|
    ensures Follows(steps, a, Next(s, step, threshold, sim).rows[a])
  {
  }

  lemma NextFollows(s: System, init: seq<Step>, step: Step, a: nat, threshold: real, sim: Similarity)
    requires a < |Next(s, step, threshold, sim).rows| && (a < |s.rows| ==> Follows(init, a, s.rows[a]))
    ensures Follows(init + [step], a, Next(s, step, threshold, sim).rows[a])
  {
    if a < |s.rows| {
      StepFollows(s, init, step, a, threshold, sim);
    } else {
      NewRowFollows(s, init + [step], step, a, threshold, sim);
    }
  }

  /** Over every run, whatever a row says goes back to the acceptance of its session. */
  lemma {:induction false} RowFollows(steps: seq<Step>, a: nat, threshold: real, sim: Similarity)
    requires a < |Run(EmptySystem, steps, threshold, sim).rows|
    ensures Follows(steps, a, Run(EmptySystem, steps, threshold, sim).rows[a])
  {
    if steps != [] {
      var init, step := steps[..|steps| - 1], steps[|steps| - 1];
      var s := Run(EmptySystem, init, threshold, sim);
      assert steps == init + [step] && Run(EmptySystem, steps, threshold, sim) == Next(s, step, threshold, sim);
      if a < |s.rows| {
        RowFollows(init, a, threshold, sim);
      }
      NextFollows(s, init, step, a, threshold, sim);
    }
  }

  ghost predicate AcceptedApart(s: System) {
    forall a, b :: 0 <= a < b < |s.rows| && s.rows[a].accepted.Some? ==> s.rows[a].accepted != s.rows[b].accepted
  }

  lemma StepKeepsApart(s: System, step: Step, threshold: real, sim: Similarity)
    requires AcceptedApart(s) && forall a :: 0 <= a < |s.rows| && s.rows[a].open ==> s.rows[a].accepted.None?
    ensures AcceptedApart(Next(s, step, threshold, sim))
  {
  }

  /** No two sessions ever take the same face first. */
  lemma {:induction false} FacesAreTakenOnce(steps: seq<Step>, threshold: real, sim: Similarity)
    ensures AcceptedApart(Run(EmptySystem, steps, threshold, sim))
  {
    if steps != [] {
      var init := steps[..|steps| - 1];
      var s := Run(EmptySystem, init, threshold, sim);
      FacesAreTakenOnce(init, threshold, sim);
      forall a | 0 <= a < |s.rows| && s.rows[a].open ensures s.rows[a].accepted.None? {
        RowFollows(init, a, threshold, sim);
      }
      StepKeepsApart(s, steps[|steps| - 1], threshold, sim);
    }
  }

  // ---------------------------------------------------------------- names

  ghost predicate IsAsked(steps: seq<Step>, r: Request) {
    exists i :: 0 <= i < |steps| && steps[i] == Asks(r.session, r.name)
  }

  /** Every request is one that somebody made. */
  lemma {:induction false} RequestsAreAsked(steps: seq<Step>, r: nat, threshold: real, sim: Similarity)
    requires r < |Run(EmptySystem, steps, threshold, sim).requests|
    ensures IsAsked(steps, Run(EmptySystem, steps, threshold, sim).requests[r])
  {
    var init, step := steps[..|steps| - 1], steps[|steps| - 1];
    var s := Run(EmptySystem, init, threshold, sim);
    if r < |s.requests| {
      RequestsAreAsked(init, r, threshold, sim);
      var i :| 0 <= i < |init| && init[i] == Asks(s.requests[r].session, s.requests[r].name);
      assert steps[i] == init[i];
    } else {
      assert steps[|steps| - 1] == step;
    }
  }

  predicate HasName(store: Store, person: PersonId, name: string) {
    person in store.persons && store.persons[person].named && store.persons[person].name == name
  }

  lemma EnrollKeepsName(
    s: Store, r: Request, now: real, found: map<CaptureId, seq<nat>>, threshold: real, sim: Similarity,
    person: PersonId, name: string)
    requires Sound(s) && Answers(s, found, sim) && HasName(s, person, name)
    requires Enroll(s, r.captures, r.name, now, found, threshold, sim).Ok?
    ensures HasName(Enroll(s, r.captures, r.name, now, found, threshold, sim).value.0, person, name)
  {
    EnrollBuilds(s, r.captures, r.name, now, found, threshold, sim);
  }

  lemma StoreKeepsName(s: System, step: Step, person: PersonId, name: string, threshold: real, sim: Similarity)
    requires HasName(s.store, person, name) && (step.Stages? || step.Sights? || step.Discards?)
    ensures HasName(Next(s, step, threshold, sim).store, person, name)
  {
  }

  lemma StepKeepsName(s: System, step: Step, person: PersonId, name: string, threshold: real, sim: Similarity)
    requires Inv(s) && Faithful(s, step, sim) && HasName(s.store, person, name)
    ensures HasName(Next(s, step, threshold, sim).store, person, name)
  {
    if step.Stages? || step.Sights? || step.Discards? {
      StoreKeepsName(s, step, person, name, threshold, sim);
    } else if step.Answered? && Next(s, step, threshold, sim).store != s.store {
      EnrollKeepsName(s.store, s.requests[step.request], step.now, step.lookups, threshold, sim, person, name);
    }
  }

  lemma AnswerGivesName(s: System, step: Step, r: nat, threshold: real, sim: Similarity)
    requires Inv(s) && Faithful(s, step, sim) && r < |s.requests| && !MadePerson(s.requests[r])
    requires MadePerson(Next(s, step, threshold, sim).requests[r])
    ensures var s' := Next(s, step, threshold, sim);
            HasName(s'.store, s'.requests[r].outcome.value.person, s'.requests[r].name)
  {
    var q := s.requests[r];
    EnrolledCarries(s.store, q.captures, q.name, step.now, step.lookups, threshold, sim);
  }

  /** Over every run, the person that a request created bears the name that was asked for. */
  lemma {:induction false} PersonBearsTheName(steps: seq<Step>, r: nat, threshold: real, sim: Similarity)
    requires FaithfulRun(EmptySystem, steps, threshold, sim)
    requires var s := Run(EmptySystem, steps, threshold, sim);
             r < |s.requests| && MadePerson(s.requests[r])
    ensures var s := Run(EmptySystem, steps, threshold, sim);
            && HasName(s.store, s.requests[r].outcome.value.person, s.requests[r].name)
            && IsAsked(steps, s.requests[r])
  {
    RequestsAreAsked(steps, r, threshold, sim);
    var init, step := steps[..|steps| - 1], steps[|steps| - 1];
    var s := Run(EmptySystem, init, threshold, sim);
    RunKeepsInv(EmptySystem, init, threshold, sim);
    if MadePerson(s.requests[r]) {
      PersonBearsTheName(init, r, threshold, sim);
      StepKeepsName(s, step, s.requests[r].outcome.value.person, s.requests[r].name, threshold, sim);
    } else {
      AnswerGivesName(s, step, r, threshold, sim);
    }
  }
}
