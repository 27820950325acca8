/** Naming a captured face across two databases: session rows in the management
    database, people and staged captures in the identity store
    (tvt_edge/service.py). A naming request is three transactions; between them
    anything else may happen, and a request may be lost at either gap. */
module Naming {
  import opened Options
  import opened Identity

  const NamingTimeout := 900.0

  datatype NamingStatus = NotApplicable | PendingName | Named | Discarded

  /** `open` while the session still captures; `accepted` is unique over all sessions. */
  datatype Row = Row(
    open: bool, naming: NamingStatus, accepted: Option<CaptureId>, captures: seq<CaptureId>,
    person: Option<PersonId>, capturedAt: real)

  const NewRow := Row(true, NotApplicable, None, [], None, 0.0)

  datatype Outcome = Created(person: PersonId) | Refused(duplicate: bool)

  /** One naming request: the captures it read and what the identity store answered. */
  datatype Request = Request(session: nat, captures: seq<CaptureId>, name: string, outcome: Option<Outcome>)

  datatype System = System(rows: seq<Row>, requests: seq<Request>, store: Store)

  // ---------------------------------------------------------------- transactions

  function Open(s: System): System {
    s.(rows := s.rows + [NewRow])
  }

  /** A poll accepts captures; a capture that matches somebody ends the session without a name to give. */
  function Accept(s: System, a: nat, ids: seq<CaptureId>, matched: Option<PersonId>, now: real): System {
    if a >= |s.rows| || !s.rows[a].open || ids == [] then s
    else if exists b :: 0 <= b < |s.rows| && s.rows[b].accepted == Some(ids[0]) then s
    else if matched.Some? then s.(rows := s.rows[a := Row(false, NotApplicable, Some(ids[0]), [], matched, now)])
    else s.(rows := s.rows[a := Row(false, PendingName, Some(ids[0]), ids, None, now)])
  }

  /** Timing out, or cancelling before a face was captured. */
  function Close(s: System, a: nat): System {
    if a >= |s.rows| || !s.rows[a].open then s else s.(rows := s.rows[a := s.rows[a].(open := false)])
  }

  function DiscardRow(row: Row): Row {
    if row.naming == PendingName then row.(naming := Discarded) else row
  }

  /** Cancelling a session whose face waits for a name. */
  function CancelNaming(s: System, a: nat): System {
    if a >= |s.rows| then s else s.(rows := s.rows[a := DiscardRow(s.rows[a])])
  }

  function Expire(s: System, a: nat, now: real): System {
    if a >= |s.rows| || s.rows[a].capturedAt > now - NamingTimeout then s
    else s.(rows := s.rows[a := DiscardRow(s.rows[a])])
  }

  /** First transaction of a request: read the row. */
  function Ask(s: System, a: nat, name: string): System {
    if a >= |s.rows| || !(1 <= |name| <= MaximumName) || s.rows[a].naming != PendingName || s.rows[a].captures == [] then s
    else s.(requests := s.requests + [Request(a, s.rows[a].captures, name, None)])
  }

  predicate CanLookUp(store: Store, found: map<CaptureId, seq<nat>>) {
    forall c :: c in store.staged ==> c in found && InRange(store, found[c])
  }

  /** Second transaction, in the identity store. */
  function Enrolls(s: System, r: nat, now: real, found: map<CaptureId, seq<nat>>, threshold: real, sim: Similarity): System
  {
    if r >= |s.requests| || s.requests[r].outcome.Some? || !CanLookUp(s.store, found) then s
    else match Enroll(s.store, s.requests[r].captures, s.requests[r].name, now, found, threshold, sim)
      case Ok((store, person)) =>
        s.(store := store, requests := s.requests[r := s.requests[r].(outcome := Some(Created(person)))])
      case Err(Duplicate(_)) => s.(requests := s.requests[r := s.requests[r].(outcome := Some(Refused(true)))])
      case Err(_) => s.(requests := s.requests[r := s.requests[r].(outcome := Some(Refused(false)))])
  }

  /** Third transaction: write the outcome to the row. */
  function Settle(s: System, r: nat): System {
    if r >= |s.requests| || s.requests[r].outcome.None? || s.requests[r].session >= |s.rows| then s
    else
      var a := s.requests[r].session;
      match s.requests[r].outcome.value
      case Created(person) =>
        if s.rows[a].naming != PendingName then s
        else s.(rows := s.rows[a := s.rows[a].(naming := Named, person := Some(person))])
      case Refused(_) => s.(rows := s.rows[a := DiscardRow(s.rows[a])])
  }

  datatype Step =
    | Opens
    | Accepts(session: nat, ids: seq<CaptureId>, matched: Option<PersonId>, now: real)
    | Closes(session: nat)
    | CancelsNaming(session: nat)
    | Expires(session: nat, now: real)
    | Asks(session: nat, name: string)
    | Answered(request: nat, now: real, lookups: map<CaptureId, seq<nat>>)
    | Settles(request: nat)
    | Stages(event: CaptureId, face: Face, dimension: nat, found: seq<nat>, at: real)
    | Sights(event: CaptureId, face: Face, dimension: nat, found: seq<nat>, at: real)
    | Discards(ids: seq<CaptureId>)

  function Next(s: System, step: Step, threshold: real, sim: Similarity): System {
    match step
    case Opens => Open(s)
    case Accepts(a, ids, matched, now) => Accept(s, a, ids, matched, now)
    case Closes(a) => Close(s, a)
    case CancelsNaming(a) => CancelNaming(s, a)
    case Expires(a, now) => Expire(s, a, now)
    case Asks(a, name) => Ask(s, a, name)
    case Answered(r, now, lookups) => Enrolls(s, r, now, lookups, threshold, sim)
    case Settles(r) => Settle(s, r)
    case Stages(event, face, dimension, found, at) =>
      if InRange(s.store, found) then s.(store := Stage(s.store, event, face, dimension, found, at, threshold, sim)) else s
    case Sights(event, face, dimension, found, at) =>
      if InRange(s.store, found) then s.(store := Sight(s.store, event, face, dimension, found, at, threshold, sim).0) else s
    case Discards(ids) => s.(store := Discard(s.store, ids))
  }

  function Run(s: System, steps: seq<Step>, threshold: real, sim: Similarity): System {
    if steps == [] then s
    else Next(Run(s, steps[..|steps| - 1], threshold, sim), steps[|steps| - 1], threshold, sim)
  }

  /** The index answers correctly at every step. */
  ghost predicate Faithful(s: System, step: Step, sim: Similarity) {
    && (step.Answered? ==> Answers(s.store, step.lookups, sim))
    && (step.Stages? || step.Sights? ==> IsNearest(s.store.vectors, step.face, step.found, sim))
  }

  ghost predicate FaithfulRun(s: System, steps: seq<Step>, threshold: real, sim: Similarity) {
    steps == [] ||
    (FaithfulRun(s, steps[..|steps| - 1], threshold, sim)
     && Faithful(Run(s, steps[..|steps| - 1], threshold, sim), steps[|steps| - 1], sim))
  }

  // ---------------------------------------------------------------- the invariant

  ghost predicate RowOk(store: Store, row: Row) {
    && (row.open ==> row.naming == NotApplicable && row.captures == [])
    && (row.naming != NotApplicable ==> row.captures != [])
    && (row.naming == Named ==> row.person.Some? && BuiltFrom(store, row.person.value, row.captures))
  }

  ghost predicate RequestOk(s: System, r: Request) {
    && r.session < |s.rows|
    && r.captures == s.rows[r.session].captures && r.captures != []
    && s.rows[r.session].naming != NotApplicable
    && (r.outcome.Some? && r.outcome.value.Created? ==> BuiltFrom(s.store, r.outcome.value.person, r.captures))
  }

  ghost predicate Inv(s: System) {
    && Sound(s.store)
    && (forall a :: 0 <= a < |s.rows| ==> RowOk(s.store, s.rows[a]))
    && (forall r :: 0 <= r < |s.requests| ==> RequestOk(s, s.requests[r]))
    && (forall q, r :: 0 <= q < r < |s.requests| && MadePerson(s.requests[q]) && MadePerson(s.requests[r]) ==>
          s.requests[q].outcome.value.person != s.requests[r].outcome.value.person)
  }

  predicate MadePerson(r: Request) {
    r.outcome.Some? && r.outcome.value.Created?
  }

  /** A store that keeps its vectors and its people's status keeps everything built. */
  lemma BuiltSurvives(s: Store, s': Store, person: PersonId, ids: seq<CaptureId>)
    requires BuiltFrom(s, person, ids) && SameGallery(s, s')
    ensures BuiltFrom(s', person, ids)
  {
  }

  lemma BuiltSurvivesEnroll(s: Store, s': Store, person: PersonId, ids: seq<CaptureId>)
    requires BuiltFrom(s, person, ids) && s.vectors <= s'.vectors
    requires person in s'.persons && s'.persons[person].named
    requires forall v :: |s.vectors| <= v < |s'.vectors| ==> s'.vectors[v].person != person
    ensures BuiltFrom(s', person, ids)
  {
    forall c ensures c in Sources(s', person) <==> c in Sources(s, person) {
      if c in Sources(s, person) {
        var v :| 0 <= v < |s.vectors| && s.vectors[v].person == person && s.vectors[v].source == c;
        assert s'.vectors[v] == s.vectors[v];
      }
      if c in Sources(s', person) {
        var v :| 0 <= v < |s'.vectors| && s'.vectors[v].person == person && s'.vectors[v].source == c;
        assert s'.vectors[v] == s.vectors[v];
      }
    }
  }

  lemma StoreStepKeepsInv(s: System, store: Store)
    requires Inv(s) && Sound(store) && SameGallery(s.store, store)
    ensures Inv(s.(store := store))
  {
    forall a | 0 <= a < |s.rows| ensures RowOk(store, s.rows[a]) {
      if s.rows[a].naming == Named {
        BuiltSurvives(s.store, store, s.rows[a].person.value, s.rows[a].captures);
      }
    }
    forall r | 0 <= r < |s.requests| ensures RequestOk(s.(store := store), s.requests[r]) {
      if MadePerson(s.requests[r]) {
        BuiltSurvives(s.store, store, s.requests[r].outcome.value.person, s.requests[r].captures);
      }
    }
  }

  /** Changing one row keeps the invariant if its captures stay and its naming only moves on. */
  lemma RowStepKeepsInv(s: System, a: nat, row: Row)
    requires Inv(s) && a < |s.rows| && RowOk(s.store, row)
    requires s.rows[a].naming != NotApplicable ==> row.captures == s.rows[a].captures && row.naming != NotApplicable
    ensures Inv(s.(rows := s.rows[a := row]))
  {
    var s' := s.(rows := s.rows[a := row]);
    forall r | 0 <= r < |s.requests| ensures RequestOk(s', s.requests[r]) {
      assert RequestOk(s, s.requests[r]);
    }
  }

  lemma EnrollStepKeepsInv(s: System, r: nat, now: real, found: map<CaptureId, seq<nat>>, threshold: real, sim: Similarity)
    requires Inv(s) && Answers(s.store, found, sim)
    ensures Inv(Enrolls(s, r, now, found, threshold, sim))
  {
    var s' := Enrolls(s, r, now, found, threshold, sim);
    if s' != s {
      var request := s.requests[r];
      assert RequestOk(s, request);
      if MadePerson(s'.requests[r]) {
        EnrollBuilds(s.store, request.captures, request.name, now, found, threshold, sim);
        EnrolledKeepsInv(s, s', r);
      } else {
        forall q | 0 <= q < |s'.requests| ensures RequestOk(s', s'.requests[q]) {
          assert RequestOk(s, s.requests[q]);
        }
      }
    }
  }

  lemma EnrolledKeepsInv(s: System, s': System, r: nat)
    requires Inv(s) && r < |s.requests| && s'.rows == s.rows
    requires s'.requests == s.requests[r := s.requests[r].(outcome := Some(Created(s.store.next)))]
    requires Sound(s'.store) && s.store.vectors <= s'.store.vectors
    requires s.store.next !in s.store.persons && s.store.next in s'.store.persons
    requires s'.store.persons == s.store.persons[s.store.next := s'.store.persons[s.store.next]]
    requires forall v :: |s.store.vectors| <= v < |s'.store.vectors| ==> s'.store.vectors[v].person == s.store.next
    requires BuiltFrom(s'.store, s.store.next, s.requests[r].captures)
    ensures Inv(s')
  {
    forall a | 0 <= a < |s.rows| ensures RowOk(s'.store, s.rows[a]) {
      if s.rows[a].naming == Named {
        BuiltSurvivesEnroll(s.store, s'.store, s.rows[a].person.value, s.rows[a].captures);
      }
    }
    forall q | 0 <= q < |s'.requests| ensures RequestOk(s', s'.requests[q]) {
      assert RequestOk(s, s.requests[q]);
      if q != r && MadePerson(s.requests[q]) {
        BuiltSurvivesEnroll(s.store, s'.store, s.requests[q].outcome.value.person, s.requests[q].captures);
      }
    }
    forall q, p | 0 <= q < p < |s'.requests| && MadePerson(s'.requests[q]) && MadePerson(s'.requests[p])
      ensures s'.requests[q].outcome.value.person != s'.requests[p].outcome.value.person
    {
      assert RequestOk(s, s.requests[q]) && RequestOk(s, s.requests[p]);
    }
  }

  lemma RowStepsKeepInv(s: System, step: Step, threshold: real, sim: Similarity)
    requires Inv(s) && (step.Accepts? || step.Closes? || step.CancelsNaming? || step.Expires?)
    ensures Inv(Next(s, step, threshold, sim))
  {
    var s' := Next(s, step, threshold, sim);
    if s' != s {
      assert RowOk(s.store, s.rows[step.session]);
      RowStepKeepsInv(s, step.session, s'.rows[step.session]);
    }
  }

  lemma StoreStepsKeepInv(s: System, step: Step, threshold: real, sim: Similarity)
    requires Inv(s) && (step.Stages? || step.Sights? || step.Discards?)
    ensures Inv(Next(s, step, threshold, sim))
  {
    StoreStepKeepsInv(s, Next(s, step, threshold, sim).store);
  }

  lemma StepKeepsInv(s: System, step: Step, threshold: real, sim: Similarity)
    requires Inv(s) && Faithful(s, step, sim)
    ensures Inv(Next(s, step, threshold, sim))
  {
    if step.Accepts? || step.Closes? || step.CancelsNaming? || step.Expires? {
      RowStepsKeepInv(s, step, threshold, sim);
    } else {
      match step
      case Opens => OpenKeepsInv(s);
      case Asks(a, name) => AskKeepsInv(s, a, name);
      case Answered(r, now, lookups) => EnrollStepKeepsInv(s, r, now, lookups, threshold, sim);
      case Settles(r) => SettleKeepsInv(s, r);
      case _ => StoreStepsKeepInv(s, step, threshold, sim);
    }
  }

  lemma OpenKeepsInv(s: System)
    requires Inv(s)
    ensures Inv(Open(s))
  {
    forall r | 0 <= r < |s.requests| ensures RequestOk(Open(s), s.requests[r]) {
      assert RequestOk(s, s.requests[r]);
    }
  }

  lemma AskKeepsInv(s: System, a: nat, name: string)
    requires Inv(s)
    ensures Inv(Ask(s, a, name))
  {
    var s' := Ask(s, a, name);
    forall r | 0 <= r < |s'.requests| ensures RequestOk(s', s'.requests[r]) {
      assert r < |s.requests| ==> RequestOk(s, s.requests[r]);
    }
  }

  lemma SettleKeepsInv(s: System, r: nat)
    requires Inv(s)
    ensures Inv(Settle(s, r))
  {
    if Settle(s, r) != s {
      assert RequestOk(s, s.requests[r]);
      assert RowOk(s.store, s.rows[s.requests[r].session]);
      RowStepKeepsInv(s, s.requests[r].session, Settle(s, r).rows[s.requests[r].session]);
    }
  }

  lemma {:induction false} RunKeepsInv(s: System, steps: seq<Step>, threshold: real, sim: Similarity)
    requires Inv(s) && FaithfulRun(s, steps, threshold, sim)
    ensures Inv(Run(s, steps, threshold, sim))
  {
    if steps != [] {
      RunKeepsInv(s, steps[..|steps| - 1], threshold, sim);
      StepKeepsInv(Run(s, steps[..|steps| - 1], threshold, sim), steps[|steps| - 1], threshold, sim);
    }
  }

  // ---------------------------------------------------------------- the theorems

  const EmptySystem := System([], [], EmptyStore)

  /** Two people never share a capture. */
  lemma CaptureFeedsOnePerson(steps: seq<Step>, threshold: real, sim: Similarity, c: CaptureId, p: PersonId, q: PersonId)
    requires FaithfulRun(EmptySystem, steps, threshold, sim)
    requires var store := Run(EmptySystem, steps, threshold, sim).store;
             c in Sources(store, p) && c in Sources(store, q)
    ensures p == q
    ensures c !in Run(EmptySystem, steps, threshold, sim).store.staged
  {
    RunKeepsInv(EmptySystem, steps, threshold, sim);
    SourceHasOneOwner(Run(EmptySystem, steps, threshold, sim).store, c, p, q);
  }

  lemma SourceHasOneOwner(store: Store, c: CaptureId, p: PersonId, q: PersonId)
    requires Sound(store) && c in Sources(store, p) && c in Sources(store, q)
    ensures p == q && c !in store.staged
  {
  }

  /** However often a session is named, one request at most creates a person. */
  lemma SessionCreatesOnePerson(steps: seq<Step>, threshold: real, sim: Similarity, q: nat, r: nat)
    requires FaithfulRun(EmptySystem, steps, threshold, sim)
    requires var s := Run(EmptySystem, steps, threshold, sim);
             && q < |s.requests| && r < |s.requests|
             && MadePerson(s.requests[q]) && MadePerson(s.requests[r])
             && s.requests[q].session == s.requests[r].session
    ensures q == r
  {
    RunKeepsInv(EmptySystem, steps, threshold, sim);
    OneCreatorPerSession(Run(EmptySystem, steps, threshold, sim), q, r);
  }

  lemma OneCreatorPerSession(s: System, q: nat, r: nat)
    requires Inv(s) && q < |s.requests| && r < |s.requests|
    requires MadePerson(s.requests[q]) && MadePerson(s.requests[r]) && s.requests[q].session == s.requests[r].session
    ensures q == r
  {
    var one, other := s.requests[q], s.requests[r];
    assert RequestOk(s, one) && RequestOk(s, other);
    var c := one.captures[0];
    assert c in Sources(s.store, one.outcome.value.person) && c in Sources(s.store, other.outcome.value.person);
    SourceHasOneOwner(s.store, c, one.outcome.value.person, other.outcome.value.person);
  }

  /** A session marked named holds a stored person built from exactly its captures. */
  lemma NamedSessionHoldsItsPerson(steps: seq<Step>, threshold: real, sim: Similarity, a: nat)
    requires FaithfulRun(EmptySystem, steps, threshold, sim)
    requires a < |Run(EmptySystem, steps, threshold, sim).rows|
    requires Run(EmptySystem, steps, threshold, sim).rows[a].naming == Named
    ensures var s := Run(EmptySystem, steps, threshold, sim);
            && s.rows[a].person.Some? && s.rows[a].captures != []
            && BuiltFrom(s.store, s.rows[a].person.value, s.rows[a].captures)
  {
    RunKeepsInv(EmptySystem, steps, threshold, sim);
    assert RowOk(Run(EmptySystem, steps, threshold, sim).store, Run(EmptySystem, steps, threshold, sim).rows[a]);
  }

  lemma StepKeepsVerdict(s: System, step: Step, a: nat, threshold: real, sim: Similarity)
    requires Inv(s) && a < |s.rows| && (s.rows[a].naming == Named || s.rows[a].naming == Discarded)
    ensures a < |Next(s, step, threshold, sim).rows| && Next(s, step, threshold, sim).rows[a] == s.rows[a]
  {
    assert RowOk(s.store, s.rows[a]);
  }

  /** `named` and `discarded` are final, with everything the row says. */
  lemma {:induction false} VerdictIsFinal(s: System, steps: seq<Step>, a: nat, threshold: real, sim: Similarity)
    requires Inv(s) && FaithfulRun(s, steps, threshold, sim)
    requires a < |s.rows| && (s.rows[a].naming == Named || s.rows[a].naming == Discarded)
    ensures a < |Run(s, steps, threshold, sim).rows| && Run(s, steps, threshold, sim).rows[a] == s.rows[a]
  {
    if steps != [] {
      VerdictIsFinal(s, steps[..|steps| - 1], a, threshold, sim);
      RunKeepsInv(s, steps[..|steps| - 1], threshold, sim);
      StepKeepsVerdict(Run(s, steps[..|steps| - 1], threshold, sim), steps[|steps| - 1], a, threshold, sim);
    }
  }

  /** A gallery of named people keeps different people apart over every run. */
  lemma {:induction false} GalleryStaysSeparated(s: System, steps: seq<Step>, threshold: real, sim: Similarity)
    requires Inv(s) && Gallery(s.store, threshold, sim) && Symmetric(sim) && FaithfulRun(s, steps, threshold, sim)
    ensures Gallery(Run(s, steps, threshold, sim).store, threshold, sim)
  {
    if steps != [] {
      var init := steps[..|steps| - 1];
      GalleryStaysSeparated(s, init, threshold, sim);
      RunKeepsInv(s, init, threshold, sim);
      StepKeepsGallery(Run(s, init, threshold, sim), steps[|steps| - 1], threshold, sim);
    }
  }

  lemma EnrollStepKeepsGallery(
    s: System, r: nat, now: real, lookups: map<CaptureId, seq<nat>>, threshold: real, sim: Similarity)
    requires Gallery(s.store, threshold, sim) && Symmetric(sim) && Answers(s.store, lookups, sim)
    ensures Gallery(Enrolls(s, r, now, lookups, threshold, sim).store, threshold, sim)
  {
    if Enrolls(s, r, now, lookups, threshold, sim).store != s.store {
      EnrolledCarries(s.store, s.requests[r].captures, s.requests[r].name, now, lookups, threshold, sim);
      EnrollKeepsGallery(s.store, s.requests[r].captures, s.requests[r].name, now, lookups, threshold, sim);
    }
  }

  lemma StepKeepsGallery(s: System, step: Step, threshold: real, sim: Similarity)
    requires Inv(s) && Gallery(s.store, threshold, sim) && Symmetric(sim) && Faithful(s, step, sim)
    ensures Gallery(Next(s, step, threshold, sim).store, threshold, sim)
  {
    match step
    case Answered(r, now, lookups) => EnrollStepKeepsGallery(s, r, now, lookups, threshold, sim);
    case Stages(event, face, dimension, found, at) =>
      OnlyEnrollmentGrowsTheGallery(s.store, event, face, dimension, found, at, [], threshold, sim);
    case Sights(event, face, dimension, found, at) =>
      OnlyEnrollmentGrowsTheGallery(s.store, event, face, dimension, found, at, [], threshold, sim);
    case Discards(ids) => SameGalleryKeeps(s.store, Discard(s.store, ids), threshold, sim);
    case _ =>
  }

  // ---------------------------------------------------------------- which sessions end up named

  /** The state before step `i` of a run from the empty system. */
  function Before(steps: seq<Step>, i: nat, threshold: real, sim: Similarity): System
    requires i <= |steps|
  {
    Run(EmptySystem, steps[..i], threshold, sim)
  }

  predicate IsAnswered(s: System, r: nat, a: nat) {
    r < |s.requests| && s.requests[r].session == a && s.requests[r].outcome.Some?
  }

  /** The step reports to session `a` that one of its requests created a person. */
  predicate Reports(s: System, step: Step, a: nat) {
    step.Settles? && IsAnswered(s, step.request, a) && MadePerson(s.requests[step.request])
  }

  /** The step gives up the captured face of session `a`: cancelled, too late, or refused. */
  predicate GivesUp(s: System, step: Step, a: nat) {
    && a < |s.rows| && s.rows[a].naming != NotApplicable
    && match step
       case CancelsNaming(b) => b == a
       case Expires(b, now) => b == a && s.rows[a].capturedAt + 900.0 <= now
       case Settles(r) => IsAnswered(s, r, a) && !MadePerson(s.requests[r])
       case _ => false
  }

  ghost predicate ReportsAt(steps: seq<Step>, i: nat, a: nat, threshold: real, sim: Similarity) {
    i < |steps| && Reports(Before(steps, i, threshold, sim), steps[i], a)
  }

  ghost predicate GivesUpAt(steps: seq<Step>, i: nat, a: nat, threshold: real, sim: Similarity) {
    i < |steps| && GivesUp(Before(steps, i, threshold, sim), steps[i], a)
  }

  /** Among the first `n` steps, a report comes before every step that gives up. */
  ghost predicate ReportedFirst(steps: seq<Step>, n: nat, a: nat, threshold: real, sim: Similarity) {
    exists i: nat :: i < n && ReportsAt(steps, i, a, threshold, sim)
      && forall j: nat :: j < i ==> !GivesUpAt(steps, j, a, threshold, sim)
  }

  ghost predicate GivenUp(steps: seq<Step>, n: nat, a: nat, threshold: real, sim: Similarity) {
    exists j: nat :: j < n && GivesUpAt(steps, j, a, threshold, sim)
  }

  function NamingOf(s: System, a: nat): NamingStatus {
    if a < |s.rows| then s.rows[a].naming else NotApplicable
  }

  lemma NamingAfter(s: System, step: Step, a: nat, threshold: real, sim: Similarity)
    requires Inv(s)
    ensures var after := NamingOf(Next(s, step, threshold, sim), a);
            match NamingOf(s, a)
            case NotApplicable => after in {NotApplicable, PendingName} && !Reports(s, step, a) && !GivesUp(s, step, a)
            case PendingName =>
              after == if Reports(s, step, a) then Named else if GivesUp(s, step, a) then Discarded else PendingName
            case decided => after == decided
    ensures !(Reports(s, step, a) && GivesUp(s, step, a))
  {
    if step.Settles? && step.request < |s.requests| {
      assert RequestOk(s, s.requests[step.request]);
    }
    if a < |s.rows| {
      assert RowOk(s.store, s.rows[a]);
    }
  }

  lemma OneMoreStep(steps: seq<Step>, n: nat, a: nat, threshold: real, sim: Similarity)
    requires n < |steps|
    ensures GivenUp(steps, n + 1, a, threshold, sim)
            <==> GivenUp(steps, n, a, threshold, sim) || GivesUpAt(steps, n, a, threshold, sim)
    ensures ReportedFirst(steps, n + 1, a, threshold, sim)
            <==> || ReportedFirst(steps, n, a, threshold, sim)
                 || (ReportsAt(steps, n, a, threshold, sim) && !GivenUp(steps, n, a, threshold, sim))
  {
    if ReportsAt(steps, n, a, threshold, sim) && !GivenUp(steps, n, a, threshold, sim) {
      assert forall j: nat :: j < n ==> !GivesUpAt(steps, j, a, threshold, sim);
    }
  }

  lemma RunOneMore(steps: seq<Step>, n: nat, threshold: real, sim: Similarity)
    requires n < |steps| && FaithfulRun(EmptySystem, steps[..n + 1], threshold, sim)
    ensures FaithfulRun(EmptySystem, steps[..n], threshold, sim) && Inv(Before(steps, n, threshold, sim))
    ensures Before(steps, n + 1, threshold, sim) == Next(Before(steps, n, threshold, sim), steps[n], threshold, sim)
  {
    assert steps[..n + 1][..n] == steps[..n];
    RunKeepsInv(EmptySystem, steps[..n], threshold, sim);
  }

  /** Over every run a session is named exactly if the report of a created person comes
      before every step that gives its face up, and discarded exactly if one of those
      came and no report before it. */
  lemma {:induction false} FirstVerdictDecides(steps: seq<Step>, n: nat, a: nat, threshold: real, sim: Similarity)
    requires n <= |steps| && FaithfulRun(EmptySystem, steps[..n], threshold, sim)
    ensures var naming := NamingOf(Before(steps, n, threshold, sim), a);
            && (naming == Named <==> ReportedFirst(steps, n, a, threshold, sim))
            && (naming == Discarded <==>
                  GivenUp(steps, n, a, threshold, sim) && !ReportedFirst(steps, n, a, threshold, sim))
  {
    if n == 0 {
      assert NamingOf(Before(steps, 0, threshold, sim), a) == NotApplicable;
    } else {
      RunOneMore(steps, n - 1, threshold, sim);
      FirstVerdictDecides(steps, n - 1, a, threshold, sim);
      VerdictFollows(steps, n - 1, a, threshold, sim);
    }
  }

  lemma VerdictFollows(steps: seq<Step>, n: nat, a: nat, threshold: real, sim: Similarity)
    requires n < |steps| && Inv(Before(steps, n, threshold, sim))
    requires Before(steps, n + 1, threshold, sim) == Next(Before(steps, n, threshold, sim), steps[n], threshold, sim)
    requires var naming := NamingOf(Before(steps, n, threshold, sim), a);
             && (naming == Named <==> ReportedFirst(steps, n, a, threshold, sim))
             && (naming == Discarded <==>
                   GivenUp(steps, n, a, threshold, sim) && !ReportedFirst(steps, n, a, threshold, sim))
    ensures var naming := NamingOf(Before(steps, n + 1, threshold, sim), a);
            && (naming == Named <==> ReportedFirst(steps, n + 1, a, threshold, sim))
            && (naming == Discarded <==>
                  GivenUp(steps, n + 1, a, threshold, sim) && !ReportedFirst(steps, n + 1, a, threshold, sim))
  {
    var s := Before(steps, n, threshold, sim);
    NamingAfter(s, steps[n], a, threshold, sim);
    OneMoreStep(steps, n, a, threshold, sim);
    assert ReportsAt(steps, n, a, threshold, sim) <==> Reports(s, steps[n], a);
    assert GivesUpAt(steps, n, a, threshold, sim) <==> GivesUp(s, steps[n], a);
  }

  lemma RequestStays(s: System, step: Step, r: nat, threshold: real, sim: Similarity)
    requires r < |s.requests|
    ensures var after := Next(s, step, threshold, sim);
            && r < |after.requests| && after.requests[r].session == s.requests[r].session
            && (s.requests[r].outcome.Some? ==> after.requests[r] == s.requests[r])
  {
  }

  lemma {:induction false} RequestsStay(steps: seq<Step>, i: nat, n: nat, r: nat, threshold: real, sim: Similarity)
    requires i <= n <= |steps| && r < |Before(steps, i, threshold, sim).requests|
    requires Before(steps, i, threshold, sim).requests[r].outcome.Some?
    ensures var after := Before(steps, n, threshold, sim);
            r < |after.requests| && after.requests[r] == Before(steps, i, threshold, sim).requests[r]
    decreases n
  {
    if i < n {
      RequestsStay(steps, i, n - 1, r, threshold, sim);
      assert steps[..n][..n - 1] == steps[..n - 1];
      RequestStays(Before(steps, n - 1, threshold, sim), steps[n - 1], r, threshold, sim);
    }
  }

  lemma NamedAfterItsRequest(s: System, r: nat)
    requires Inv(s) && r < |s.requests| && MadePerson(s.requests[r])
    ensures s.requests[r].session < |s.rows|
    ensures var row := s.rows[s.requests[r].session];
            row.naming == Named ==> row.person == Some(s.requests[r].outcome.value.person)
  {
    var request := s.requests[r];
    assert RequestOk(s, request) && RowOk(s.store, s.rows[request.session]);
    if s.rows[request.session].naming == Named {
      var c := request.captures[0];
      var named := s.rows[request.session].person.value;
      assert c in Sources(s.store, request.outcome.value.person) && c in Sources(s.store, named);
      SourceHasOneOwner(s.store, c, request.outcome.value.person, named);
    }
  }

  /** A created person is on its session exactly if settling the request that created
      it comes after that answer and before every step that gives the face up. */
  lemma CreatedPersonIsOnItsSession(steps: seq<Step>, r: nat, threshold: real, sim: Similarity)
    requires FaithfulRun(EmptySystem, steps, threshold, sim)
    requires var s := Run(EmptySystem, steps, threshold, sim); r < |s.requests| && MadePerson(s.requests[r])
    ensures var s := Run(EmptySystem, steps, threshold, sim);
            var a := s.requests[r].session;
            && a < |s.rows|
            && (s.rows[a].naming == Named <==>
                  exists i: nat :: i < |steps| && steps[i] == Settles(r) && ReportsAt(steps, i, a, threshold, sim)
                    && forall j: nat :: j < i ==> !GivesUpAt(steps, j, a, threshold, sim))
            && (s.rows[a].naming == Named ==> s.rows[a].person == Some(s.requests[r].outcome.value.person))
  {
    var n, a := |steps|, Run(EmptySystem, steps, threshold, sim).requests[r].session;
    assert steps[..n] == steps;
    RunKeepsInv(EmptySystem, steps, threshold, sim);
    assert RequestOk(Run(EmptySystem, steps, threshold, sim), Run(EmptySystem, steps, threshold, sim).requests[r]);
    FirstVerdictDecides(steps, n, a, threshold, sim);
    NamedAfterItsRequest(Run(EmptySystem, steps, threshold, sim), r);
    if ReportedFirst(steps, n, a, threshold, sim) {
      var i: nat :| i < n && ReportsAt(steps, i, a, threshold, sim)
                    && forall j: nat :: j < i ==> !GivesUpAt(steps, j, a, threshold, sim);
      RequestsStay(steps, i, n, steps[i].request, threshold, sim);
      SessionCreatesOnePerson(steps, threshold, sim, steps[i].request, r);
    }
  }

  /** If the answer of a successful enrollment is lost, the retry finds the captures
      consumed: the session ends as discarded although its person exists. */
  lemma LostAnswerDiscardsANamedPerson(
    s: System, r: nat, name: string, now: real, found: map<CaptureId, seq<nat>>, threshold: real, sim: Similarity)
    requires Inv(s) && Answers(s.store, found, sim) && 1 <= |name| <= MaximumName
    requires r < |s.requests| && MadePerson(s.requests[r])
    requires s.rows[s.requests[r].session].naming == PendingName
    ensures var a := s.requests[r].session;
            var retry := |s.requests|;
            var end := Settle(Enrolls(Ask(s, a, name), retry, now, found, threshold, sim), retry);
            && end.rows[a].naming == Discarded && end.rows[a].person.None? == s.rows[a].person.None?
            && BuiltFrom(end.store, s.requests[r].outcome.value.person, end.rows[a].captures)
  {
    assert RequestOk(s, s.requests[r]);
    var ids := s.requests[r].captures;
    var asked := Ask(s, s.requests[r].session, name);
    assert ids[0] in Sources(s.store, s.requests[r].outcome.value.person);
    DedupeIs(ids);
    assert ids[0] in Dedupe(ids) && ids[0] !in Fresh(s.store.staged, now);
    var i :| 0 <= i < |Dedupe(ids)| && Dedupe(ids)[i] == ids[0];
  }
}
