/** What one poll of a capture window decides (tvt_edge/enrollment.py, tvt_edge/service.py). */
module Capture {
  import opened Options

  type EventId = nat
  type PersonId = nat

  const MaximumCaptures := 5
  const SettleSeconds := 10
  const ClockTolerance := 15

  /** The optional quality block of an event. */
  datatype Sharpness = Missing | Unreadable | Measured(value: real)

  datatype Event = Event(
    id: EventId, deployment: string, kind: string, application: string, camera: string,
    at: Option<int>, sharpness: Sharpness)

  datatype Window = Window(
    deployment: string, camera: string, start: int, deadline: int, minimumSharpness: Option<real>)

  datatype Candidate = Candidate(id: EventId, at: int)

  predicate QualityPasses(sharpness: Sharpness, minimum: Option<real>) {
    minimum.None? || sharpness.Missing? || (sharpness.Measured? && sharpness.value >= minimum.value)
  }

  predicate Eligible(e: Event, w: Window) {
    && e.deployment == w.deployment
    && e.kind == "enrollment_capture_event"
    && e.application == "face_enrollment"
    && e.camera == w.camera
    && e.at.Some?
    && w.start - ClockTolerance <= e.at.value <= w.deadline + ClockTolerance
    && QualityPasses(e.sharpness, w.minimumSharpness)
  }

  predicate Before(a: Candidate, b: Candidate) {
    a.at < b.at || (a.at == b.at && a.id <= b.id)
  }

  function Insert(c: Candidate, sorted: seq<Candidate>): seq<Candidate> {
    if sorted == [] || Before(c, sorted[0]) then [c] + sorted
    else [sorted[0]] + Insert(c, sorted[1..])
  }

  /** Every eligible candidate, earliest first. */
  function Candidates(events: seq<Event>, w: Window): seq<Candidate> {
    if events == [] then []
    else if Eligible(events[0], w) then Insert(Candidate(events[0].id, events[0].at.value), Candidates(events[1..], w))
    else Candidates(events[1..], w)
  }

  predicate Attempted(events: seq<Event>, w: Window) {
    exists i :: 0 <= i < |events| && events[i].deployment == w.deployment && events[i].camera == w.camera
      && events[i].kind == "enrollment_capture_event" && events[i].application == "face_enrollment"
  }

  datatype Staged = Staged(id: EventId, matched: Option<PersonId>)

  function Accepted(candidates: seq<Candidate>, staged: seq<Staged>): seq<Candidate> {
    if candidates == [] then []
    else
      var rest := Accepted(candidates[1..], staged);
      if exists i :: 0 <= i < |staged| && staged[i].id == candidates[0].id then [candidates[0]] + rest else rest
  }

  function FirstMatched(staged: seq<Staged>): Option<PersonId> {
    if staged == [] then None
    else if staged[0].matched.Some? then staged[0].matched
    else FirstMatched(staged[1..])
  }

  function Ids(candidates: seq<Candidate>): (ids: seq<EventId>)
    ensures |ids| == |candidates| && forall i :: 0 <= i < |ids| ==> ids[i] == candidates[i].id
  {
    if candidates == [] then [] else [candidates[0].id] + Ids(candidates[1..])
  }

  datatype Verdict =
    | Waiting
    | Rejected
    | Expired
    | Captured(ids: seq<EventId>, duplicate: Option<PersonId>)

  /** The five earliest candidates, whose staged captures the identity plane is asked for. */
  function Requested(candidates: seq<Candidate>): seq<Candidate> {
    if |candidates| <= MaximumCaptures then candidates else candidates[..MaximumCaptures]
  }

  /** `answer` is None when the identity plane could not be reached. */
  function Decide(events: seq<Event>, w: Window, answer: Option<seq<Staged>>, now: int): Verdict {
    if answer.None? then (if now >= w.deadline then Expired else Waiting)
    else
      var accepted := Accepted(Candidates(events, w), answer.value);
      if accepted == [] then
        if now >= w.deadline then Expired else if Attempted(events, w) then Rejected else Waiting
      else if |accepted| < MaximumCaptures && now - accepted[0].at < SettleSeconds && now < w.deadline then Waiting
      else Captured(Ids(accepted), FirstMatched(answer.value))
  }

  // ---------------------------------------------------------------- what a verdict means

  ghost predicate Sorted(cs: seq<Candidate>) {
    forall i, j :: 0 <= i < j < |cs| ==> Before(cs[i], cs[j])
  }

  lemma {:induction false} InsertKeepsSorted(c: Candidate, sorted: seq<Candidate>)
    requires Sorted(sorted)
    ensures Sorted(Insert(c, sorted))
    ensures multiset(Insert(c, sorted)) == multiset(sorted) + multiset{c}
  {
    if sorted != [] && !Before(c, sorted[0]) {
      InsertKeepsSorted(c, sorted[1..]);
      assert sorted == [sorted[0]] + sorted[1..];
      forall x | x in Insert(c, sorted[1..]) ensures Before(sorted[0], x) {
        assert x in multiset(Insert(c, sorted[1..]));
      }
    }
  }

  /** The eligible events, as candidates, in the order they were reported. */
  function Reported(events: seq<Event>, w: Window): seq<Candidate> {
    if events == [] then []
    else if Eligible(events[0], w) then [Candidate(events[0].id, events[0].at.value)] + Reported(events[1..], w)
    else Reported(events[1..], w)
  }

  lemma {:induction false} CandidatesAreTheEligibleEvents(events: seq<Event>, w: Window)
    ensures Sorted(Candidates(events, w))
    ensures multiset(Candidates(events, w)) == multiset(Reported(events, w))
  {
    if events != [] {
      CandidatesAreTheEligibleEvents(events[1..], w);
      if Eligible(events[0], w) {
        InsertKeepsSorted(Candidate(events[0].id, events[0].at.value), Candidates(events[1..], w));
      }
    }
  }

  lemma {:induction false} ReportedIsEligible(events: seq<Event>, w: Window, c: Candidate)
    requires c in Reported(events, w)
    ensures exists e :: e in events && Eligible(e, w) && c == Candidate(e.id, e.at.value)
  {
    if Eligible(events[0], w) && c == Candidate(events[0].id, events[0].at.value) {
      assert events[0] in events;
    } else {
      ReportedIsEligible(events[1..], w, c);
    }
  }

  lemma {:induction false} AcceptedAreStaged(candidates: seq<Candidate>, staged: seq<Staged>)
    requires Sorted(candidates)
    ensures Sorted(Accepted(candidates, staged))
    ensures forall c :: c in Accepted(candidates, staged)
              <==> c in candidates && exists i :: 0 <= i < |staged| && staged[i].id == c.id
    ensures |Accepted(candidates, staged)| <= |candidates|
  {
    if candidates != [] {
      AcceptedAreStaged(candidates[1..], staged);
      assert candidates == [candidates[0]] + candidates[1..];
    }
  }

  ghost predicate DistinctIds(cs: seq<Candidate>) {
    forall i, j :: 0 <= i < j < |cs| ==> cs[i].id != cs[j].id
  }

  ghost predicate Among(candidates: seq<Candidate>, n: nat, id: EventId) {
    exists j :: 0 <= j < n && j < |candidates| && candidates[j].id == id
  }

  /** Asked for five captures, a poll accepts five at most. */
  lemma {:induction false} AcceptedIsBounded(candidates: seq<Candidate>, staged: seq<Staged>, n: nat)
    requires DistinctIds(candidates) && n <= |candidates|
    requires forall i :: 0 <= i < |staged| ==> Among(candidates, n, staged[i].id)
    ensures |Accepted(candidates, staged)| <= n
  {
    if n == 0 {
      NothingStaged(candidates, staged);
    } else {
      var rest := candidates[1..];
      var others := Others(staged, candidates[0].id);
      forall k | 0 <= k < |others| ensures Among(rest, n - 1, others[k].id) {
        assert others[k] in others;
        var i :| 0 <= i < |staged| && staged[i] == others[k];
        assert Among(candidates, n, staged[i].id);
        var j :| 0 <= j < n && candidates[j].id == staged[i].id;
        assert rest[j - 1].id == staged[i].id;
      }
      AcceptedIgnores(rest, staged, candidates[0].id);
      AcceptedIsBounded(rest, others, n - 1);
    }
  }

  function Others(staged: seq<Staged>, id: EventId): (r: seq<Staged>)
    ensures forall s :: s in r <==> s in staged && s.id != id
  {
    if staged == [] then []
    else if staged[0].id == id then Others(staged[1..], id)
    else [staged[0]] + Others(staged[1..], id)
  }

  lemma {:induction false} NothingStaged(candidates: seq<Candidate>, staged: seq<Staged>)
    requires staged == []
    ensures Accepted(candidates, staged) == []
  {
    if candidates != [] {
      NothingStaged(candidates[1..], staged);
    }
  }

  lemma {:induction false} AcceptedIgnores(candidates: seq<Candidate>, staged: seq<Staged>, id: EventId)
    requires forall i :: 0 <= i < |candidates| ==> candidates[i].id != id
    ensures Accepted(candidates, staged) == Accepted(candidates, Others(staged, id))
  {
    if candidates != [] {
      AcceptedIgnores(candidates[1..], staged, id);
      var c := candidates[0];
      if i :| 0 <= i < |staged| && staged[i].id == c.id {
        assert staged[i] in Others(staged, id);
      }
      if i :| 0 <= i < |Others(staged, id)| && Others(staged, id)[i].id == c.id {
        assert Others(staged, id)[i] in staged;
      }
    }
  }

  /** A captured verdict names one to five staged, eligible events, earliest first;
      it is reached exactly when there are five, ten seconds have passed since the
      first, or the window is over; and a window never stays open past its deadline. */
  lemma VerdictIsJustified(events: seq<Event>, w: Window, answer: Option<seq<Staged>>, now: int)
    requires DistinctIds(Candidates(events, w))
    requires answer.Some? ==>
               forall i :: 0 <= i < |answer.value| ==> answer.value[i].id in Ids(Requested(Candidates(events, w)))
    ensures var v := Decide(events, w, answer, now);
            && (v.Captured? ==>
                  && 1 <= |v.ids| <= 5
                  && (forall id :: id in v.ids ==>
                        && (exists e :: e in events && Eligible(e, w) && e.id == id)
                        && (exists i :: 0 <= i < |answer.value| && answer.value[i].id == id)))
            && (now >= w.deadline ==> v.Captured? || v.Expired?)
            && (v.Expired? ==> now >= w.deadline)
            && (answer.Some? && Accepted(Candidates(events, w), answer.value) != [] ==>
                  (v.Captured?
                   <==> || |Accepted(Candidates(events, w), answer.value)| == 5
                        || now >= Accepted(Candidates(events, w), answer.value)[0].at + 10
                        || now >= w.deadline))
  {
    if answer.Some? {
      var cs := Candidates(events, w);
      CandidatesAreTheEligibleEvents(events, w);
      AcceptedAreStaged(cs, answer.value);
      var n := |Requested(cs)|;
      forall i | 0 <= i < |answer.value| ensures exists j :: 0 <= j < n && cs[j].id == answer.value[i].id {
        var j :| 0 <= j < n && Ids(Requested(cs))[j] == answer.value[i].id;
        assert cs[j].id == answer.value[i].id;
      }
      AcceptedIsBounded(cs, answer.value, n);
      var accepted := Accepted(cs, answer.value);
      forall id | id in Ids(accepted)
        ensures exists e :: e in events && Eligible(e, w) && e.id == id
        ensures exists i :: 0 <= i < |answer.value| && answer.value[i].id == id
      {
        var k :| 0 <= k < |accepted| && accepted[k].id == id;
        assert accepted[k] in cs && accepted[k] in multiset(cs) && accepted[k] in Reported(events, w);
        ReportedIsEligible(events, w, accepted[k]);
      }
    }
  }

  // ---------------------------------------------------------------- which events are captured

  /** An event of the enrollment application on the camera of the window. */
  ghost predicate OfWindow(e: Event, w: Window) {
    && e.deployment == w.deployment && e.camera == w.camera
    && e.kind == "enrollment_capture_event" && e.application == "face_enrollment"
  }

  /** Reported from fifteen seconds before the window to fifteen seconds after it, and, where a
      sharpness is demanded, not measured below it and not unreadable. */
  ghost predicate Fits(e: Event, w: Window) {
    && OfWindow(e, w)
    && e.at.Some? && w.start - 15 <= e.at.value && e.at.value - 15 <= w.deadline
    && (w.minimumSharpness.Some? ==>
          !e.sharpness.Unreadable? && (e.sharpness.Measured? ==> e.sharpness.value >= w.minimumSharpness.value))
  }

  ghost predicate IsStaged(staged: seq<Staged>, id: EventId) {
    exists i :: 0 <= i < |staged| && staged[i].id == id
  }

  ghost predicate FitsAndIsStaged(events: seq<Event>, w: Window, staged: seq<Staged>, id: EventId) {
    IsStaged(staged, id) && exists e :: e in events && Fits(e, w) && e.id == id
  }

  lemma {:induction false} EligibleIsReported(events: seq<Event>, w: Window, e: Event)
    requires e in events && Eligible(e, w)
    ensures Candidate(e.id, e.at.value) in Reported(events, w)
  {
    if events[0] != e {
      assert events == [events[0]] + events[1..];
      EligibleIsReported(events[1..], w, e);
    }
  }

  /** Candidates stand by the time of their event, then by its identifier. */
  lemma EarliestFirst(events: seq<Event>, w: Window, i: nat, j: nat)
    requires i < j < |Candidates(events, w)|
    ensures var a, b := Candidates(events, w)[i], Candidates(events, w)[j];
            a.at < b.at || (a.at == b.at && a.id <= b.id)
  {
    CandidatesAreTheEligibleEvents(events, w);
  }

  lemma FitsIsEligible(e: Event, w: Window)
    ensures Fits(e, w) <==> Eligible(e, w)
  {
  }

  lemma AcceptedFits(events: seq<Event>, w: Window, staged: seq<Staged>, c: Candidate)
    requires c in Accepted(Candidates(events, w), staged)
    ensures FitsAndIsStaged(events, w, staged, c.id)
  {
    CandidatesAreTheEligibleEvents(events, w);
    AcceptedAreStaged(Candidates(events, w), staged);
    assert c in multiset(Candidates(events, w)) && c in multiset(Reported(events, w));
    ReportedIsEligible(events, w, c);
    var e :| e in events && Eligible(e, w) && c == Candidate(e.id, e.at.value);
    FitsIsEligible(e, w);
  }

  lemma FittingIsAccepted(events: seq<Event>, w: Window, staged: seq<Staged>, e: Event)
    requires e in events && Fits(e, w) && IsStaged(staged, e.id)
    ensures Candidate(e.id, e.at.value) in Accepted(Candidates(events, w), staged)
  {
    FitsIsEligible(e, w);
    CandidatesAreTheEligibleEvents(events, w);
    AcceptedAreStaged(Candidates(events, w), staged);
    EligibleIsReported(events, w, e);
    assert Candidate(e.id, e.at.value) in multiset(Reported(events, w));
  }

  lemma AcceptedExactly(events: seq<Event>, w: Window, staged: seq<Staged>, id: EventId)
    ensures id in Ids(Accepted(Candidates(events, w), staged)) <==> FitsAndIsStaged(events, w, staged, id)
  {
    var accepted := Accepted(Candidates(events, w), staged);
    if id in Ids(accepted) {
      var k :| 0 <= k < |accepted| && accepted[k].id == id;
      AcceptedFits(events, w, staged, accepted[k]);
    }
    if FitsAndIsStaged(events, w, staged, id) {
      var e :| e in events && Fits(e, w) && e.id == id;
      FittingIsAccepted(events, w, staged, e);
      var k :| 0 <= k < |accepted| && accepted[k] == Candidate(id, e.at.value);
      assert Ids(accepted)[k] == id;
    }
  }

  lemma AttemptedMeans(events: seq<Event>, w: Window)
    ensures Attempted(events, w) <==> exists e :: e in events && OfWindow(e, w)
  {
    if Attempted(events, w) {
      var i :| 0 <= i < |events| && events[i].deployment == w.deployment && events[i].camera == w.camera
        && events[i].kind == "enrollment_capture_event" && events[i].application == "face_enrollment";
      assert events[i] in events && OfWindow(events[i], w);
    }
    if e :| e in events && OfWindow(e, w) {
      var i :| 0 <= i < |events| && events[i] == e;
    }
  }

  lemma {:induction false} FirstMatchedIs(staged: seq<Staged>)
    ensures FirstMatched(staged).None? <==> forall i :: 0 <= i < |staged| ==> staged[i].matched.None?
    ensures FirstMatched(staged).Some? ==>
              exists i :: 0 <= i < |staged| && staged[i].matched == FirstMatched(staged)
                && forall j :: 0 <= j < i ==> staged[j].matched.None?
  {
    if staged != [] && staged[0].matched.None? {
      FirstMatchedIs(staged[1..]);
      if i :| 0 <= i < |staged[1..]| && staged[1..][i].matched == FirstMatched(staged)
              && forall j :: 0 <= j < i ==> staged[1..][j].matched.None? {
        assert staged[i + 1].matched == FirstMatched(staged);
        assert forall j :: 0 <= j < i + 1 ==> staged[j].matched.None?;
      }
      assert forall i :: 1 <= i < |staged| ==> staged[i] == staged[1..][i - 1];
    }
  }

  /** A capture consists of exactly the fitting events that are staged; it names the first
      person recognized among them, if any. A face is rejected exactly if, before the end of
      the window, the camera has reported one but none is accepted. */
  lemma VerdictDecides(events: seq<Event>, w: Window, answer: Option<seq<Staged>>, now: int)
    ensures var v := Decide(events, w, answer, now);
            && (v.Captured? ==>
                  && answer.Some?
                  && (forall id :: id in v.ids <==> FitsAndIsStaged(events, w, answer.value, id))
                  && (v.duplicate.None? <==> forall i :: 0 <= i < |answer.value| ==> answer.value[i].matched.None?)
                  && (v.duplicate.Some? ==>
                        exists i :: 0 <= i < |answer.value| && answer.value[i].matched == v.duplicate
                          && forall j :: 0 <= j < i ==> answer.value[j].matched.None?))
            && (v.Rejected? <==>
                  && answer.Some? && now < w.deadline
                  && (exists e :: e in events && OfWindow(e, w))
                  && !exists id :: FitsAndIsStaged(events, w, answer.value, id))
  {
    if answer.Some? {
      forall id ensures id in Ids(Accepted(Candidates(events, w), answer.value))
                        <==> FitsAndIsStaged(events, w, answer.value, id) {
        AcceptedExactly(events, w, answer.value, id);
      }
      FirstMatchedIs(answer.value);
      AttemptedMeans(events, w);
      var accepted := Accepted(Candidates(events, w), answer.value);
      if accepted != [] {
        assert Ids(accepted)[0] in Ids(accepted);
      }
    }
  }
}
