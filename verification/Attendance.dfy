/** Attendance sessions from gate crossings, and the time they add up to
    (apexfabric/control_plane/reporting.py). Times are reals in seconds. */
module Attendance {
  import opened Options

  type PersonId = nat

  datatype Crossing = Crossing(event: nat, time: real, place: nat)
  datatype Status = Open | Closed | ForcedClosed
  datatype Session = Session(
    person: PersonId, entry: Option<Crossing>, exit: Option<Crossing>, status: Status, duration: Option<real>)

  // ---------------------------------------------------------------- crossings

  predicate OpenFor(s: Session, person: PersonId) {
    s.person == person && s.status.Open? && s.entry.Some?
  }

  /** The open session of a person with the latest entry. */
  function LatestOpen(sessions: seq<Session>, person: PersonId): (k: Option<nat>)
    ensures k.Some? ==> k.value < |sessions| && OpenFor(sessions[k.value], person)
    ensures k.None? ==> forall i :: 0 <= i < |sessions| ==> !OpenFor(sessions[i], person)
  {
    if sessions == [] then None
    else
      var n := |sessions| - 1;
      var before := LatestOpen(sessions[..n], person);
      if OpenFor(sessions[n], person)
         && (before.None? || sessions[before.value].entry.value.time <= sessions[n].entry.value.time) then Some(n)
      else before
  }

  function Enter(sessions: seq<Session>, person: PersonId, c: Crossing): seq<Session> {
    if LatestOpen(sessions, person).Some? then sessions
    else sessions + [Session(person, Some(c), None, Open, None)]
  }

  function CloseAt(s: Session, c: Crossing): Session
    requires s.entry.Some?
  {
    s.(exit := Some(c), status := Closed, duration := Some(c.time - s.entry.value.time))
  }

  function Leave(sessions: seq<Session>, person: PersonId, c: Crossing): seq<Session> {
    var k := LatestOpen(sessions, person);
    if k.Some? && sessions[k.value].entry.value.time <= c.time then
      sessions[k.value := CloseAt(sessions[k.value], c)]
    else sessions + [Session(person, None, Some(c), Closed, None)]
  }

  predicate Stale(s: Session, cutoff: real) {
    s.status.Open? && s.entry.Some? && s.entry.value.time < cutoff
  }

  function SweptOne(s: Session, cutoff: real): Session {
    if Stale(s, cutoff) then s.(status := ForcedClosed) else s
  }

  function Swept(sessions: seq<Session>, cutoff: real): (r: seq<Session>)
    ensures |r| == |sessions| && forall i :: 0 <= i < |r| ==> r[i] == SweptOne(sessions[i], cutoff)
  {
    if sessions == [] then [] else Swept(sessions[..|sessions| - 1], cutoff) + [SweptOne(sessions[|sessions| - 1], cutoff)]
  }

  datatype Step =
    | Enters(person: PersonId, crossing: Crossing)
    | Leaves(person: PersonId, crossing: Crossing)
    | Sweeps(cutoff: real)

  function Next(sessions: seq<Session>, step: Step): seq<Session> {
    match step
    case Enters(person, c) => Enter(sessions, person, c)
    case Leaves(person, c) => Leave(sessions, person, c)
    case Sweeps(cutoff) => Swept(sessions, cutoff)
  }

  function Run(steps: seq<Step>): seq<Session> {
    if steps == [] then [] else Next(Run(steps[..|steps| - 1]), steps[|steps| - 1])
  }

  // ---------------------------------------------------------------- any order of crossings

  predicate ShapeOk(s: Session) {
    match s.status
    case Open => s.entry.Some? && s.exit.None? && s.duration.None?
    case ForcedClosed => s.entry.Some? && s.exit.None? && s.duration.None?
    case Closed =>
      && s.exit.Some?
      && (if s.entry.None? then s.duration.None?
          else s.entry.value.time <= s.exit.value.time
               && s.duration == Some(s.exit.value.time - s.entry.value.time))
  }

  ghost predicate WellKept(sessions: seq<Session>) {
    && (forall i :: 0 <= i < |sessions| ==> ShapeOk(sessions[i]))
    && (forall i, j, p :: 0 <= i < j < |sessions| && OpenFor(sessions[i], p) ==> !OpenFor(sessions[j], p))
  }

  /** In whatever order crossings arrive: at most one open session per person, and
      every pair closed with exit not before entry and the exact duration. */
  lemma {:induction false} RunIsWellKept(steps: seq<Step>)
    ensures WellKept(Run(steps))
  {
    if steps != [] {
      RunIsWellKept(steps[..|steps| - 1]);
    }
  }

  // ---------------------------------------------------------------- crossings in time order

  predicate IsOf(step: Step, person: PersonId) {
    !step.Sweeps? && step.person == person
  }

  /** One person's crossings, in time order; anyone else's in any order, sweeps anywhere. */
  ghost predicate TimeOrdered(steps: seq<Step>, person: PersonId) {
    forall i, j :: 0 <= i < j < |steps| && IsOf(steps[i], person) && IsOf(steps[j], person) ==>
      steps[i].crossing.time <= steps[j].crossing.time
  }

  predicate Complete(s: Session) {
    s.status.Closed? && s.entry.Some? && s.exit.Some? && s.entry.value.time <= s.exit.value.time
  }

  /** Completed sessions of the person, in row order, follow one another. */
  ghost predicate InSequence(sessions: seq<Session>, person: PersonId) {
    forall i, j :: 0 <= i < j < |sessions| && sessions[i].person == person && sessions[j].person == person
                   && Complete(sessions[i]) && sessions[j].entry.Some? ==>
      sessions[i].exit.value.time <= sessions[j].entry.value.time
  }

  ghost predicate UpTo(sessions: seq<Session>, person: PersonId, t: real) {
    forall i :: 0 <= i < |sessions| && sessions[i].person == person ==>
      && (sessions[i].entry.Some? ==> sessions[i].entry.value.time <= t)
      && (sessions[i].exit.Some? ==> sessions[i].exit.value.time <= t)
  }

  ghost predicate NoEntryAfterOpen(sessions: seq<Session>, person: PersonId) {
    forall i, j :: 0 <= i < j < |sessions| && OpenFor(sessions[i], person) && sessions[j].person == person ==>
      sessions[j].entry.None?
  }

  ghost predicate Ordered(sessions: seq<Session>, person: PersonId, t: real) {
    InSequence(sessions, person) && UpTo(sessions, person, t) && NoEntryAfterOpen(sessions, person)
  }

  lemma EnterKeepsOrder(sessions: seq<Session>, person: PersonId, c: Crossing, t: real)
    requires Ordered(sessions, person, t) && t <= c.time
    ensures Ordered(Enter(sessions, person, c), person, c.time)
  {
  }

  lemma LeaveKeepsOrder(sessions: seq<Session>, person: PersonId, c: Crossing, t: real)
    requires Ordered(sessions, person, t) && t <= c.time
    ensures Ordered(Leave(sessions, person, c), person, c.time)
  {
    var k := LatestOpen(sessions, person);
    var r := Leave(sessions, person, c);
    if k.Some? {
      forall i, j | 0 <= i < j < |r| && r[i].person == person && r[j].person == person
                    && Complete(r[i]) && r[j].entry.Some?
        ensures r[i].exit.value.time <= r[j].entry.value.time
      {
        if i != k.value {
          assert Complete(sessions[i]) && sessions[j].entry.Some?;
        }
      }
    }
  }

  lemma OthersKeepOrder(sessions: seq<Session>, step: Step, person: PersonId, t: real)
    requires Ordered(sessions, person, t) && !step.Sweeps? && step.person != person
    ensures Ordered(Next(sessions, step), person, t)
  {
  }

  lemma SweepKeepsOrder(sessions: seq<Session>, cutoff: real, person: PersonId, t: real)
    requires Ordered(sessions, person, t)
    ensures Ordered(Swept(sessions, cutoff), person, t)
  {
  }

  lemma {:induction false} RunIsInSequence(steps: seq<Step>, person: PersonId, t: real)
    requires TimeOrdered(steps, person)
    requires forall i :: 0 <= i < |steps| && IsOf(steps[i], person) ==> steps[i].crossing.time <= t
    ensures Ordered(Run(steps), person, t)
  {
    if steps != [] {
      var init, last := steps[..|steps| - 1], steps[|steps| - 1];
      var before := if IsOf(last, person) then last.crossing.time else t;
      assert forall i :: 0 <= i < |init| ==> init[i] == steps[i];
      RunIsInSequence(init, person, before);
      match last
      case Sweeps(cutoff) => SweepKeepsOrder(Run(init), cutoff, person, t);
      case Enters(p, c) =>
        if p == person { EnterKeepsOrder(Run(init), person, c, c.time); } else { OthersKeepOrder(Run(init), last, person, t); }
      case Leaves(p, c) =>
        if p == person { LeaveKeepsOrder(Run(init), person, c, c.time); } else { OthersKeepOrder(Run(init), last, person, t); }
    }
  }

  // ---------------------------------------------------------------- nothing is lost

  predicate ExitIs(s: Session, person: PersonId, c: Crossing) {
    s.person == person && s.exit == Some(c)
  }

  predicate EntryIs(s: Session, person: PersonId, c: Crossing) {
    s.person == person && s.entry == Some(c)
  }

  /** How many of the person's sessions end, and begin, with this crossing. */
  function ExitsAt(sessions: seq<Session>, person: PersonId, c: Crossing): nat {
    if sessions == [] then 0
    else ExitsAt(sessions[..|sessions| - 1], person, c) + if ExitIs(sessions[|sessions| - 1], person, c) then 1 else 0
  }

  function EntriesAt(sessions: seq<Session>, person: PersonId, c: Crossing): nat {
    if sessions == [] then 0
    else EntriesAt(sessions[..|sessions| - 1], person, c) + if EntryIs(sessions[|sessions| - 1], person, c) then 1 else 0
  }

  /** The person went in and has not come out since, nor been swept. */
  ghost predicate Inside(sessions: seq<Session>, person: PersonId) {
    exists i :: 0 <= i < |sessions| && OpenFor(sessions[i], person)
  }

  /** The person went in at `t` and is inside. */
  ghost predicate InsideSince(sessions: seq<Session>, person: PersonId, t: real) {
    exists i :: 0 <= i < |sessions| && OpenFor(sessions[i], person) && sessions[i].entry.value.time == t
  }

  /** How often the person left with this crossing. */
  function TimesLeft(steps: seq<Step>, person: PersonId, c: Crossing): nat {
    if steps == [] then 0
    else TimesLeft(steps[..|steps| - 1], person, c) + if steps[|steps| - 1] == Leaves(person, c) then 1 else 0
  }

  /** How often the person entered with it without being inside already. */
  ghost function TimesEntered(steps: seq<Step>, person: PersonId, c: Crossing): nat {
    if steps == [] then 0
    else
      var init := steps[..|steps| - 1];
      TimesEntered(init, person, c)
      + if steps[|steps| - 1] == Enters(person, c) && !Inside(Run(init), person) then 1 else 0
  }

  lemma AppendedCrossings(sessions: seq<Session>, s: Session, person: PersonId, c: Crossing)
    ensures ExitsAt(sessions + [s], person, c) == ExitsAt(sessions, person, c) + if ExitIs(s, person, c) then 1 else 0
    ensures EntriesAt(sessions + [s], person, c) == EntriesAt(sessions, person, c) + if EntryIs(s, person, c) then 1 else 0
  {
    assert (sessions + [s])[..|sessions|] == sessions;
  }

  /** A session that gets an exit keeps its entry. */
  lemma {:induction false} ClosedCrossings(sessions: seq<Session>, k: nat, s: Session, person: PersonId, c: Crossing)
    requires k < |sessions| && sessions[k].exit.None? && s.entry == sessions[k].entry && s.person == sessions[k].person
    ensures ExitsAt(sessions[k := s], person, c) == ExitsAt(sessions, person, c) + if ExitIs(s, person, c) then 1 else 0
    ensures EntriesAt(sessions[k := s], person, c) == EntriesAt(sessions, person, c)
  {
    var n := |sessions| - 1;
    if k < n {
      ClosedCrossings(sessions[..n], k, s, person, c);
      assert sessions[k := s][..n] == sessions[..n][k := s];
    } else {
      assert sessions[k := s][..n] == sessions[..n];
    }
  }

  lemma {:induction false} SweepingKeepsCrossings(sessions: seq<Session>, cutoff: real, person: PersonId, c: Crossing)
    ensures ExitsAt(Swept(sessions, cutoff), person, c) == ExitsAt(sessions, person, c)
    ensures EntriesAt(Swept(sessions, cutoff), person, c) == EntriesAt(sessions, person, c)
  {
    if sessions != [] {
      var n := |sessions| - 1;
      SweepingKeepsCrossings(sessions[..n], cutoff, person, c);
      assert Swept(sessions, cutoff)[..n] == Swept(sessions[..n], cutoff);
    }
  }

  lemma LeavingKeepsCrossings(sessions: seq<Session>, who: PersonId, d: Crossing, person: PersonId, c: Crossing)
    requires WellKept(sessions)
    ensures ExitsAt(Leave(sessions, who, d), person, c)
            == ExitsAt(sessions, person, c) + if who == person && c == d then 1 else 0
    ensures EntriesAt(Leave(sessions, who, d), person, c) == EntriesAt(sessions, person, c)
  {
    var k := LatestOpen(sessions, who);
    if k.Some? && sessions[k.value].entry.value.time <= d.time {
      ClosedCrossings(sessions, k.value, CloseAt(sessions[k.value], d), person, c);
    } else {
      AppendedCrossings(sessions, Session(who, None, Some(d), Closed, None), person, c);
    }
  }

  lemma EnteringKeepsCrossings(sessions: seq<Session>, who: PersonId, d: Crossing, person: PersonId, c: Crossing)
    ensures ExitsAt(Enter(sessions, who, d), person, c) == ExitsAt(sessions, person, c)
    ensures EntriesAt(Enter(sessions, who, d), person, c)
            == EntriesAt(sessions, person, c) + if who == person && c == d && !Inside(sessions, who) then 1 else 0
  {
    if LatestOpen(sessions, who).None? {
      AppendedCrossings(sessions, Session(who, Some(d), None, Open, None), person, c);
    }
  }

  /** In whatever order crossings and sweeps come: every exit ends one session of its person,
      and every entry made while not inside begins one; sessions hold no other crossings. */
  lemma {:induction false} NothingIsLost(steps: seq<Step>, person: PersonId, c: Crossing)
    ensures ExitsAt(Run(steps), person, c) == TimesLeft(steps, person, c)
    ensures EntriesAt(Run(steps), person, c) == TimesEntered(steps, person, c)
  {
    if steps != [] {
      var init, last := steps[..|steps| - 1], steps[|steps| - 1];
      NothingIsLost(init, person, c);
      RunIsWellKept(init);
      match last
      case Enters(who, d) => EnteringKeepsCrossings(Run(init), who, d, person, c);
      case Leaves(who, d) => LeavingKeepsCrossings(Run(init), who, d, person, c);
      case Sweeps(cutoff) => SweepingKeepsCrossings(Run(init), cutoff, person, c);
    }
  }

  lemma EnteringIsInside(sessions: seq<Session>, who: PersonId, c: Crossing, person: PersonId, t: real)
    ensures InsideSince(Enter(sessions, who, c), person, t)
            <==> InsideSince(sessions, person, t) || (who == person && t == c.time && !Inside(sessions, person))
  {
    var r := Enter(sessions, who, c);
    if LatestOpen(sessions, who).None? {
      assert r[|sessions|] == Session(who, Some(c), None, Open, None);
      assert forall i :: 0 <= i < |sessions| ==> r[i] == sessions[i];
    }
  }

  lemma LeavingIsOutside(sessions: seq<Session>, who: PersonId, c: Crossing, person: PersonId, t: real)
    requires WellKept(sessions)
    ensures InsideSince(Leave(sessions, who, c), person, t)
            <==> InsideSince(sessions, person, t) && (who == person ==> c.time < t)
  {
    var k, r := LatestOpen(sessions, who), Leave(sessions, who, c);
    assert forall i :: 0 <= i < |sessions| && Some(i) != k ==> r[i] == sessions[i];
    if i :| 0 <= i < |sessions| && OpenFor(sessions[i], person) && sessions[i].entry.value.time == t
            && (who == person ==> c.time < t) {
      assert who == person ==> k == Some(i);
      assert r[i] == sessions[i];
    }
    if i :| 0 <= i < |r| && OpenFor(r[i], person) && r[i].entry.value.time == t {
      assert i < |sessions| && r[i] == sessions[i];
      assert who == person ==> k == Some(i);
    }
  }

  /** Who is inside after a step, and since when: the one who just entered, unless inside
      already; not one who left at or after the time of entry; not one who entered before
      the cutoff of a sweep; and everybody else as before. */
  lemma InsideDecides(steps: seq<Step>, step: Step, person: PersonId, t: real)
    ensures var before, after := Run(steps), Run(steps + [step]);
            InsideSince(after, person, t) <==>
              match step
              case Enters(who, c) => InsideSince(before, person, t) || (who == person && t == c.time && !Inside(before, person))
              case Leaves(who, c) => InsideSince(before, person, t) && (who == person ==> c.time < t)
              case Sweeps(cutoff) => InsideSince(before, person, t) && cutoff <= t
  {
    assert (steps + [step])[..|steps|] == steps;
    RunIsWellKept(steps);
    var before := Run(steps);
    match step
    case Enters(who, c) => EnteringIsInside(before, who, c, person, t);
    case Leaves(who, c) => LeavingIsOutside(before, who, c, person, t);
    case Sweeps(cutoff) =>
      assert forall i :: 0 <= i < |before| ==> Run(steps + [step])[i] == SweptOne(before[i], cutoff);
  }
}
