/** Adding attendance up (apexfabric/control_plane/reporting.py): clipping each
    completed session to the report window and summing per person. */
module AttendanceReport {
  import opened Options
  import opened Attendance

  datatype Window = Window(start: Option<real>, end: Option<real>)
  datatype Row = Row(first: Option<real>, last: Option<real>, visits: nat, total: real, incomplete: nat)

  const NoVisits := Row(None, None, 0, 0.0, 0)

  function Later(a: real, b: real): real {
    if a < b then b else a
  }

  function Earlier(a: real, b: real): real {
    if b < a then b else a
  }

  function ClippedEntry(s: Session, w: Window): real
    requires Complete(s)
  {
    if w.start.Some? then Later(s.entry.value.time, w.start.value) else s.entry.value.time
  }

  function ClippedExit(s: Session, w: Window): real
    requires Complete(s)
  {
    if w.end.Some? then Earlier(s.exit.value.time, w.end.value) else s.exit.value.time
  }

  /** Whether a session contributes a visit. */
  predicate Counts(s: Session, w: Window) {
    Complete(s) && ClippedEntry(s, w) < ClippedExit(s, w)
  }

  function Length(s: Session, w: Window): (l: real)
    ensures l >= 0.0
  {
    if Counts(s, w) then ClippedExit(s, w) - ClippedEntry(s, w) else 0.0
  }

  function Add(row: Row, s: Session, w: Window): Row {
    if !Complete(s) then row.(incomplete := row.incomplete + 1)
    else if !Counts(s, w) then row
    else
      var entry, exit := ClippedEntry(s, w), ClippedExit(s, w);
      Row(
        Some(if row.first.None? then entry else Earlier(row.first.value, entry)),
        Some(if row.last.None? then exit else Later(row.last.value, exit)),
        row.visits + 1,
        row.total + (exit - entry),
        row.incomplete)
  }

  /** A person's row over these sessions. */
  function Summary(sessions: seq<Session>, person: PersonId, w: Window): Row {
    if sessions == [] then NoVisits
    else
      var before, s := Summary(sessions[..|sessions| - 1], person, w), sessions[|sessions| - 1];
      if s.person == person then Add(before, s, w) else before
  }

  /** Everyone registered gets a row, and nobody else. */
  method Aggregate(sessions: seq<Session>, registered: set<PersonId>, w: Window) returns (people: map<PersonId, Row>)
    ensures people.Keys == registered
    ensures forall p :: p in registered ==> people[p] == Summary(sessions, p, w)
  {
    people := map p | p in registered :: NoVisits;
    var i := 0;
    while i < |sessions|
      invariant 0 <= i <= |sessions|
      invariant people.Keys == registered
      invariant forall p :: p in registered ==> people[p] == Summary(sessions[..i], p, w)
    {
      assert sessions[..i + 1][..i] == sessions[..i];
      var s := sessions[i];
      if s.person in people {
        var row := people[s.person];
        if !Complete(s) {
          row := row.(incomplete := row.incomplete + 1);
        } else {
          var entry := if w.start.Some? then Later(s.entry.value.time, w.start.value) else s.entry.value.time;
          var exit := if w.end.Some? then Earlier(s.exit.value.time, w.end.value) else s.exit.value.time;
          if entry < exit {
            row := Row(
              Some(if row.first.None? then entry else Earlier(row.first.value, entry)),
              Some(if row.last.None? then exit else Later(row.last.value, exit)),
              row.visits + 1,
              row.total + (exit - entry),
              row.incomplete);
          }
        }
        people := people[s.person := row];
      }
      i := i + 1;
    }
    assert sessions[..i] == sessions;
  }

  // ---------------------------------------------------------------- order does not matter

  lemma AddCommutes(row: Row, a: Session, b: Session, w: Window)
    ensures Add(Add(row, a, w), b, w) == Add(Add(row, b, w), a, w)
  {
  }

  lemma {:induction false} MoveToEnd(before: seq<Session>, s: Session, after: seq<Session>, person: PersonId, w: Window)
    ensures Summary(before + [s] + after, person, w) == Summary(before + after + [s], person, w)
  {
    if after == [] {
      assert before + [s] + after == before + after + [s];
    } else {
      var init, last := after[..|after| - 1], after[|after| - 1];
      MoveToEnd(before, s, init, person, w);
      assert before + [s] + after == (before + [s] + init) + [last];
      assert before + after == (before + init) + [last];
      assert (before + [s] + after)[..|before| + |after|] == before + [s] + init;
      assert (before + after)[..|before| + |after| - 1] == before + init;
      assert (before + after + [s])[..|before| + |after|] == before + after;
      assert (before + init + [s])[..|before| + |after| - 1] == before + init;
      AddCommutes(Summary(before + init, person, w), s, last, w);
    }
  }

  lemma TakeOut(before: seq<Session>, s: Session, after: seq<Session>, rest: seq<Session>)
    requires multiset(before + [s] + after) == multiset(rest + [s])
    ensures multiset(before + after) == multiset(rest)
  {
    assert multiset(before + [s] + after) == multiset(before + after) + multiset{s};
    assert multiset(rest + [s]) == multiset(rest) + multiset{s};
    assert multiset(rest) == multiset(rest + [s]) - multiset{s};
    assert multiset(before + after) == multiset(before + [s] + after) - multiset{s};
  }

  lemma SummaryOfOneMore(sessions: seq<Session>, s: Session, person: PersonId, w: Window)
    ensures Summary(sessions + [s], person, w)
            == var before := Summary(sessions, person, w); if s.person == person then Add(before, s, w) else before
  {
    assert (sessions + [s])[..|sessions|] == sessions;
  }

  /** A person's row depends only on which sessions there are, not on their order. */
  lemma {:induction false} OrderDoesNotMatter(a: seq<Session>, b: seq<Session>, person: PersonId, w: Window)
    requires multiset(a) == multiset(b)
    ensures Summary(a, person, w) == Summary(b, person, w)
    decreases |a|
  {
    if a == [] {
      assert |multiset(b)| == 0;
    } else {
      var init, s := a[..|a| - 1], a[|a| - 1];
      assert a == init + [s];
      assert s in multiset(b);
      var k :| 0 <= k < |b| && b[k] == s;
      var before, after := b[..k], b[k + 1..];
      assert b == before + [s] + after;
      TakeOut(before, s, after, init);
      OrderDoesNotMatter(init, before + after, person, w);
      MoveToEnd(before, s, after, person, w);
      SummaryOfOneMore(before + after, s, person, w);
      SummaryOfOneMore(init, s, person, w);
    }
  }

  // ---------------------------------------------------------------- additivity

  lemma LengthSplits(s: Session, a: real, b: real, c: real)
    requires a <= b <= c
    ensures Length(s, Window(Some(a), Some(c))) == Length(s, Window(Some(a), Some(b))) + Length(s, Window(Some(b), Some(c)))
  {
  }

  lemma AddTotal(row: Row, s: Session, w: Window)
    ensures Add(row, s, w).total == row.total + Length(s, w)
  {
  }

  /** The time in a window is the time in its two halves. */
  lemma {:induction false} TotalsAdd(sessions: seq<Session>, person: PersonId, a: real, b: real, c: real)
    requires a <= b <= c
    ensures Summary(sessions, person, Window(Some(a), Some(c))).total
            == Summary(sessions, person, Window(Some(a), Some(b))).total
               + Summary(sessions, person, Window(Some(b), Some(c))).total
  {
    if sessions != [] {
      var init, s := sessions[..|sessions| - 1], sessions[|sessions| - 1];
      TotalsAdd(init, person, a, b, c);
      LengthSplits(s, a, b, c);
      AddTotal(Summary(init, person, Window(Some(a), Some(c))), s, Window(Some(a), Some(c)));
      AddTotal(Summary(init, person, Window(Some(a), Some(b))), s, Window(Some(a), Some(b)));
      AddTotal(Summary(init, person, Window(Some(b), Some(c))), s, Window(Some(b), Some(c)));
    }
  }

  // ---------------------------------------------------------------- the date filter

  /** The rows a dated report reads. */
  predicate InDate(s: Session, start: real, end: real) {
    || (s.entry.Some? && s.exit.Some? && s.entry.value.time < end && s.exit.value.time >= start)
    || (s.entry.Some? && s.exit.None? && start <= s.entry.value.time < end)
    || (s.entry.None? && s.exit.Some? && start <= s.exit.value.time < end)
  }

  function OnDate(sessions: seq<Session>, start: real, end: real): seq<Session> {
    if sessions == [] then []
    else
      var s := sessions[|sessions| - 1];
      OnDate(sessions[..|sessions| - 1], start, end) + if InDate(s, start, end) then [s] else []
  }

  /** Filtering by date changes no one's total, visits, first entry or last exit:
      what the filter drops would have contributed nothing. Only incomplete sessions
      outside the day disappear. */
  lemma {:induction false} DateFilterIsExact(sessions: seq<Session>, person: PersonId, start: real, end: real)
    ensures var w := Window(Some(start), Some(end));
            var all, dated := Summary(sessions, person, w), Summary(OnDate(sessions, start, end), person, w);
            && dated == all.(incomplete := dated.incomplete)
            && dated.incomplete <= all.incomplete
  {
    if sessions != [] {
      var init, s := sessions[..|sessions| - 1], sessions[|sessions| - 1];
      DateFilterIsExact(init, person, start, end);
      var kept := OnDate(init, start, end);
      if InDate(s, start, end) {
        assert (kept + [s])[..|kept|] == kept;
      } else {
        assert OnDate(sessions, start, end) == kept;
      }
    }
  }

  // ---------------------------------------------------------------- what is counted

  /** A closed stay of which some time lies in the window. */
  predicate Visit(s: Session, person: PersonId, w: Window) {
    && s.person == person && s.status.Closed? && s.entry.Some? && s.exit.Some?
    && s.entry.value.time < s.exit.value.time
    && (w.start.Some? ==> w.start.value < s.exit.value.time)
    && (w.end.Some? ==> s.entry.value.time < w.end.value)
    && (w.start.Some? && w.end.Some? ==> w.start.value < w.end.value)
  }

  /** An instant of the day between the crossings of the session. */
  predicate During(t: real, s: Session, start: real, end: real)
    requires s.entry.Some? && s.exit.Some?
  {
    start <= t < end && s.entry.value.time <= t <= s.exit.value.time
  }

  /** A session that is open, forced closed, lacks a crossing or ends before it begins, and
      that the day knows of: by its only crossing, by an instant it covers, or, when it ends
      before it begins, by both crossings. */
  ghost predicate Unfinished(s: Session, person: PersonId, start: real, end: real) {
    && s.person == person
    && match (s.entry, s.exit)
       case (None, None) => false
       case (Some(c), None) => start <= c.time < end
       case (None, Some(c)) => start <= c.time < end
       case (Some(a), Some(b)) =>
         if a.time <= b.time then !s.status.Closed? && exists t :: During(t, s, start, end)
         else start <= b.time && a.time < end
  }

  lemma UnfinishedIsDated(s: Session, person: PersonId, start: real, end: real)
    requires start < end
    ensures Unfinished(s, person, start, end) <==> s.person == person && !Complete(s) && InDate(s, start, end)
  {
    if s.entry.Some? && s.exit.Some? && s.entry.value.time < end && s.exit.value.time >= start
       && s.entry.value.time <= s.exit.value.time {
      assert During(Later(s.entry.value.time, start), s, start, end);
    }
  }

  ghost function Visits(sessions: seq<Session>, person: PersonId, w: Window): set<nat> {
    set i: nat | i < |sessions| && Visit(sessions[i], person, w)
  }

  ghost function UnfinishedOn(sessions: seq<Session>, person: PersonId, start: real, end: real): set<nat> {
    set i: nat | i < |sessions| && Unfinished(sessions[i], person, start, end)
  }

  lemma {:induction false} VisitsAreCounted(sessions: seq<Session>, person: PersonId, w: Window)
    ensures Summary(sessions, person, w).visits == |Visits(sessions, person, w)|
  {
    if sessions != [] {
      var n := |sessions| - 1;
      VisitsAreCounted(sessions[..n], person, w);
      assert Visits(sessions, person, w)
             == Visits(sessions[..n], person, w) + if Visit(sessions[n], person, w) then {n} else {};
    }
  }

  lemma IncompleteOfOneMore(sessions: seq<Session>, s: Session, person: PersonId, start: real, end: real)
    ensures var w := Window(Some(start), Some(end));
            Summary(OnDate(sessions + [s], start, end), person, w).incomplete
            == Summary(OnDate(sessions, start, end), person, w).incomplete
               + if s.person == person && !Complete(s) && InDate(s, start, end) then 1 else 0
  {
    var kept := OnDate(sessions, start, end);
    assert (sessions + [s])[..|sessions|] == sessions;
    SummaryOfOneMore(kept, s, person, Window(Some(start), Some(end)));
    assert OnDate(sessions + [s], start, end) == if InDate(s, start, end) then kept + [s] else kept;
  }

  lemma UnfinishedOfOneMore(sessions: seq<Session>, s: Session, person: PersonId, start: real, end: real)
    ensures |UnfinishedOn(sessions + [s], person, start, end)|
            == |UnfinishedOn(sessions, person, start, end)| + if Unfinished(s, person, start, end) then 1 else 0
  {
    var n := |sessions|;
    assert forall i :: 0 <= i < n ==> (sessions + [s])[i] == sessions[i];
    assert UnfinishedOn(sessions + [s], person, start, end)
           == UnfinishedOn(sessions, person, start, end) + if Unfinished(s, person, start, end) then {n} else {};
  }

  lemma {:induction false} UnfinishedAreCounted(sessions: seq<Session>, person: PersonId, start: real, end: real)
    requires start < end
    ensures Summary(OnDate(sessions, start, end), person, Window(Some(start), Some(end))).incomplete
            == |UnfinishedOn(sessions, person, start, end)|
  {
    if sessions != [] {
      var init, s := sessions[..|sessions| - 1], sessions[|sessions| - 1];
      UnfinishedAreCounted(init, person, start, end);
      IncompleteOfOneMore(init, s, person, start, end);
      UnfinishedOfOneMore(init, s, person, start, end);
      UnfinishedIsDated(s, person, start, end);
      assert init + [s] == sessions;
    }
  }

  /** A day's row counts the stays of which some time lies in the day, and the unfinished
      sessions that the day knows of; a person who is still inside is one of them. */
  lemma DayCounts(sessions: seq<Session>, person: PersonId, start: real, end: real)
    requires start < end
    ensures var w := Window(Some(start), Some(end));
            var row := Summary(OnDate(sessions, start, end), person, w);
            && row.visits == |Visits(sessions, person, w)|
            && row.incomplete == |UnfinishedOn(sessions, person, start, end)|
  {
    VisitsAreCounted(sessions, person, Window(Some(start), Some(end)));
    DateFilterIsExact(sessions, person, start, end);
    UnfinishedAreCounted(sessions, person, start, end);
  }

  /** First entry and last exit are those of counted stays, clipped to the window, and none
      is earlier or later. */
  lemma {:induction false} FirstAndLast(sessions: seq<Session>, person: PersonId, w: Window)
    ensures var row, visits := Summary(sessions, person, w), Visits(sessions, person, w);
            && (row.first.Some? <==> visits != {}) && (row.last.Some? <==> visits != {})
            && (forall i :: i in visits ==>
                  row.first.value <= ClippedEntry(sessions[i], w) && ClippedExit(sessions[i], w) <= row.last.value)
            && (visits != {} ==>
                  && (exists i :: i in visits && row.first.value == ClippedEntry(sessions[i], w))
                  && (exists i :: i in visits && row.last.value == ClippedExit(sessions[i], w)))
  {
    if sessions != [] {
      var n := |sessions| - 1;
      FirstAndLast(sessions[..n], person, w);
      var before := Visits(sessions[..n], person, w);
      assert forall i :: i in before ==> sessions[..n][i] == sessions[i];
      assert Visits(sessions, person, w) == before + if Visit(sessions[n], person, w) then {n} else {};
    }
  }

  // ---------------------------------------------------------------- how much time fits

  /** The row is plausible: the time counted fits between first entry and last exit, inside the window. */
  ghost predicate Fits(row: Row, w: Window) {
    && (row.first.Some? <==> row.visits > 0) && (row.last.Some? <==> row.visits > 0)
    && (row.visits == 0 ==> row.total == 0.0)
    && (row.visits > 0 ==>
          && row.first.value < row.last.value && 0.0 < row.total <= row.last.value - row.first.value
          && (w.start.Some? ==> w.start.value <= row.first.value)
          && (w.end.Some? ==> row.last.value <= w.end.value))
  }

  lemma AddFits(row: Row, s: Session, w: Window)
    requires Fits(row, w)
    requires Counts(s, w) && row.visits > 0 ==> row.last.value <= s.entry.value.time
    ensures Fits(Add(row, s, w), w)
  {
  }

  /** A stay of the person that took time. */
  predicate Stay(s: Session, person: PersonId) {
    s.person == person && Complete(s) && s.entry.value.time < s.exit.value.time
  }

  /** Every exit counted so far is the exit of some stay. */
  lemma {:induction false} LastIsAnExit(sessions: seq<Session>, person: PersonId, w: Window)
    ensures var row := Summary(sessions, person, w);
            row.last.Some? ==> exists i :: 0 <= i < |sessions| && Stay(sessions[i], person)
                                 && row.last.value <= sessions[i].exit.value.time
  {
    if sessions != [] {
      var n := |sessions| - 1;
      LastIsAnExit(sessions[..n], person, w);
      var row := Summary(sessions[..n], person, w);
      if row.last.Some? {
        var i :| 0 <= i < n && Stay(sessions[..n][i], person)
                 && row.last.value <= sessions[..n][i].exit.value.time;
        assert sessions[i] == sessions[..n][i];
      }
    }
  }

  /** Stays follow one another in row order. */
  ghost predicate Chained(sessions: seq<Session>, person: PersonId) {
    forall i, j :: 0 <= i < j < |sessions| && Stay(sessions[i], person) && Stay(sessions[j], person) ==>
      sessions[i].exit.value.time <= sessions[j].entry.value.time
  }

  lemma {:induction false} ChainFits(sessions: seq<Session>, person: PersonId, w: Window)
    requires Chained(sessions, person)
    ensures Fits(Summary(sessions, person, w), w)
  {
    if sessions != [] {
      var n := |sessions| - 1;
      var init, s := sessions[..n], sessions[n];
      assert forall i :: 0 <= i < n ==> init[i] == sessions[i];
      ChainFits(init, person, w);
      LastIsAnExit(init, person, w);
      if s.person == person {
        AddFits(Summary(init, person, w), s, w);
      }
    }
  }

  // ---------------------------------------------------------------- exactly when it fits

  predicate Overlap(a: Session, b: Session, person: PersonId) {
    && Stay(a, person) && Stay(b, person)
    && a.entry.value.time < b.exit.value.time && b.entry.value.time < a.exit.value.time
  }

  ghost predicate NoOverlap(sessions: seq<Session>, person: PersonId) {
    forall i, j :: 0 <= i < j < |sessions| ==> !Overlap(sessions[i], sessions[j], person)
  }

  /** The stay that ends last, if there is any. */
  lemma {:induction false} LatestStay(sessions: seq<Session>, person: PersonId) returns (k: Option<nat>)
    ensures k.None? ==> forall i :: 0 <= i < |sessions| ==> !Stay(sessions[i], person)
    ensures k.Some? ==>
              && k.value < |sessions| && Stay(sessions[k.value], person)
              && forall i :: 0 <= i < |sessions| && Stay(sessions[i], person) ==>
                   sessions[i].exit.value.time <= sessions[k.value].exit.value.time
  {
    if sessions == [] {
      k := None;
    } else {
      var n := |sessions| - 1;
      k := LatestStay(sessions[..n], person);
      if Stay(sessions[n], person) && (k.None? || sessions[k.value].exit.value.time < sessions[n].exit.value.time) {
        k := Some(n);
      }
    }
  }

  /** Stays that do not overlap can be put in order. */
  lemma {:induction false} PutInOrder(sessions: seq<Session>, person: PersonId) returns (ordered: seq<Session>)
    requires NoOverlap(sessions, person)
    ensures multiset(ordered) == multiset(sessions) && Chained(ordered, person)
    decreases |sessions|
  {
    var k := LatestStay(sessions, person);
    if k.None? {
      return sessions;
    }
    var before, last, after := sessions[..k.value], sessions[k.value], sessions[k.value + 1..];
    assert sessions == before + [last] + after;
    WithoutOne(sessions, k.value, person);
    var rest := PutInOrder(before + after, person);
    ordered := rest + [last];
    forall i | 0 <= i < |rest| && Stay(rest[i], person) ensures rest[i].exit.value.time <= last.entry.value.time {
      assert rest[i] in multiset(before + after);
      BeforeTheLatest(sessions, k.value, rest[i], person);
    }
  }

  lemma WithoutOne(sessions: seq<Session>, k: nat, person: PersonId)
    requires NoOverlap(sessions, person) && k < |sessions|
    ensures NoOverlap(sessions[..k] + sessions[k + 1..], person)
  {
    var rest := sessions[..k] + sessions[k + 1..];
    assert forall i :: 0 <= i < |rest| ==> rest[i] == sessions[if i < k then i else i + 1];
  }

  lemma BeforeTheLatest(sessions: seq<Session>, k: nat, s: Session, person: PersonId)
    requires NoOverlap(sessions, person) && k < |sessions| && Stay(sessions[k], person)
    requires forall i :: 0 <= i < |sessions| && Stay(sessions[i], person) ==>
               sessions[i].exit.value.time <= sessions[k].exit.value.time
    requires Stay(s, person) && s in sessions[..k] + sessions[k + 1..]
    ensures s.exit.value.time <= sessions[k].entry.value.time
  {
    var rest := sessions[..k] + sessions[k + 1..];
    var i :| 0 <= i < |rest| && rest[i] == s;
    var at := if i < k then i else i + 1;
    assert sessions[at] == s;
    assert !Overlap(sessions[if at < k then at else k], sessions[if at < k then k else at], person);
  }

  lemma {:induction false} TotalHoldsOne(sessions: seq<Session>, person: PersonId, w: Window, i: nat)
    requires i < |sessions| && sessions[i].person == person
    ensures Summary(sessions, person, w).total >= Length(sessions[i], w)
  {
    var n := |sessions| - 1;
    AddTotal(Summary(sessions[..n], person, w), sessions[n], w);
    if i < n {
      TotalHoldsOne(sessions[..n], person, w, i);
    } else {
      TotalIsPositive(sessions[..n], person, w);
    }
  }

  lemma {:induction false} TotalIsPositive(sessions: seq<Session>, person: PersonId, w: Window)
    ensures Summary(sessions, person, w).total >= 0.0
  {
    if sessions != [] {
      TotalIsPositive(sessions[..|sessions| - 1], person, w);
      AddTotal(Summary(sessions[..|sessions| - 1], person, w), sessions[|sessions| - 1], w);
    }
  }

  lemma {:induction false} TotalHoldsTwo(sessions: seq<Session>, person: PersonId, w: Window, i: nat, j: nat)
    requires i < j < |sessions| && sessions[i].person == person && sessions[j].person == person
    ensures Summary(sessions, person, w).total >= Length(sessions[i], w) + Length(sessions[j], w)
  {
    var n := |sessions| - 1;
    AddTotal(Summary(sessions[..n], person, w), sessions[n], w);
    if j < n {
      TotalHoldsTwo(sessions[..n], person, w, i, j);
    } else {
      TotalHoldsOne(sessions[..n], person, w, i);
    }
  }

  /** In the window two stays share, their time is counted twice. */
  lemma OverlapDoesNotFit(sessions: seq<Session>, person: PersonId, i: nat, j: nat) returns (w: Window)
    requires i < j < |sessions| && Overlap(sessions[i], sessions[j], person)
    ensures !Fits(Summary(sessions, person, w), w)
  {
    var a, b := sessions[i], sessions[j];
    var start, end := Later(a.entry.value.time, b.entry.value.time), Earlier(a.exit.value.time, b.exit.value.time);
    w := Window(Some(start), Some(end));
    assert Length(a, w) == end - start && Length(b, w) == end - start;
    TotalHoldsTwo(sessions, person, w, i, j);
  }

  /** Whatever rows are stored, in whatever order: the time shown fits in every window
      exactly if no two stays of the person overlap. */
  lemma FitsExactly(sessions: seq<Session>, person: PersonId)
    ensures (forall w :: Fits(Summary(sessions, person, w), w)) <==> NoOverlap(sessions, person)
  {
    if NoOverlap(sessions, person) {
      var ordered := PutInOrder(sessions, person);
      forall w ensures Fits(Summary(sessions, person, w), w) {
        ChainFits(ordered, person, w);
        OrderDoesNotMatter(ordered, sessions, person, w);
      }
    } else {
      var i, j :| 0 <= i < j < |sessions| && Overlap(sessions[i], sessions[j], person);
      var w := OverlapDoesNotFit(sessions, person, i, j);
    }
  }

  /** When a person's crossings are recorded in time order, with sweeps anywhere, the
      time a report shows, for whatever rows order, fits between the first entry and
      the last exit shown, and inside the window. */
  lemma TimeFits(steps: seq<Step>, rows: seq<Session>, person: PersonId, w: Window)
    requires TimeOrdered(steps, person) && multiset(rows) == multiset(Run(steps))
    ensures Fits(Summary(rows, person, w), w)
  {
    var latest := LatestTime(steps, person);
    RunIsInSequence(steps, person, latest);
    ChainFits(Run(steps), person, w);
    OrderDoesNotMatter(rows, Run(steps), person, w);
  }

  lemma {:induction false} LatestTime(steps: seq<Step>, person: PersonId) returns (t: real)
    ensures forall i :: 0 <= i < |steps| && IsOf(steps[i], person) ==> steps[i].crossing.time <= t
  {
    if steps == [] {
      t := 0.0;
    } else {
      t := LatestTime(steps[..|steps| - 1], person);
      var last := steps[|steps| - 1];
      if IsOf(last, person) && t < last.crossing.time {
        t := last.crossing.time;
      }
    }
  }

  /** The report of one day: filtered, in any order, the time still fits into the day. */
  lemma DayFits(steps: seq<Step>, rows: seq<Session>, person: PersonId, start: real, end: real)
    requires TimeOrdered(steps, person) && start <= end && multiset(rows) == multiset(OnDate(Run(steps), start, end))
    ensures var row := Summary(rows, person, Window(Some(start), Some(end)));
            Fits(row, Window(Some(start), Some(end))) && 0.0 <= row.total <= end - start
  {
    var w := Window(Some(start), Some(end));
    TimeFits(steps, Run(steps), person, w);
    DateFilterIsExact(Run(steps), person, start, end);
    OrderDoesNotMatter(rows, OnDate(Run(steps), start, end), person, w);
  }

  lemma RunOfOneMore(steps: seq<Step>, step: Step)
    ensures Run(steps + [step]) == Next(Run(steps), step)
  {
    assert (steps + [step])[..|steps|] == steps;
  }

  lemma EnterWhenOut(sessions: seq<Session>, person: PersonId, c: Crossing)
    requires forall i :: 0 <= i < |sessions| ==> !OpenFor(sessions[i], person)
    ensures Enter(sessions, person, c) == sessions + [Session(person, Some(c), None, Open, None)]
  {
  }

  lemma LeaveWhenIn(sessions: seq<Session>, person: PersonId, entry: Crossing, c: Crossing)
    requires forall i :: 0 <= i < |sessions| ==> !OpenFor(sessions[i], person)
    requires entry.time <= c.time
    ensures Leave(sessions + [Session(person, Some(entry), None, Open, None)], person, c)
            == sessions + [CloseAt(Session(person, Some(entry), None, Open, None), c)]
  {
    var all := sessions + [Session(person, Some(entry), None, Open, None)];
    assert all[..|sessions|] == sessions;
  }

  /** Out of order it need not fit: a late pair can overlap an earlier one, and then
      more time is counted than passed between first entry and last exit. */
  lemma LateCrossingsOverlap()
    ensures exists steps :: Summary(Run(steps), 0, Window(None, None)) == Row(Some(5.0), Some(20.0), 2, 20.0, 0)
  {
    var c1, c2, c3, c4 := Crossing(1, 10.0, 0), Crossing(2, 20.0, 0), Crossing(3, 5.0, 0), Crossing(4, 15.0, 0);
    var first := CloseAt(Session(0, Some(c1), None, Open, None), c2);
    var second := CloseAt(Session(0, Some(c3), None, Open, None), c4);
    var one := [Enters(0, c1)];
    var two := one + [Leaves(0, c2)];
    var three := two + [Enters(0, c3)];
    var four := three + [Leaves(0, c4)];
    assert Run(two) == [first] by {
      RunOfOneMore([], Enters(0, c1));
      RunOfOneMore(one, Leaves(0, c2));
      assert [] + one == one;
      EnterWhenOut([], 0, c1);
      LeaveWhenIn([], 0, c1, c2);
    }
    assert Run(four) == [first] + [second] by {
      RunOfOneMore(two, Enters(0, c3));
      RunOfOneMore(three, Leaves(0, c4));
      EnterWhenOut([first], 0, c3);
      LeaveWhenIn([first], 0, c3, c4);
    }
    var w := Window(None, None);
    SummaryOfOneMore([], first, 0, w);
    SummaryOfOneMore([first], second, 0, w);
    assert [] + [first] == [first];
  }
}
