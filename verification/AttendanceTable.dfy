/** The attendance table updated in place by crossings and sweeps
    (apexfabric/control_plane/reporting.py). */
module AttendanceTable {
  import opened Options
  import opened Attendance
  import opened AttendanceReport

  class Table {
    var sessions: seq<Session>

    constructor ()
      ensures sessions == Run([]) && WellKept(sessions)
    {
      sessions := [];
    }

    /** An entry opens a session unless the person already has one open. */
    method RecordEntry(person: PersonId, c: Crossing)
      modifies this
      ensures sessions == Enter(old(sessions), person, c)
      ensures WellKept(old(sessions)) ==> WellKept(sessions)
    {
      var open := LatestOpen(sessions, person);
      if open.Some? {
        return;
      }
      sessions := sessions + [Session(person, Some(c), None, Open, None)];
    }

    /** An exit closes the open session, or stands alone when there is none or it began later. */
    method RecordExit(person: PersonId, c: Crossing)
      modifies this
      ensures sessions == Leave(old(sessions), person, c)
      ensures WellKept(old(sessions)) ==> WellKept(sessions)
    {
      var open := LatestOpen(sessions, person);
      if open.Some? && c.time >= sessions[open.value].entry.value.time {
        var s := sessions[open.value];
        s := s.(exit := Some(c));
        s := s.(status := Closed, duration := Some(c.time - s.entry.value.time));
        sessions := sessions[open.value := s];
      } else {
        sessions := sessions + [Session(person, None, Some(c), Closed, None)];
      }
    }

    /** Forces sessions closed that were opened before the cutoff. */
    method SweepStale(cutoff: real) returns (swept: nat)
      modifies this
      ensures sessions == Swept(old(sessions), cutoff)
      ensures WellKept(old(sessions)) ==> WellKept(sessions)
      ensures swept == |set i | 0 <= i < |old(sessions)| && Stale(old(sessions)[i], cutoff)|
    {
      swept := |set i | 0 <= i < |sessions| && Stale(sessions[i], cutoff)|;
      sessions := seq(|sessions|, i requires 0 <= i < |sessions| reads this => SweptOne(sessions[i], cutoff));
    }

    /** One day's rows for everyone registered. */
    method DayReport(registered: set<PersonId>, start: real, end: real) returns (people: map<PersonId, Row>)
      ensures people.Keys == registered
      ensures forall p :: p in registered ==>
                people[p] == Summary(OnDate(sessions, start, end), p, Window(Some(start), Some(end)))
    {
      people := Aggregate(OnDate(sessions, start, end), registered, Window(Some(start), Some(end)));
    }
  }
}
