/** The identity tables, updated in place (apexfabric/control_plane/identity.py). */
module PersonStore {
  import opened Options
  import opened Identity

  class PersonTables {
    var persons: map<PersonId, Person>
    var vectors: seq<VectorRow>
    var staged: map<CaptureId, Capture>
    var events: set<CaptureId>
    var next: PersonId
    const dimension: nat
    const threshold: real
    const sim: Similarity

    constructor (dimension: nat, threshold: real, sim: Similarity)
      ensures View() == EmptyStore && Sound(View())
      ensures this.dimension == dimension && this.threshold == threshold && this.sim == sim
    {
      persons, vectors, staged, events, next := map[], [], map[], {}, 0;
      this.dimension, this.threshold, this.sim := dimension, threshold, sim;
    }

    function View(): Store
      reads this
    {
      Store(persons, vectors, staged, events, next)
    }

    method PurgeExpired(now: real)
      modifies this`staged
      ensures staged == Fresh(old(staged), now)
      ensures Sound(old(View())) ==> Sound(View())
    {
      staged := map c | c in staged && staged[c].capturedAt >= now - CaptureLifetime :: staged[c];
    }

    /** The candidates are inspected in order until one belongs to a named person. */
    method BestNamedMatch(face: Face, found: seq<nat>) returns (person: Option<PersonId>)
      requires InRange(View(), found)
      ensures person == Match(View(), face, found, threshold, sim)
    {
      var i := 0;
      while i < |found|
        invariant 0 <= i <= |found|
        invariant InRange(View(), found[i..])
        invariant BestNamed(View(), found) == BestNamed(View(), found[i..])
      {
        var row := vectors[found[i]];
        if row.person in persons && persons[row.person].named {
          return if sim(row.face, face) >= threshold then Some(row.person) else None;
        }
        i := i + 1;
      }
      person := None;
    }

    method ResolveSighting(event: CaptureId, face: Face, found: seq<nat>, at: real) returns (person: Option<PersonId>)
      requires InRange(View(), found)
      modifies this`persons, this`events
      ensures (View(), person) == Sight(old(View()), event, face, dimension, found, at, threshold, sim)
      ensures Sound(old(View())) ==> Sound(View())
    {
      person := None;
      if event in events {
        return;
      }
      var match_ := None;
      if ValidFace(face, dimension) {
        match_ := BestNamedMatch(face, found);
      }
      events := events + {event};
      if match_.Some? && match_.value in persons {
        persons := persons[match_.value := persons[match_.value].(lastSeen := at)];
        person := match_;
      }
    }

    method StageCapture(event: CaptureId, face: Face, found: seq<nat>, at: real)
      requires InRange(View(), found)
      modifies this`staged, this`events
      ensures View() == Stage(old(View()), event, face, dimension, found, at, threshold, sim)
      ensures Sound(old(View())) ==> Sound(View())
    {
      if event in events {
        return;
      }
      if ValidFace(face, dimension) {
        var matched := BestNamedMatch(face, found);
        PurgeExpired(at);
        if event !in staged {
          staged := staged[event := Capture(at, face, matched)];
        }
      }
      events := events + {event};
    }

    method DiscardCaptures(ids: seq<CaptureId>)
      modifies this`staged
      ensures View() == Discard(old(View()), ids)
      ensures Sound(old(View())) ==> Sound(View())
    {
      staged := staged - set c | c in ids;
    }

    method Deduplicate(ids: seq<CaptureId>) returns (kept: seq<CaptureId>)
      ensures kept == Dedupe(ids)
    {
      kept := [];
      var i := 0;
      while i < |ids|
        invariant 0 <= i <= |ids| && kept == Dedupe(ids[..i])
      {
        assert ids[..i + 1][..i] == ids[..i] && ids[..i + 1][i] == ids[i];
        if ids[i] !in kept {
          kept := kept + [ids[i]];
        }
        i := i + 1;
      }
      assert ids[..|ids|] == ids;
    }

    method FirstDuplicate(ids: seq<CaptureId>, found: map<CaptureId, seq<nat>>) returns (person: Option<PersonId>)
      requires forall c :: c in ids ==> c in staged && c in found && InRange(View(), found[c])
      ensures person == FirstMatch(View(), ids, found, threshold, sim)
    {
      var i := 0;
      while i < |ids|
        invariant 0 <= i <= |ids|
        invariant FirstMatch(View(), ids, found, threshold, sim) == FirstMatch(View(), ids[i..], found, threshold, sim)
      {
        person := BestNamedMatch(staged[ids[i]].face, found[ids[i]]);
        if person.Some? {
          return;
        }
        i := i + 1;
      }
      person := None;
    }

    method AllPresent(ids: seq<CaptureId>, kept: map<CaptureId, Capture>) returns (present: bool)
      ensures present <==> forall i :: 0 <= i < |ids| ==> ids[i] in kept
    {
      var i := 0;
      while i < |ids|
        invariant 0 <= i <= |ids|
        invariant forall j :: 0 <= j < i ==> ids[j] in kept
      {
        if ids[i] !in kept {
          return false;
        }
        i := i + 1;
      }
      present := true;
    }

    /** The new person's vectors and the time of the earliest capture. */
    method BuildVectors(kept: map<CaptureId, Capture>, ids: seq<CaptureId>, person: PersonId)
      returns (added: seq<VectorRow>, earliest: real)
      requires ids != [] && forall c :: c in ids ==> c in kept
      ensures added == VectorsOf(kept, ids, person) && earliest == EarliestOf(kept, ids)
    {
      added := [];
      earliest := kept[ids[0]].capturedAt;
      var i := 0;
      while i < |ids|
        invariant 0 <= i <= |ids|
        invariant added == VectorsOf(kept, ids, person)[..i]
        invariant earliest == if i == 0 then kept[ids[0]].capturedAt else EarliestOf(kept, ids[..i])
      {
        var capture := kept[ids[i]];
        added := added + [VectorRow(person, ids[i], capture.face, capture.capturedAt)];
        assert ids[..i + 1][..i] == ids[..i];
        if capture.capturedAt < earliest {
          earliest := capture.capturedAt;
        }
        i := i + 1;
      }
      assert ids[..|ids|] == ids;
    }

    /** Creates one named person from staged captures and consumes them; a refusal changes nothing. */
    method EnrollPerson(requested: seq<CaptureId>, name: string, now: real, found: map<CaptureId, seq<nat>>)
      returns (r: Result<PersonId, EnrollError>)
      requires forall c :: c in staged ==> c in found && InRange(View(), found[c])
      modifies this`persons, this`vectors, this`staged, this`next
      ensures match Enroll(old(View()), requested, name, now, found, threshold, sim)
              case Ok((store, person)) => View() == store && r == Ok(person)
              case Err(e) => View() == old(View()) && r == Err(e)
      ensures Sound(old(View())) && Answers(old(View()), found, sim) ==> Sound(View())
    {
      ghost var before := View();
      if !(1 <= |requested| <= MaximumCaptures && 1 <= |name| <= MaximumName) {
        return Err(Invalid);
      }
      var ids := Deduplicate(requested);
      DedupeIs(requested);
      r := EnrollDistinctCaptures(ids, Fresh(staged, now), name, now, found);
      if r.Ok? && Sound(before) && Answers(before, found, sim) {
        EnrollBuilds(before, requested, name, now, found, threshold, sim);
      }
    }

    method EnrollDistinctCaptures(
      ids: seq<CaptureId>, kept: map<CaptureId, Capture>, name: string, now: real, found: map<CaptureId, seq<nat>>)
      returns (r: Result<PersonId, EnrollError>)
      requires forall c :: c in kept ==> c in staged
      requires forall c :: c in staged ==> c in found && InRange(View(), found[c])
      requires ids != []
      modifies this`persons, this`vectors, this`staged, this`next
      ensures match EnrollDistinct(old(View()), ids, kept, name, now, found, threshold, sim)
              case Ok((store, person)) => View() == store && r == Ok(person)
              case Err(e) => View() == old(View()) && r == Err(e)
    {
      var present := AllPresent(ids, kept);
      if !present {
        return Err(UnknownCapture);
      }
      var duplicate := FirstDuplicate(ids, found);
      if duplicate.Some? {
        return Err(Duplicate(duplicate.value));
      }
      var added, earliest := BuildVectors(kept, ids, next);
      persons := persons[next := Person(name, true, earliest, now)];
      vectors := vectors + added;
      staged := kept - set c | c in ids;
      r := Ok(next);
      next := next + 1;
    }

    method DropUnnamed()
      modifies this`persons, this`vectors, this`staged
      ensures View() == PurgeUnnamed(old(View()))
      ensures Sound(old(View())) ==> Sound(View())
    {
      ghost var before := View();
      var kept: seq<VectorRow> := [];
      var i := 0;
      while i < |vectors|
        invariant 0 <= i <= |vectors|
        invariant kept + NamedRows(View(), vectors[i..]) == NamedRows(View(), vectors)
      {
        assert vectors[i..][0] == vectors[i] && vectors[i..][1..] == vectors[i + 1..];
        var person := vectors[i].person;
        if !(person in persons && !persons[person].named) {
          kept := kept + [vectors[i]];
        }
        i := i + 1;
      }
      assert kept == NamedRows(View(), vectors);
      vectors := kept;
      staged := map c | c in staged ::
        if staged[c].matched.Some? && staged[c].matched.value in persons && !persons[staged[c].matched.value].named
        then staged[c].(matched := None) else staged[c];
      persons := map p | p in persons && persons[p].named :: persons[p];
      if Sound(before) {
        PurgeRestoresTheGallery(before);
      }
    }
  }
}
