/** The face gallery and the staged enrollment captures
    (apexfabric/control_plane/identity.py).

    The vector index is foreign: a lookup is any list of row positions that is a
    correct answer to "the 16 nearest rows", so ties may be broken either way. */
module Identity {
  import opened Options

  type PersonId = nat
  type CaptureId = nat
  type Face = seq<real>
  type Similarity = (Face, Face) -> real

  const Candidates := 16
  const MaximumCaptures := 16
  const CaptureLifetime := 1800.0
  const MaximumName := 160

  datatype Person = Person(name: string, named: bool, firstSeen: real, lastSeen: real)
  datatype VectorRow = VectorRow(person: PersonId, source: CaptureId, face: Face, capturedAt: real)
  datatype Capture = Capture(capturedAt: real, face: Face, matched: Option<PersonId>)

  /** `events` are the identifiers ingested so far; `next` is the next fresh person. */
  datatype Store = Store(
    persons: map<PersonId, Person>, vectors: seq<VectorRow>, staged: map<CaptureId, Capture>,
    events: set<CaptureId>, next: PersonId)

  const EmptyStore := Store(map[], [], map[], {}, 0)

  function Dot(a: Face, b: Face): real {
    if a == [] || b == [] then 0.0 else a[0] * b[0] + Dot(a[1..], b[1..])
  }

  /** The norm is within 0.01 of one. */
  predicate ValidFace(face: Face, dimension: nat) {
    |face| == dimension && 0.9801 <= Dot(face, face) <= 1.0201
  }

  // ---------------------------------------------------------------- the lookup

  ghost predicate IsNearest(vectors: seq<VectorRow>, face: Face, found: seq<nat>, sim: Similarity) {
    && |found| == (if |vectors| < Candidates then |vectors| else Candidates)
    && (forall i :: 0 <= i < |found| ==> found[i] < |vectors|)
    && (forall i, j :: 0 <= i < j < |found| ==> found[i] != found[j])
    && (forall i, j :: 0 <= i < j < |found| ==> sim(vectors[found[i]].face, face) >= sim(vectors[found[j]].face, face))
    && (forall i, v :: 0 <= i < |found| && 0 <= v < |vectors| && v !in found ==>
          sim(vectors[found[i]].face, face) >= sim(vectors[v].face, face))
  }

  predicate IsNamed(s: Store, v: nat)
    requires v < |s.vectors|
  {
    s.vectors[v].person in s.persons && s.persons[s.vectors[v].person].named
  }

  predicate InRange(s: Store, found: seq<nat>) {
    forall i :: 0 <= i < |found| ==> found[i] < |s.vectors|
  }

  /** The first candidate that belongs to a named person. */
  function BestNamed(s: Store, found: seq<nat>): Option<nat>
    requires InRange(s, found)
    ensures BestNamed(s, found).Some? ==> BestNamed(s, found).value in found && IsNamed(s, BestNamed(s, found).value)
    ensures BestNamed(s, found).None? ==> forall i :: 0 <= i < |found| ==> !IsNamed(s, found[i])
  {
    if found == [] then None
    else if IsNamed(s, found[0]) then Some(found[0])
    else BestNamed(s, found[1..])
  }

  function MatchAt(s: Store, face: Face, best: Option<nat>, threshold: real, sim: Similarity): Option<PersonId>
    requires best.Some? ==> best.value < |s.vectors|
  {
    match best
    case Some(v) => if sim(s.vectors[v].face, face) >= threshold then Some(s.vectors[v].person) else None
    case None => None
  }

  /** The person that a face is recognized as. */
  function Match(s: Store, face: Face, found: seq<nat>, threshold: real, sim: Similarity): Option<PersonId>
    requires InRange(s, found)
  {
    MatchAt(s, face, BestNamed(s, found), threshold, sim)
  }

  /** What the lookup stands for: the most similar vector of any named person. */
  ghost predicate IsBest(s: Store, face: Face, best: Option<nat>, sim: Similarity) {
    match best
    case None => forall v :: 0 <= v < |s.vectors| ==> !IsNamed(s, v)
    case Some(b) =>
      && b < |s.vectors| && IsNamed(s, b)
      && forall v :: 0 <= v < |s.vectors| && IsNamed(s, v) ==>
           sim(s.vectors[b].face, face) >= sim(s.vectors[v].face, face)
  }

  function Unnamed(s: Store): set<nat> {
    set v | 0 <= v < |s.vectors| && !IsNamed(s, v)
  }

  function Elements(found: seq<nat>): set<nat> {
    if found == [] then {} else {found[0]} + Elements(found[1..])
  }

  lemma {:induction false} ElementsAre(found: seq<nat>, v: nat)
    ensures v in Elements(found) <==> v in found
  {
    if found != [] {
      ElementsAre(found[1..], v);
      assert found == [found[0]] + found[1..];
    }
  }

  ghost predicate AllDistinct(found: seq<nat>) {
    forall i, j :: 0 <= i < j < |found| ==> found[i] != found[j]
  }

  lemma DistinctTail(found: seq<nat>)
    requires found != [] && AllDistinct(found)
    ensures AllDistinct(found[1..]) && found[0] !in found[1..]
  {
  }

  lemma {:induction false} DistinctElements(found: seq<nat>)
    requires AllDistinct(found)
    ensures |Elements(found)| == |found|
    ensures forall v :: v in Elements(found) <==> v in found
  {
    if found != [] {
      DistinctTail(found);
      DistinctElements(found[1..]);
    }
    forall v ensures v in Elements(found) <==> v in found {
      ElementsAre(found, v);
    }
  }

  lemma SubsetSize(a: set<nat>, b: set<nat>)
    requires a <= b
    ensures |a| <= |b|
  {
    assert b == a + (b - a);
  }

  lemma {:induction false} BestNamedIsFirst(s: Store, found: seq<nat>, face: Face, sim: Similarity, v: nat)
    requires InRange(s, found)
    requires forall i, j :: 0 <= i < j < |found| ==>
               sim(s.vectors[found[i]].face, face) >= sim(s.vectors[found[j]].face, face)
    requires v in found && IsNamed(s, v)
    ensures BestNamed(s, found).Some?
    ensures sim(s.vectors[BestNamed(s, found).value].face, face) >= sim(s.vectors[v].face, face)
  {
    if !IsNamed(s, found[0]) {
      BestNamedIsFirst(s, found[1..], face, sim, v);
    } else {
      var i :| 0 <= i < |found| && found[i] == v;
    }
  }

  ghost predicate HoldsNamed(s: Store) {
    exists v :: 0 <= v < |s.vectors| && IsNamed(s, v)
  }

  /** The vectors of nobody named that are at least as similar as every named one. */
  ghost function Ahead(s: Store, face: Face, sim: Similarity): set<nat> {
    set u | u in Unnamed(s)
      && forall v :: 0 <= v < |s.vectors| && IsNamed(s, v) ==> sim(s.vectors[u].face, face) >= sim(s.vectors[v].face, face)
  }

  /** Sixteen candidates find a named person if fewer than sixteen vectors are ahead. */
  lemma SomeNamedIsFound(s: Store, face: Face, found: seq<nat>, sim: Similarity)
    requires IsNearest(s.vectors, face, found, sim) && HoldsNamed(s) && |Ahead(s, face, sim)| < Candidates
    ensures BestNamed(s, found).Some?
  {
    if BestNamed(s, found).None? {
      var v :| 0 <= v < |s.vectors| && IsNamed(s, v);
      assert v !in found;
      if |found| < Candidates {
        AllFound(s.vectors, found);
      }
      DistinctElements(found);
      forall u | u in Elements(found) ensures u in Ahead(s, face, sim) {
        UnnamedFoundIsAhead(s, face, found, sim, u);
      }
      SubsetSize(Elements(found), Ahead(s, face, sim));
    }
  }

  lemma UnnamedFoundIsAhead(s: Store, face: Face, found: seq<nat>, sim: Similarity, u: nat)
    requires IsNearest(s.vectors, face, found, sim) && BestNamed(s, found).None? && u in found
    ensures u in Ahead(s, face, sim)
  {
    var i :| 0 <= i < |found| && found[i] == u;
    forall v | 0 <= v < |s.vectors| && IsNamed(s, v) ensures sim(s.vectors[u].face, face) >= sim(s.vectors[v].face, face) {
      assert v !in found;
    }
  }

  lemma FoundIsBest(s: Store, face: Face, found: seq<nat>, sim: Similarity)
    requires IsNearest(s.vectors, face, found, sim) && (HoldsNamed(s) ==> |Ahead(s, face, sim)| < Candidates)
    ensures IsBest(s, face, BestNamed(s, found), sim)
  {
    forall v | 0 <= v < |s.vectors| && IsNamed(s, v)
      ensures BestNamed(s, found).Some?
      ensures sim(s.vectors[BestNamed(s, found).value].face, face) >= sim(s.vectors[v].face, face)
    {
      SomeNamedIsFound(s, face, found, sim);
      if v in found {
        BestNamedIsFirst(s, found, face, sim, v);
      } else {
        var b := BestNamed(s, found).value;
        var i :| 0 <= i < |found| && found[i] == b;
      }
    }
  }

  lemma MostSimilar(vectors: seq<VectorRow>, face: Face, sim: Similarity, rows: set<nat>) returns (best: nat)
    requires rows != {} && forall u :: u in rows ==> u < |vectors|
    ensures best in rows
    ensures forall u :: u in rows ==> sim(vectors[best].face, face) >= sim(vectors[u].face, face)
  {
    best :| best in rows;
    if rows != {best} {
      var other := MostSimilar(vectors, face, sim, rows - {best});
      if sim(vectors[other].face, face) > sim(vectors[best].face, face) {
        best := other;
      }
    }
  }

  /** The `n` most similar of these rows, the most similar first. */
  lemma MostSimilarOf(vectors: seq<VectorRow>, face: Face, sim: Similarity, rows: set<nat>, n: nat) returns (found: seq<nat>)
    requires n <= |rows| && forall u :: u in rows ==> u < |vectors|
    ensures |found| == n && forall i :: 0 <= i < n ==> found[i] in rows
    ensures forall i, j :: 0 <= i < j < n ==> found[i] != found[j]
    ensures forall i, j :: 0 <= i < j < n ==> sim(vectors[found[i]].face, face) >= sim(vectors[found[j]].face, face)
    ensures forall i, u :: 0 <= i < n && u in rows && u !in found ==>
              sim(vectors[found[i]].face, face) >= sim(vectors[u].face, face)
    decreases n
  {
    found := [];
    if n > 0 {
      var best := MostSimilar(vectors, face, sim, rows);
      var rest := MostSimilarOf(vectors, face, sim, rows - {best}, n - 1);
      found := [best] + rest;
    }
  }

  /** Otherwise some correct answer of the index holds nobody named. */
  lemma SixteenAheadMask(s: Store, face: Face, sim: Similarity) returns (found: seq<nat>)
    requires |Ahead(s, face, sim)| >= Candidates && HoldsNamed(s)
    ensures IsNearest(s.vectors, face, found, sim) && BestNamed(s, found).None?
  {
    var ahead := Ahead(s, face, sim);
    BelowIs(|s.vectors|);
    SubsetSize(ahead, Below(|s.vectors|));
    found := MostSimilarOf(s.vectors, face, sim, ahead, Candidates);
    forall i, v | 0 <= i < |found| && 0 <= v < |s.vectors| && v !in found
      ensures sim(s.vectors[found[i]].face, face) >= sim(s.vectors[v].face, face)
    {
      assert found[i] in ahead;
      if !IsNamed(s, v) && v !in ahead {
        assert v in Unnamed(s);
        var w :| 0 <= w < |s.vectors| && IsNamed(s, w) && sim(s.vectors[v].face, face) < sim(s.vectors[w].face, face);
      }
    }
    assert forall i :: 0 <= i < |found| ==> found[i] in ahead;
  }

  /** Whatever the index answers, the lookup finds the most similar named vector. */
  ghost predicate FindsBest(s: Store, face: Face, sim: Similarity) {
    forall found :: IsNearest(s.vectors, face, found, sim) ==> IsBest(s, face, BestNamed(s, found), sim)
  }

  /** Sixteen candidates are as good as the whole gallery for a face exactly if fewer
      than sixteen vectors of nobody named are at least as similar to it as every named one. */
  lemma LookupDecides(s: Store, face: Face, sim: Similarity)
    ensures FindsBest(s, face, sim) <==> (HoldsNamed(s) ==> |Ahead(s, face, sim)| < Candidates)
  {
    if HoldsNamed(s) && |Ahead(s, face, sim)| >= Candidates {
      var found := SixteenAheadMask(s, face, sim);
      assert !IsBest(s, face, BestNamed(s, found), sim);
    } else {
      forall found | IsNearest(s.vectors, face, found, sim) ensures IsBest(s, face, BestNamed(s, found), sim) {
        FoundIsBest(s, face, found, sim);
      }
    }
  }

  lemma AheadIsUnnamed(s: Store, face: Face, sim: Similarity)
    ensures |Ahead(s, face, sim)| <= |Unnamed(s)|
  {
    SubsetSize(Ahead(s, face, sim), Unnamed(s));
  }

  /** Over all faces and similarities: a gallery that names somebody is searched
      faithfully exactly if fewer than sixteen of its vectors belong to nobody named. */
  lemma GalleryDecides(s: Store)
    requires HoldsNamed(s)
    ensures (forall face, sim: Similarity :: FindsBest(s, face, sim)) <==> |Unnamed(s)| < Candidates
  {
    if |Unnamed(s)| < Candidates {
      forall face, sim: Similarity ensures FindsBest(s, face, sim) {
        AheadIsUnnamed(s, face, sim);
        LookupDecides(s, face, sim);
      }
    } else {
      var alike: Similarity := (a, b) => 1.0;
      assert Ahead(s, [], alike) == Unnamed(s);
      LookupDecides(s, [], alike);
    }
  }

  lemma LookupIsExhaustive(s: Store, face: Face, found: seq<nat>, sim: Similarity)
    requires IsNearest(s.vectors, face, found, sim) && |Unnamed(s)| < Candidates
    ensures IsBest(s, face, BestNamed(s, found), sim)
  {
    AheadIsUnnamed(s, face, sim);
    FoundIsBest(s, face, found, sim);
  }

  lemma AllFound(vectors: seq<VectorRow>, found: seq<nat>)
    requires |found| == |vectors|
    requires forall i :: 0 <= i < |found| ==> found[i] < |vectors|
    requires forall i, j :: 0 <= i < j < |found| ==> found[i] != found[j]
    ensures forall v :: 0 <= v < |vectors| ==> v in found
  {
    DistinctElements(found);
    var all := Below(|vectors|);
    BelowIs(|vectors|);
    if v: nat :| v < |vectors| && v !in found {
      SubsetSize(Elements(found), all - {v});
    }
  }

  function Below(n: nat): set<nat> {
    if n == 0 then {} else Below(n - 1) + {n - 1}
  }

  lemma {:induction false} BelowIs(n: nat)
    ensures |Below(n)| == n
    ensures forall v: nat :: v in Below(n) <==> v < n
  {
    if n > 0 {
      BelowIs(n - 1);
    }
  }

  // ---------------------------------------------------------------- operations

  function Fresh(staged: map<CaptureId, Capture>, now: real): map<CaptureId, Capture> {
    map c | c in staged && staged[c].capturedAt >= now - CaptureLifetime :: staged[c]
  }

  /** A face event: a sighting is matched, an enrollment capture is only staged. */
  function Sight(s: Store, event: CaptureId, face: Face, dimension: nat, found: seq<nat>, at: real,
                 threshold: real, sim: Similarity): (Store, Option<PersonId>)
    requires InRange(s, found)
  {
    if event in s.events then (s, None)
    else
      var seen := s.(events := s.events + {event});
      if !ValidFace(face, dimension) then (seen, None)
      else
        var person := Match(s, face, found, threshold, sim);
        if person.Some? && person.value in s.persons then
          (seen.(persons := s.persons[person.value := s.persons[person.value].(lastSeen := at)]), person)
        else (seen, None)
  }

  function Stage(s: Store, event: CaptureId, face: Face, dimension: nat, found: seq<nat>, at: real,
                 threshold: real, sim: Similarity): Store
    requires InRange(s, found)
  {
    if event in s.events then s
    else
      var seen := s.(events := s.events + {event});
      if !ValidFace(face, dimension) then seen
      else
        var kept := Fresh(s.staged, at);
        if event in kept then seen.(staged := kept)
        else seen.(staged := kept[event := Capture(at, face, Match(s, face, found, threshold, sim))])
  }

  function Without(staged: map<CaptureId, Capture>, ids: seq<CaptureId>): map<CaptureId, Capture> {
    staged - set c | c in ids
  }

  function Discard(s: Store, ids: seq<CaptureId>): Store {
    s.(staged := Without(s.staged, ids))
  }

  /** Repeated identifiers count once, in the order they first appear. */
  function Dedupe(ids: seq<CaptureId>): seq<CaptureId> {
    if ids == [] then []
    else
      var before := Dedupe(ids[..|ids| - 1]);
      if ids[|ids| - 1] in before then before else before + [ids[|ids| - 1]]
  }

  lemma {:induction false} DedupeIs(ids: seq<CaptureId>)
    ensures forall c :: c in Dedupe(ids) <==> c in ids
    ensures forall i, j :: 0 <= i < j < |Dedupe(ids)| ==> Dedupe(ids)[i] != Dedupe(ids)[j]
    ensures ids != [] ==> Dedupe(ids) != []
  {
    if ids != [] {
      DedupeIs(ids[..|ids| - 1]);
      assert ids == ids[..|ids| - 1] + [ids[|ids| - 1]];
    }
  }

  datatype EnrollError = Invalid | UnknownCapture | Duplicate(person: PersonId)

  /** The new person's vectors, one for each capture. */
  function VectorsOf(staged: map<CaptureId, Capture>, ids: seq<CaptureId>, person: PersonId): (rows: seq<VectorRow>)
    requires forall c :: c in ids ==> c in staged
    ensures |rows| == |ids|
    ensures forall i :: 0 <= i < |ids| ==>
              rows[i] == VectorRow(person, ids[i], staged[ids[i]].face, staged[ids[i]].capturedAt)
  {
    seq(|ids|, i requires 0 <= i < |ids| => VectorRow(person, ids[i], staged[ids[i]].face, staged[ids[i]].capturedAt))
  }

  function EarliestOf(staged: map<CaptureId, Capture>, ids: seq<CaptureId>): (at: real)
    requires ids != [] && forall c :: c in ids ==> c in staged
    ensures forall c :: c in ids ==> at <= staged[c].capturedAt
    ensures exists c :: c in ids && at == staged[c].capturedAt
  {
    var last := staged[ids[|ids| - 1]].capturedAt;
    if |ids| == 1 then last
    else
      var earlier := EarliestOf(staged, ids[..|ids| - 1]);
      assert ids == ids[..|ids| - 1] + [ids[|ids| - 1]];
      if last < earlier then last else earlier
  }

  /** The first staged face that already belongs to somebody. */
  function FirstMatch(s: Store, ids: seq<CaptureId>, found: map<CaptureId, seq<nat>>, threshold: real, sim: Similarity)
    : Option<PersonId>
    requires forall c :: c in ids ==> c in s.staged && c in found
    requires forall c :: c in ids ==> InRange(s, found[c])
  {
    if ids == [] then None
    else
      var person := Match(s, s.staged[ids[0]].face, found[ids[0]], threshold, sim);
      if person.Some? then person else FirstMatch(s, ids[1..], found, threshold, sim)
  }

  /** The answers of the index, one lookup for each staged capture. */
  ghost predicate Answers(s: Store, found: map<CaptureId, seq<nat>>, sim: Similarity) {
    forall c :: c in s.staged ==> c in found && IsNearest(s.vectors, s.staged[c].face, found[c], sim)
  }

  /** Name staged captures: create one person from them and consume them, or fail
      and leave everything as it was. */
  function Enroll(s: Store, requested: seq<CaptureId>, name: string, now: real, found: map<CaptureId, seq<nat>>,
                  threshold: real, sim: Similarity): Result<(Store, PersonId), EnrollError>
    requires forall c :: c in s.staged ==> c in found && InRange(s, found[c])
  {
    if !(1 <= |requested| <= MaximumCaptures && 1 <= |name| <= MaximumName) then Err(Invalid)
    else EnrollDistinct(s, Dedupe(requested), Fresh(s.staged, now), name, now, found, threshold, sim)
  }

  function EnrollDistinct(
    s: Store, ids: seq<CaptureId>, kept: map<CaptureId, Capture>, name: string, now: real,
    found: map<CaptureId, seq<nat>>, threshold: real, sim: Similarity): Result<(Store, PersonId), EnrollError>
    requires forall c :: c in kept ==> c in s.staged
    requires forall c :: c in s.staged ==> c in found && InRange(s, found[c])
  {
    if exists i :: 0 <= i < |ids| && ids[i] !in kept then Err(UnknownCapture)
    else
      match FirstMatch(s, ids, found, threshold, sim)
      case Some(person) => Err(Duplicate(person))
      case None =>
        if ids == [] then Err(Invalid)
        else Ok((Created(s, ids, kept, Person(name, true, EarliestOf(kept, ids), now)), s.next))
  }

  /** Drop everybody who was never named, with their vectors. */
  function NamedRows(s: Store, rows: seq<VectorRow>): seq<VectorRow> {
    if rows == [] then []
    else if rows[0].person in s.persons && !s.persons[rows[0].person].named then NamedRows(s, rows[1..])
    else [rows[0]] + NamedRows(s, rows[1..])
  }

  function PurgeUnnamed(s: Store): Store {
    s.(persons := map p | p in s.persons && s.persons[p].named :: s.persons[p],
       vectors := NamedRows(s, s.vectors),
       staged := map c | c in s.staged :: if s.staged[c].matched.Some? && s.staged[c].matched.value in s.persons
                                             && !s.persons[s.staged[c].matched.value].named
                                          then s.staged[c].(matched := None) else s.staged[c])
  }

  // ---------------------------------------------------------------- what is kept

  /** Every vector belongs to a stored person, each ingested capture is the source
      of at most one vector, and a capture is not both staged and used. */
  ghost predicate Sound(s: Store) {
    && (forall p :: p in s.persons ==> p < s.next)
    && (forall v :: 0 <= v < |s.vectors| ==> s.vectors[v].person in s.persons)
    && (forall v, w :: 0 <= v < w < |s.vectors| ==> s.vectors[v].source != s.vectors[w].source)
    && (forall v :: 0 <= v < |s.vectors| ==> s.vectors[v].source in s.events && s.vectors[v].source !in s.staged)
    && (forall c :: c in s.staged ==> c in s.events)
  }

  ghost predicate AllNamed(s: Store) {
    forall v :: 0 <= v < |s.vectors| ==>
      s.vectors[v].person in s.persons && s.persons[s.vectors[v].person].named
  }

  /** Faces of different people are less similar than the threshold. */
  ghost predicate Separated(s: Store, threshold: real, sim: Similarity) {
    forall v, w :: 0 <= v < |s.vectors| && 0 <= w < |s.vectors| && s.vectors[v].person != s.vectors[w].person
      ==> sim(s.vectors[v].face, s.vectors[w].face) < threshold
  }

  ghost predicate Symmetric(sim: Similarity) {
    forall a, b :: sim(a, b) == sim(b, a)
  }

  ghost predicate Gallery(s: Store, threshold: real, sim: Similarity) {
    Sound(s) && AllNamed(s) && Separated(s, threshold, sim)
  }

  lemma NobodyUnnamed(s: Store)
    requires AllNamed(s)
    ensures |Unnamed(s)| < Candidates
  {
    assert Unnamed(s) == {};
  }

  /** No vector of the gallery reaches the threshold with the face. */
  ghost predicate Unlike(s: Store, face: Face, threshold: real, sim: Similarity) {
    forall v :: 0 <= v < |s.vectors| ==> sim(s.vectors[v].face, face) < threshold
  }

  /** The person owns a most similar vector, and that vector reaches the threshold. */
  ghost predicate Recognized(s: Store, face: Face, person: PersonId, threshold: real, sim: Similarity) {
    exists b :: 0 <= b < |s.vectors|
      && s.vectors[b].person == person
      && sim(s.vectors[b].face, face) >= threshold
      && forall v :: 0 <= v < |s.vectors| ==> sim(s.vectors[b].face, face) >= sim(s.vectors[v].face, face)
  }

  lemma MatchOfBest(s: Store, face: Face, best: Option<nat>, threshold: real, sim: Similarity)
    requires AllNamed(s) && IsBest(s, face, best, sim)
    ensures best.Some? ==> best.value < |s.vectors|
    ensures var r := MatchAt(s, face, best, threshold, sim);
            && (r.None? <==> Unlike(s, face, threshold, sim))
            && (r.Some? ==> Recognized(s, face, r.value, threshold, sim))
  {
    forall v | 0 <= v < |s.vectors|
      ensures best.Some? && sim(s.vectors[best.value].face, face) >= sim(s.vectors[v].face, face)
    {
      assert IsNamed(s, v);
    }
  }

  /** In a gallery of named people a face is recognized exactly if some vector
      reaches the threshold, and then as the owner of a most similar one. */
  lemma MatchIsExhaustive(s: Store, face: Face, found: seq<nat>, threshold: real, sim: Similarity)
    requires AllNamed(s) && InRange(s, found) && IsNearest(s.vectors, face, found, sim)
    ensures var r := Match(s, face, found, threshold, sim);
            && (r.None? <==> Unlike(s, face, threshold, sim))
            && (r.Some? ==> Recognized(s, face, r.value, threshold, sim))
  {
    NobodyUnnamed(s);
    LookupIsExhaustive(s, face, found, sim);
    MatchOfBest(s, face, BestNamed(s, found), threshold, sim);
  }

  /** What a sighting answers: in a gallery of named people, a valid face that some vector
      matches is answered with the owner of a most similar one, and only that person's
      last sighting moves, to the time of arrival; any other face is answered with nobody
      and touches nobody. */
  lemma SightingAnswers(
    s: Store, event: CaptureId, face: Face, dimension: nat, found: seq<nat>, at: real, threshold: real, sim: Similarity)
    requires Sound(s) && AllNamed(s) && event !in s.events
    requires InRange(s, found) && IsNearest(s.vectors, face, found, sim)
    ensures var (s', person) := Sight(s, event, face, dimension, found, at, threshold, sim);
            && (person.Some? <==> ValidFace(face, dimension) && !Unlike(s, face, threshold, sim))
            && (person.Some? ==> person.value in s.persons && Recognized(s, face, person.value, threshold, sim))
            && s'.persons.Keys == s.persons.Keys
            && (forall p :: p in s.persons ==>
                  s'.persons[p] == if person == Some(p) then s.persons[p].(lastSeen := at) else s.persons[p])
            && s'.vectors == s.vectors && s'.staged == s.staged && s'.next == s.next && s'.events == s.events + {event}
  {
    MatchIsExhaustive(s, face, found, threshold, sim);
  }

  /** What staging stores of a valid face: when it arrived, the face itself, and whom it
      matched, exactly if somebody. Of an invalid one it stores nothing. */
  lemma StagingStores(
    s: Store, event: CaptureId, face: Face, dimension: nat, found: seq<nat>, at: real, threshold: real, sim: Similarity)
    requires Sound(s) && AllNamed(s) && event !in s.events
    requires InRange(s, found) && IsNearest(s.vectors, face, found, sim)
    ensures var staged := Stage(s, event, face, dimension, found, at, threshold, sim).staged;
            && (event in staged <==> ValidFace(face, dimension))
            && (ValidFace(face, dimension) ==>
                  && staged[event].capturedAt == at && staged[event].face == face
                  && (staged[event].matched.None? <==> Unlike(s, face, threshold, sim))
                  && (staged[event].matched.Some? ==> Recognized(s, face, staged[event].matched.value, threshold, sim)))
  {
    MatchIsExhaustive(s, face, found, threshold, sim);
    assert event !in s.staged && event !in Fresh(s.staged, at);
  }

  /** Staging touches nobody, and drops exactly the captures of more than half an hour ago. */
  lemma StagingKeeps(
    s: Store, event: CaptureId, face: Face, dimension: nat, found: seq<nat>, at: real, threshold: real, sim: Similarity,
    c: CaptureId)
    requires Sound(s) && event !in s.events && c != event && InRange(s, found)
    ensures var s' := Stage(s, event, face, dimension, found, at, threshold, sim);
            && s'.persons == s.persons && s'.vectors == s.vectors && s'.next == s.next && s'.events == s.events + {event}
            && (c in s'.staged <==>
                  c in s.staged && (ValidFace(face, dimension) ==> at - s.staged[c].capturedAt <= 1800.0))
            && (c in s'.staged ==> s'.staged[c] == s.staged[c])
  {
  }

  /** None of the staged faces is like anybody in the gallery. */
  ghost predicate AllUnlike(s: Store, ids: seq<CaptureId>, threshold: real, sim: Similarity)
    requires forall c :: c in ids ==> c in s.staged
  {
    forall i :: 0 <= i < |ids| ==> Unlike(s, s.staged[ids[i]].face, threshold, sim)
  }

  lemma AllUnlikeStep(s: Store, ids: seq<CaptureId>, threshold: real, sim: Similarity)
    requires ids != [] && forall c :: c in ids ==> c in s.staged
    ensures forall c :: c in ids[1..] ==> c in s.staged
    ensures AllUnlike(s, ids, threshold, sim)
            <==> Unlike(s, s.staged[ids[0]].face, threshold, sim) && AllUnlike(s, ids[1..], threshold, sim)
  {
    if Unlike(s, s.staged[ids[0]].face, threshold, sim) && AllUnlike(s, ids[1..], threshold, sim) {
      forall i | 0 <= i < |ids| ensures Unlike(s, s.staged[ids[i]].face, threshold, sim) {
        assert i > 0 ==> ids[1..][i - 1] == ids[i];
      }
    }
    if AllUnlike(s, ids, threshold, sim) {
      forall i | 0 <= i < |ids[1..]| ensures Unlike(s, s.staged[ids[1..][i]].face, threshold, sim) {
        assert ids[1..][i] == ids[i + 1];
      }
    }
  }

  lemma {:induction false} NoneMatched(
    s: Store, ids: seq<CaptureId>, found: map<CaptureId, seq<nat>>, threshold: real, sim: Similarity)
    requires forall c :: c in ids ==> c in s.staged && c in found
    requires forall c :: c in ids ==> InRange(s, found[c]) && IsNearest(s.vectors, s.staged[c].face, found[c], sim)
    requires AllNamed(s)
    ensures FirstMatch(s, ids, found, threshold, sim).None? <==> AllUnlike(s, ids, threshold, sim)
  {
    if ids != [] {
      MatchIsExhaustive(s, s.staged[ids[0]].face, found[ids[0]], threshold, sim);
      AllUnlikeStep(s, ids, threshold, sim);
      NoneMatched(s, ids[1..], found, threshold, sim);
    }
  }

  /** The gallery depends on the vectors and on who owns them under which status. */
  ghost predicate SameGallery(s: Store, s': Store) {
    && s'.vectors == s.vectors
    && s'.persons.Keys == s.persons.Keys && s'.next == s.next
    && forall p :: p in s.persons ==> s'.persons[p].named == s.persons[p].named && s'.persons[p].name == s.persons[p].name
  }

  lemma SameGalleryKeeps(s: Store, s': Store, threshold: real, sim: Similarity)
    requires Gallery(s, threshold, sim) && SameGallery(s, s')
    requires s.events <= s'.events
    requires forall c :: c in s'.staged ==> c in s'.events && (c in s.staged || c !in s.events)
    ensures Gallery(s', threshold, sim)
  {
  }

  /** Sightings, captures and discards leave the gallery alone. */
  lemma OnlyEnrollmentGrowsTheGallery(
    s: Store, event: CaptureId, face: Face, dimension: nat, found: seq<nat>, at: real, ids: seq<CaptureId>,
    threshold: real, sim: Similarity)
    requires Gallery(s, threshold, sim) && InRange(s, found)
    ensures var sighted := Sight(s, event, face, dimension, found, at, threshold, sim).0;
            SameGallery(s, sighted) && Gallery(sighted, threshold, sim)
    ensures var staged := Stage(s, event, face, dimension, found, at, threshold, sim);
            SameGallery(s, staged) && Gallery(staged, threshold, sim)
    ensures SameGallery(s, Discard(s, ids)) && Gallery(Discard(s, ids), threshold, sim)
  {
    SameGalleryKeeps(s, Sight(s, event, face, dimension, found, at, threshold, sim).0, threshold, sim);
    SameGalleryKeeps(s, Stage(s, event, face, dimension, found, at, threshold, sim), threshold, sim);
    SameGalleryKeeps(s, Discard(s, ids), threshold, sim);
  }

  /** The store after creating one person from distinct staged captures. */
  function Created(s: Store, ids: seq<CaptureId>, kept: map<CaptureId, Capture>, person: Person): Store
    requires forall c :: c in ids ==> c in kept
  {
    s.(persons := s.persons[s.next := person],
       vectors := s.vectors + VectorsOf(kept, ids, s.next),
       staged := Without(kept, ids),
       next := s.next + 1)
  }

  ghost predicate Distinct(ids: seq<CaptureId>) {
    forall i, j :: 0 <= i < j < |ids| ==> ids[i] != ids[j]
  }

  lemma CreatedIsSound(s: Store, ids: seq<CaptureId>, kept: map<CaptureId, Capture>, person: Person)
    requires Sound(s) && Distinct(ids)
    requires forall c :: c in ids ==> c in kept
    requires forall c :: c in kept ==> c in s.staged && kept[c] == s.staged[c]
    ensures Sound(Created(s, ids, kept, person))
    ensures AllNamed(s) && person.named ==> AllNamed(Created(s, ids, kept, person))
  {
    var r := Created(s, ids, kept, person);
    var n := |s.vectors|;
    assert forall v :: n <= v < |r.vectors| ==> r.vectors[v].source == ids[v - n] && r.vectors[v].person == s.next;
    forall v, w | 0 <= v < w < |r.vectors| ensures r.vectors[v].source != r.vectors[w].source {
      if v < n <= w {
        assert ids[w - n] in s.staged;
      }
    }
    forall v | 0 <= v < |r.vectors| ensures r.vectors[v].source in r.events && r.vectors[v].source !in r.staged {
      if v >= n {
        assert ids[v - n] in s.staged;
      }
    }
  }

  lemma CreatedIsBuilt(s: Store, ids: seq<CaptureId>, kept: map<CaptureId, Capture>, person: Person)
    requires Sound(s) && person.named
    requires forall c :: c in ids ==> c in kept
    ensures BuiltFrom(Created(s, ids, kept, person), s.next, ids)
  {
    var r := Created(s, ids, kept, person);
    var n := |s.vectors|;
    assert forall v :: 0 <= v < n ==> r.vectors[v] == s.vectors[v] && s.vectors[v].person != s.next;
    assert forall v :: n <= v < |r.vectors| ==> r.vectors[v].source == ids[v - n] && r.vectors[v].person == s.next;
    forall c ensures c in Sources(r, s.next) <==> c in ids {
      if c in ids {
        var i :| 0 <= i < |ids| && ids[i] == c;
        assert r.vectors[n + i].source == c;
      }
    }
  }

  lemma CreatedIsSeparated(
    s: Store, ids: seq<CaptureId>, kept: map<CaptureId, Capture>, person: Person, threshold: real, sim: Similarity)
    requires Sound(s) && Separated(s, threshold, sim) && Symmetric(sim)
    requires forall c :: c in ids ==> c in kept
    requires forall i :: 0 <= i < |ids| ==> Unlike(s, kept[ids[i]].face, threshold, sim)
    ensures Separated(Created(s, ids, kept, person), threshold, sim)
  {
    var r := Created(s, ids, kept, person);
    var n := |s.vectors|;
    forall v, w | 0 <= v < |r.vectors| && 0 <= w < |r.vectors| && r.vectors[v].person != r.vectors[w].person
      ensures sim(r.vectors[v].face, r.vectors[w].face) < threshold
    {
      if v < n <= w {
        assert Unlike(s, kept[ids[w - n]].face, threshold, sim);
        assert r.vectors[v] == s.vectors[v];
      } else if w < n <= v {
        assert Unlike(s, kept[ids[v - n]].face, threshold, sim);
        assert r.vectors[w] == s.vectors[w];
        assert sim(r.vectors[v].face, r.vectors[w].face) == sim(r.vectors[w].face, r.vectors[v].face);
      }
    }
  }

  /** What creating a person from distinct staged captures establishes. */
  ghost predicate Builds(s: Store, s': Store, person: PersonId, requested: seq<CaptureId>) {
    && Sound(s') && person == s.next && person !in s.persons
    && BuiltFrom(s', person, requested)
    && s.vectors <= s'.vectors && s'.events == s.events
    && (forall v :: |s.vectors| <= v < |s'.vectors| ==> s'.vectors[v].person == person)
    && s'.persons == s.persons[person := s'.persons[person]]
    && (forall c :: c in requested ==> c in s.staged && c !in s'.staged)
  }

  lemma CreatedBuilds(
    s: Store, ids: seq<CaptureId>, kept: map<CaptureId, Capture>, person: Person, requested: seq<CaptureId>)
    requires Sound(s) && Distinct(ids) && person.named
    requires forall c :: c in requested <==> c in ids
    requires forall c :: c in ids ==> c in kept
    requires forall c :: c in kept ==> c in s.staged && kept[c] == s.staged[c]
    ensures Builds(s, Created(s, ids, kept, person), s.next, requested)
    ensures AllNamed(s) ==> AllNamed(Created(s, ids, kept, person))
  {
    CreatedIsSound(s, ids, kept, person);
    CreatedIsBuilt(s, ids, kept, person);
    assert (set c | c in ids) == (set c | c in requested);
  }

  /** Whatever the gallery, a successful enrollment creates one fresh named person
      from exactly the requested captures and consumes them. */
  lemma EnrollBuilds(
    s: Store, requested: seq<CaptureId>, name: string, now: real, found: map<CaptureId, seq<nat>>,
    threshold: real, sim: Similarity)
    requires Sound(s) && Answers(s, found, sim)
    requires Enroll(s, requested, name, now, found, threshold, sim).Ok?
    ensures var r := Enroll(s, requested, name, now, found, threshold, sim).value;
            Builds(s, r.0, r.1, requested) && (AllNamed(s) ==> AllNamed(r.0))
  {
    DedupeIs(requested);
    var ids := Dedupe(requested);
    var kept := Fresh(s.staged, now);
    CreatedBuilds(s, ids, kept, Person(name, true, EarliestOf(kept, ids), now), requested);
  }

  /** The person has the requested name, was first seen with the earliest capture and
      last seen at its enrollment. */
  ghost predicate NamedFrom(p: Person, name: string, now: real, staged: map<CaptureId, Capture>, requested: seq<CaptureId>)
    requires forall c :: c in requested ==> c in staged
  {
    && p.name == name && p.named && p.lastSeen == now
    && (forall c :: c in requested ==> p.firstSeen <= staged[c].capturedAt)
    && (exists c :: c in requested && p.firstSeen == staged[c].capturedAt)
  }

  /** From row n on: one vector for each requested capture, with its face and time. */
  ghost predicate VectorsFrom(vectors: seq<VectorRow>, n: nat, staged: map<CaptureId, Capture>, requested: seq<CaptureId>)
    requires forall c :: c in requested ==> c in staged
  {
    && (forall v :: n <= v < |vectors| ==>
          && vectors[v].source in requested
          && vectors[v].face == staged[vectors[v].source].face && vectors[v].capturedAt == staged[vectors[v].source].capturedAt)
    && (forall c :: c in requested ==> exists v :: n <= v < |vectors| && vectors[v].source == c)
  }

  lemma CreatedCarries(
    s: Store, ids: seq<CaptureId>, kept: map<CaptureId, Capture>, name: string, now: real, requested: seq<CaptureId>)
    requires ids != [] && forall c :: c in ids <==> c in requested
    requires forall c :: c in ids ==> c in kept
    requires forall c :: c in kept ==> c in s.staged && kept[c] == s.staged[c]
    ensures var s' := Created(s, ids, kept, Person(name, true, EarliestOf(kept, ids), now));
            && s.next in s'.persons && NamedFrom(s'.persons[s.next], name, now, s.staged, requested)
            && VectorsFrom(s'.vectors, |s.vectors|, s.staged, requested)
            && s'.staged.Keys == kept.Keys - (set c | c in requested)
            && forall c :: c in s'.staged ==> s'.staged[c] == s.staged[c]
  {
    var s' := Created(s, ids, kept, Person(name, true, EarliestOf(kept, ids), now));
    var first :| first in ids && EarliestOf(kept, ids) == kept[first].capturedAt;
    assert first in requested;
    forall v | |s.vectors| <= v < |s'.vectors|
      ensures s'.vectors[v].source in requested && s'.vectors[v].face == s.staged[s'.vectors[v].source].face
      ensures s'.vectors[v].capturedAt == s.staged[s'.vectors[v].source].capturedAt
    {
      assert ids[v - |s.vectors|] in ids;
    }
    forall c | c in requested ensures exists v :: |s.vectors| <= v < |s'.vectors| && s'.vectors[v].source == c {
      var i :| 0 <= i < |ids| && ids[i] == c;
      assert s'.vectors[|s.vectors| + i].source == c;
    }
  }

  lemma EnrollIsCreated(
    s: Store, requested: seq<CaptureId>, name: string, now: real, found: map<CaptureId, seq<nat>>,
    threshold: real, sim: Similarity)
    requires Sound(s) && Answers(s, found, sim)
    requires Enroll(s, requested, name, now, found, threshold, sim).Ok?
    ensures var ids, kept := Dedupe(requested), Fresh(s.staged, now);
            && 1 <= |requested| <= 16 && 1 <= |name| <= 160 && ids != []
            && (forall c :: c in ids <==> c in requested) && (forall c :: c in ids ==> c in kept)
            && Enroll(s, requested, name, now, found, threshold, sim).value
               == (Created(s, ids, kept, Person(name, true, EarliestOf(kept, ids), now)), s.next)
  {
    DedupeIs(requested);
    var ids, kept := Dedupe(requested), Fresh(s.staged, now);
    forall c | c in ids ensures c in kept {
      var i :| 0 <= i < |ids| && ids[i] == c;
    }
  }

  /** The person as named, its vectors, and of the other captures those of the last half hour. */
  ghost predicate EnrolledAs(s: Store, s': Store, person: PersonId, name: string, now: real, requested: seq<CaptureId>) {
    && (forall c :: c in requested ==> c in s.staged && now - s.staged[c].capturedAt <= 1800.0)
    && person in s'.persons && NamedFrom(s'.persons[person], name, now, s.staged, requested)
    && VectorsFrom(s'.vectors, |s.vectors|, s.staged, requested)
    && (forall c :: c in s'.staged <==>
          c in s.staged && now - s.staged[c].capturedAt <= 1800.0 && c !in requested)
    && (forall c :: c in s'.staged ==> s'.staged[c] == s.staged[c])
  }

  lemma CreatedIsEnrolledAs(s: Store, ids: seq<CaptureId>, name: string, now: real, requested: seq<CaptureId>)
    requires ids != [] && forall c :: c in ids <==> c in requested
    requires forall c :: c in ids ==> c in Fresh(s.staged, now)
    ensures var kept := Fresh(s.staged, now);
            EnrolledAs(s, Created(s, ids, kept, Person(name, true, EarliestOf(kept, ids), now)), s.next, name, now, requested)
  {
    CreatedCarries(s, ids, Fresh(s.staged, now), name, now, requested);
    assert forall c :: c in Fresh(s.staged, now) <==> c in s.staged && now - s.staged[c].capturedAt <= 1800.0;
  }

  /** What a successful enrollment stores. */
  lemma EnrolledCarries(
    s: Store, requested: seq<CaptureId>, name: string, now: real, found: map<CaptureId, seq<nat>>,
    threshold: real, sim: Similarity)
    requires Sound(s) && Answers(s, found, sim)
    requires Enroll(s, requested, name, now, found, threshold, sim).Ok?
    ensures 1 <= |requested| <= 16 && 1 <= |name| <= 160
    ensures var (s', person) := Enroll(s, requested, name, now, found, threshold, sim).value;
            EnrolledAs(s, s', person, name, now, requested)
  {
    EnrollIsCreated(s, requested, name, now, found, threshold, sim);
    CreatedIsEnrolledAs(s, Dedupe(requested), name, now, requested);
  }

  /** The capture is staged and not older than half an hour. */
  predicate Usable(s: Store, c: CaptureId, now: real) {
    c in s.staged && now - s.staged[c].capturedAt <= 1800.0
  }

  lemma UsableIsFresh(s: Store, c: CaptureId, now: real)
    ensures Usable(s, c, now) <==> c in Fresh(s.staged, now)
  {
  }

  /** One of the requested faces is recognized as the person. */
  ghost predicate OneIsRecognized(s: Store, requested: seq<CaptureId>, person: PersonId, threshold: real, sim: Similarity) {
    exists c :: c in requested && c in s.staged && Recognized(s, s.staged[c].face, person, threshold, sim)
  }

  /** A duplicate is reported for a person whom one of the faces is recognized as. */
  lemma {:induction false} FirstMatchIs(
    s: Store, ids: seq<CaptureId>, found: map<CaptureId, seq<nat>>, threshold: real, sim: Similarity)
    requires forall c :: c in ids ==> c in s.staged && c in found
    requires forall c :: c in ids ==> InRange(s, found[c]) && IsNearest(s.vectors, s.staged[c].face, found[c], sim)
    requires AllNamed(s) && FirstMatch(s, ids, found, threshold, sim).Some?
    ensures OneIsRecognized(s, ids, FirstMatch(s, ids, found, threshold, sim).value, threshold, sim)
  {
    MatchIsExhaustive(s, s.staged[ids[0]].face, found[ids[0]], threshold, sim);
    if Match(s, s.staged[ids[0]].face, found[ids[0]], threshold, sim).Some? {
      assert ids[0] in ids;
    } else {
      FirstMatchIs(s, ids[1..], found, threshold, sim);
    }
  }

  lemma MissingIsUnknown(
    s: Store, ids: seq<CaptureId>, name: string, now: real, found: map<CaptureId, seq<nat>>,
    threshold: real, sim: Similarity, i: nat)
    requires Answers(s, found, sim) && i < |ids| && !Usable(s, ids[i], now)
    ensures EnrollDistinct(s, ids, Fresh(s.staged, now), name, now, found, threshold, sim) == Err(UnknownCapture)
  {
    UsableIsFresh(s, ids[i], now);
  }

  lemma PresentDecides(
    s: Store, ids: seq<CaptureId>, name: string, now: real, found: map<CaptureId, seq<nat>>,
    threshold: real, sim: Similarity)
    requires AllNamed(s) && Answers(s, found, sim) && ids != []
    requires forall c :: c in ids ==> c in Fresh(s.staged, now)
    ensures var r := EnrollDistinct(s, ids, Fresh(s.staged, now), name, now, found, threshold, sim);
            if AllUnlike(s, ids, threshold, sim) then r.Ok?
            else r.Err? && r.error.Duplicate? && OneIsRecognized(s, ids, r.error.person, threshold, sim)
  {
    NoneMatched(s, ids, found, threshold, sim);
    if FirstMatch(s, ids, found, threshold, sim).Some? {
      FirstMatchIs(s, ids, found, threshold, sim);
    }
  }

  /** What becomes of a request to name staged captures, in a gallery of named people. */
  lemma EnrollDecides(
    s: Store, requested: seq<CaptureId>, name: string, now: real, found: map<CaptureId, seq<nat>>,
    threshold: real, sim: Similarity)
    requires Sound(s) && AllNamed(s) && Answers(s, found, sim)
    ensures var r := Enroll(s, requested, name, now, found, threshold, sim);
            if |requested| < 1 || |requested| > 16 || |name| < 1 || |name| > 160 then r == Err(Invalid)
            else if exists c :: c in requested && !Usable(s, c, now) then r == Err(UnknownCapture)
            else if forall c :: c in requested ==> Unlike(s, s.staged[c].face, threshold, sim) then r.Ok?
            else r.Err? && r.error.Duplicate? && OneIsRecognized(s, requested, r.error.person, threshold, sim)
  {
    DedupeIs(requested);
    var ids := Dedupe(requested);
    if c :| c in requested && !Usable(s, c, now) {
      var i :| 0 <= i < |ids| && ids[i] == c;
      MissingIsUnknown(s, ids, name, now, found, threshold, sim, i);
    } else if requested != [] {
      forall c | c in ids ensures c in Fresh(s.staged, now) {
        UsableIsFresh(s, c, now);
      }
      PresentDecides(s, ids, name, now, found, threshold, sim);
      assert AllUnlike(s, ids, threshold, sim) <==> forall c :: c in ids ==> Unlike(s, s.staged[c].face, threshold, sim);
    }
  }

  lemma EnrolledIsSeparated(
    s: Store, requested: seq<CaptureId>, name: string, now: real, found: map<CaptureId, seq<nat>>,
    threshold: real, sim: Similarity)
    requires Gallery(s, threshold, sim) && Answers(s, found, sim) && Symmetric(sim)
    requires Enroll(s, requested, name, now, found, threshold, sim).Ok?
    requires forall c :: c in requested ==> c in s.staged && Unlike(s, s.staged[c].face, threshold, sim)
    ensures Gallery(Enroll(s, requested, name, now, found, threshold, sim).value.0, threshold, sim)
  {
    EnrollBuilds(s, requested, name, now, found, threshold, sim);
    EnrollIsCreated(s, requested, name, now, found, threshold, sim);
    var ids, kept := Dedupe(requested), Fresh(s.staged, now);
    assert forall i :: 0 <= i < |ids| ==> ids[i] in requested;
    CreatedIsSeparated(s, ids, kept, Person(name, true, EarliestOf(kept, ids), now), threshold, sim);
  }

  /** Enrolling keeps different people apart, and it is refused exactly if a
      capture is missing or some face reaches the threshold with somebody's vector. */
  lemma EnrollKeepsGallery(
    s: Store, requested: seq<CaptureId>, name: string, now: real, found: map<CaptureId, seq<nat>>,
    threshold: real, sim: Similarity)
    requires Gallery(s, threshold, sim) && Answers(s, found, sim) && Symmetric(sim)
    requires 1 <= |requested| <= MaximumCaptures && 1 <= |name| <= MaximumName
    ensures var r := Enroll(s, requested, name, now, found, threshold, sim);
            && (r.Ok? ==> Gallery(r.value.0, threshold, sim))
            && (r.Ok? <==> forall c :: c in requested ==>
                  c in Fresh(s.staged, now) && Unlike(s, s.staged[c].face, threshold, sim))
  {
    EnrollDecides(s, requested, name, now, found, threshold, sim);
    forall c ensures Usable(s, c, now) <==> c in Fresh(s.staged, now) {
      UsableIsFresh(s, c, now);
    }
    if Enroll(s, requested, name, now, found, threshold, sim).Ok? {
      EnrolledIsSeparated(s, requested, name, now, found, threshold, sim);
    }
  }

  function Sources(s: Store, person: PersonId): set<CaptureId> {
    set v | 0 <= v < |s.vectors| && s.vectors[v].person == person :: s.vectors[v].source
  }

  /** The person exists and its vectors come from exactly these captures. */
  ghost predicate BuiltFrom(s: Store, person: PersonId, ids: seq<CaptureId>) {
    person in s.persons && s.persons[person].named && Sources(s, person) == set c | c in ids
  }

  lemma {:induction false} NamedRowsAre(s: Store, rows: seq<VectorRow>)
    ensures forall i :: 0 <= i < |NamedRows(s, rows)| ==>
              NamedRows(s, rows)[i] in rows
              && (NamedRows(s, rows)[i].person in s.persons ==> s.persons[NamedRows(s, rows)[i].person].named)
    ensures forall r :: r in rows && (r.person in s.persons ==> s.persons[r.person].named) ==> r in NamedRows(s, rows)
    ensures (forall i, j :: 0 <= i < j < |rows| ==> rows[i].source != rows[j].source) ==>
              forall i, j :: 0 <= i < j < |NamedRows(s, rows)| ==> NamedRows(s, rows)[i].source != NamedRows(s, rows)[j].source
  {
    if rows != [] {
      NamedRowsAre(s, rows[1..]);
    }
  }

  /** After the purge the lookup is exhaustive again, and the named people keep all their vectors. */
  lemma PurgeRestoresTheGallery(s: Store)
    requires Sound(s)
    ensures Sound(PurgeUnnamed(s)) && AllNamed(PurgeUnnamed(s))
    ensures forall p :: p in s.persons && s.persons[p].named ==>
              p in PurgeUnnamed(s).persons && Sources(PurgeUnnamed(s), p) == Sources(s, p)
  {
    var purged := PurgeUnnamed(s);
    NamedRowsAre(s, s.vectors);
    forall v | 0 <= v < |purged.vectors| ensures IsNamed(purged, v) {
      assert purged.vectors[v] in s.vectors;
    }
    forall p | p in s.persons && s.persons[p].named ensures Sources(purged, p) == Sources(s, p) {
      forall c | c in Sources(s, p) ensures c in Sources(purged, p) {
        var v :| 0 <= v < |s.vectors| && s.vectors[v].person == p && s.vectors[v].source == c;
        assert s.vectors[v] in purged.vectors;
      }
    }
  }

  /** The purge removes exactly the people without a name, and no staged capture names one
      of them any more; otherwise the captures stay as they were. */
  lemma PurgeForgets(s: Store)
    ensures var purged := PurgeUnnamed(s);
            && (forall p :: p in purged.persons <==> p in s.persons && s.persons[p].named)
            && (forall p :: p in purged.persons ==> purged.persons[p] == s.persons[p])
            && purged.staged.Keys == s.staged.Keys
            && forall c :: c in s.staged ==>
                 var before, after := s.staged[c], purged.staged[c];
                 && after.face == before.face && after.capturedAt == before.capturedAt
                 && after.matched == (if before.matched.Some? && before.matched.value in s.persons - purged.persons.Keys
                                      then None else before.matched)
  {
  }
}
