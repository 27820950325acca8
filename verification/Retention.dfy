/** Telemetry events, the content-addressed snapshots they share and their
    retention (apexfabric/control_plane/telemetry.py).

    Events stand in the order of the arrival-time index: by arrival time, then by
    insertion. A snapshot's identifier is its content digest. */
module Retention {
  import opened Options

  type EventId = nat
  type SnapshotId = nat

  datatype Event = Event(id: EventId, receivedAt: real, bytes: nat)
  datatype Path = Path(snapshot: SnapshotId, jpeg: bool)
  datatype Snapshot = Snapshot(id: SnapshotId, path: Path, bytes: nat)
  datatype Reference = Reference(event: EventId, snapshot: SnapshotId, url: string)

  datatype Store = Store(
    events: seq<Event>, snapshots: seq<Snapshot>, references: set<Reference>, files: set<Path>)

  datatype Policy = Policy(
    maximumBytes: nat, high: real, low: real, maximumAge: real, maximumEvents: nat, maximumEventBytes: nat,
    maximumSnapshotBytes: nat, minimumFreeBytes: nat)

  predicate ValidPolicy(p: Policy) {
    && p.maximumBytes >= 1 && p.maximumAge > 0.0 && p.maximumEvents >= 1
    && 0.0 < p.low < p.high <= 1.0
  }

  function HighBytes(p: Policy): int {
    (p.maximumBytes as real * p.high).Floor
  }

  function LowBytes(p: Policy): int {
    (p.maximumBytes as real * p.low).Floor
  }

  const BatchLimit := 500

  // ---------------------------------------------------------------- operations

  predicate Live(events: seq<Event>, id: EventId) {
    exists i :: 0 <= i < |events| && events[i].id == id
  }

  /** Where an arrival at this time goes: after everything that arrived no later. */
  function ArrivalIndex(events: seq<Event>, at: real): (k: nat)
    ensures k <= |events|
  {
    if events == [] then 0
    else if events[|events| - 1].receivedAt <= at then |events|
    else ArrivalIndex(events[..|events| - 1], at)
  }

  function InsertEvent(events: seq<Event>, e: Event): seq<Event> {
    var k := ArrivalIndex(events, e.receivedAt);
    events[..k] + [e] + events[k..]
  }

  function Ingest(s: Store, e: Event, p: Policy): Store {
    if e.bytes > p.maximumEventBytes || Live(s.events, e.id) then s
    else s.(events := InsertEvent(s.events, e))
  }

  function RowOf(snapshots: seq<Snapshot>, id: SnapshotId): Option<Snapshot> {
    if snapshots == [] then None
    else if snapshots[0].id == id then Some(snapshots[0])
    else RowOf(snapshots[1..], id)
  }

  /** One fetched snapshot, attached to its event if that is still there. */
  function Attach(s: Store, event: EventId, id: SnapshotId, jpeg: bool, bytes: nat, url: string, p: Policy): Store {
    if bytes > p.maximumSnapshotBytes || !Live(s.events, event) then s
    else s.(
      files := s.files + {Path(id, jpeg)},
      snapshots := if RowOf(s.snapshots, id).Some? then s.snapshots else s.snapshots + [Snapshot(id, Path(id, jpeg), bytes)],
      references := s.references + {Reference(event, id, url)})
  }

  predicate Referenced(references: set<Reference>, id: SnapshotId) {
    exists r :: r in references && r.snapshot == id
  }

  function KeepReferenced(snapshots: seq<Snapshot>, references: set<Reference>): seq<Snapshot> {
    if snapshots == [] then []
    else if Referenced(references, snapshots[0].id) then [snapshots[0]] + KeepReferenced(snapshots[1..], references)
    else KeepReferenced(snapshots[1..], references)
  }

  function OrphanPaths(snapshots: seq<Snapshot>, references: set<Reference>): set<Path> {
    set i | 0 <= i < |snapshots| && !Referenced(references, snapshots[i].id) :: snapshots[i].path
  }

  function KeepEvents(events: seq<Event>, gone: set<EventId>): seq<Event> {
    if events == [] then []
    else if events[0].id in gone then KeepEvents(events[1..], gone)
    else [events[0]] + KeepEvents(events[1..], gone)
  }

  function SweepOrphans(s: Store): Store {
    s.(snapshots := KeepReferenced(s.snapshots, s.references),
       files := s.files - OrphanPaths(s.snapshots, s.references))
  }

  /** Deleting events drops their references and then every snapshot nobody references. */
  function DeleteEvents(s: Store, gone: set<EventId>): Store {
    if gone == {} then s
    else SweepOrphans(s.(
      events := KeepEvents(s.events, gone),
      references := set r | r in s.references && r.event !in gone))
  }

  function EventIds(events: seq<Event>): set<EventId> {
    set i | 0 <= i < |events| :: events[i].id
  }

  function EventBytes(events: seq<Event>): nat {
    if events == [] then 0 else events[0].bytes + EventBytes(events[1..])
  }

  function SnapshotBytes(snapshots: seq<Snapshot>): nat {
    if snapshots == [] then 0 else snapshots[0].bytes + SnapshotBytes(snapshots[1..])
  }

  function LogicalBytes(s: Store): nat {
    EventBytes(s.events) + SnapshotBytes(s.snapshots)
  }

  /** How many events one eviction batch takes: all but the newest, up to the limit. */
  function BatchSize(count: nat): nat {
    if count == 0 then 0
    else if count == 1 then 1
    else if count - 1 < BatchLimit then count - 1
    else BatchLimit
  }

  function ExpiredCount(events: seq<Event>, cutoff: real): (n: nat)
    ensures n <= |events|
  {
    if events == [] || events[0].receivedAt >= cutoff then 0 else 1 + ExpiredCount(events[1..], cutoff)
  }

  // ---------------------------------------------------------------- the invariant

  ghost predicate DistinctEvents(events: seq<Event>) {
    forall i, j :: 0 <= i < j < |events| ==> events[i].id != events[j].id
  }

  ghost predicate InArrivalOrder(events: seq<Event>) {
    forall i, j :: 0 <= i < j < |events| ==> events[i].receivedAt <= events[j].receivedAt
  }

  ghost predicate DistinctRows(snapshots: seq<Snapshot>) {
    forall i, j :: 0 <= i < j < |snapshots| ==> snapshots[i].id != snapshots[j].id
  }

  /** A row is under its own path, its file exists and some event refers to it. */
  ghost predicate RowOk(row: Snapshot, references: set<Reference>, files: set<Path>) {
    row.path.snapshot == row.id && row.path in files && Referenced(references, row.id)
  }

  ghost predicate RowsOk(s: Store) {
    forall row :: row in s.snapshots ==> RowOk(row, s.references, s.files)
  }

  /** Both ends of every reference exist. */
  ghost predicate ReferencesOk(s: Store) {
    forall r :: r in s.references ==> Live(s.events, r.event) && RowOf(s.snapshots, r.snapshot).Some?
  }

  ghost predicate Valid(s: Store) {
    && DistinctEvents(s.events) && InArrivalOrder(s.events) && DistinctRows(s.snapshots)
    && RowsOk(s) && ReferencesOk(s)
  }

  ghost predicate Owned(snapshots: seq<Snapshot>, file: Path) {
    exists row :: row in snapshots && row.path == file
  }

  /** Every file belongs to a row. */
  ghost predicate NoStray(s: Store) {
    forall f :: f in s.files ==> Owned(s.snapshots, f)
  }

  lemma {:induction false} RowOfIs(snapshots: seq<Snapshot>, id: SnapshotId)
    ensures RowOf(snapshots, id).Some? ==> RowOf(snapshots, id).value in snapshots && RowOf(snapshots, id).value.id == id
    ensures RowOf(snapshots, id).None? <==> forall i :: 0 <= i < |snapshots| ==> snapshots[i].id != id
  {
    if snapshots != [] {
      RowOfIs(snapshots[1..], id);
    }
  }

  lemma {:induction false} RowOfAppended(snapshots: seq<Snapshot>, row: Snapshot, id: SnapshotId)
    ensures RowOf(snapshots + [row], id)
            == if RowOf(snapshots, id).Some? then RowOf(snapshots, id) else if row.id == id then Some(row) else None
  {
    if snapshots != [] {
      RowOfAppended(snapshots[1..], row, id);
      assert (snapshots + [row])[1..] == snapshots[1..] + [row];
    }
  }

  lemma {:induction false} ArrivalIndexIs(events: seq<Event>, at: real)
    requires InArrivalOrder(events)
    ensures forall i :: 0 <= i < |events| ==> (i < ArrivalIndex(events, at) <==> events[i].receivedAt <= at)
  {
    if events != [] && events[|events| - 1].receivedAt > at {
      ArrivalIndexIs(events[..|events| - 1], at);
      assert forall i :: 0 <= i < |events| - 1 ==> events[i] == events[..|events| - 1][i];
    }
  }

  lemma InsertKeepsOrder(events: seq<Event>, e: Event)
    requires InArrivalOrder(events) && DistinctEvents(events) && !Live(events, e.id)
    ensures InArrivalOrder(InsertEvent(events, e)) && DistinctEvents(InsertEvent(events, e))
  {
    ArrivalIndexIs(events, e.receivedAt);
    assert forall i :: 0 <= i < |events| ==> events[i].id != e.id;
  }

  lemma InsertKeepsLive(events: seq<Event>, e: Event, id: EventId)
    ensures Live(InsertEvent(events, e), id) <==> Live(events, id) || id == e.id
  {
    var k, r := ArrivalIndex(events, e.receivedAt), InsertEvent(events, e);
    assert r[k] == e;
    if i :| 0 <= i < |events| && events[i].id == id {
      assert r[if i < k then i else i + 1] == events[i];
    }
    if i :| 0 <= i < |r| && r[i].id == id && i != k {
      assert r[i] == events[if i < k then i else i - 1];
    }
  }

  lemma IngestKeepsValid(s: Store, e: Event, p: Policy)
    requires Valid(s)
    ensures Valid(Ingest(s, e, p))
    ensures NoStray(s) ==> NoStray(Ingest(s, e, p))
  {
    var s' := Ingest(s, e, p);
    if s' != s {
      InsertKeepsOrder(s.events, e);
      forall r | r in s'.references ensures Live(s'.events, r.event) {
        InsertKeepsLive(s.events, e, r.event);
      }
      assert RowsOk(s');
    }
  }

  lemma AttachKeepsValid(s: Store, event: EventId, id: SnapshotId, jpeg: bool, bytes: nat, url: string, p: Policy)
    requires Valid(s)
    ensures Valid(Attach(s, event, id, jpeg, bytes, url, p))
  {
    var s' := Attach(s, event, id, jpeg, bytes, url, p);
    if s' != s {
      RowOfIs(s.snapshots, id);
      var row := Snapshot(id, Path(id, jpeg), bytes);
      forall kept | kept in s'.snapshots ensures RowOk(kept, s'.references, s'.files) {
        if kept in s.snapshots {
          var r :| r in s.references && r.snapshot == kept.id;
          assert r in s'.references;
        } else {
          assert Reference(event, id, url) in s'.references;
        }
      }
      forall r | r in s'.references ensures Live(s'.events, r.event) && RowOf(s'.snapshots, r.snapshot).Some? {
        RowOfAppended(s.snapshots, row, r.snapshot);
      }
    }
  }

  /** An attach that loses the race with eviction adds nothing: no file, no row, no reference. */
  lemma LateAttachAddsNothing(
    s: Store, gone: set<EventId>, event: EventId, id: SnapshotId, jpeg: bool, bytes: nat, url: string, p: Policy)
    requires event in gone
    ensures Attach(DeleteEvents(s, gone), event, id, jpeg, bytes, url, p) == DeleteEvents(s, gone)
  {
    KeptEvents(s.events, gone);
  }

  lemma {:induction false} KeptEvents(events: seq<Event>, gone: set<EventId>)
    ensures forall e :: e in KeepEvents(events, gone) <==> e in events && e.id !in gone
  {
    if events != [] {
      KeptEvents(events[1..], gone);
      assert events == [events[0]] + events[1..];
    }
  }

  /** Attaching leaves no stray file exactly if the content is new or was stored
      under the same suffix: the second suffix of one content is a file that no
      row mentions. */
  lemma AttachLeavesNoStray(s: Store, event: EventId, id: SnapshotId, jpeg: bool, bytes: nat, url: string, p: Policy)
    requires Valid(s) && NoStray(s) && Live(s.events, event) && bytes <= p.maximumSnapshotBytes
    ensures NoStray(Attach(s, event, id, jpeg, bytes, url, p))
            <==> RowOf(s.snapshots, id).None? || RowOf(s.snapshots, id).value.path == Path(id, jpeg)
  {
    var s' := Attach(s, event, id, jpeg, bytes, url, p);
    var file, found := Path(id, jpeg), RowOf(s.snapshots, id);
    RowOfIs(s.snapshots, id);
    if found.None? || found.value.path == file {
      var row := if found.None? then Snapshot(id, file, bytes) else found.value;
      assert row in s'.snapshots && row.path == file;
      forall f | f in s'.files ensures Owned(s'.snapshots, f) {
        if f != file {
          var row :| row in s.snapshots && row.path == f;
          assert row in s'.snapshots;
        }
      }
    } else {
      forall row | row in s.snapshots ensures row.path != file {
        assert RowOk(row, s.references, s.files);
        if row.id == id {
          SameIdSameRow(s.snapshots, row, found.value);
        }
      }
      assert file in s'.files && !Owned(s'.snapshots, file);
    }
  }

  lemma SameIdSameRow(snapshots: seq<Snapshot>, a: Snapshot, b: Snapshot)
    requires DistinctRows(snapshots) && a in snapshots && b in snapshots && a.id == b.id
    ensures a == b
  {
    var i :| 0 <= i < |snapshots| && snapshots[i] == a;
    var j :| 0 <= j < |snapshots| && snapshots[j] == b;
    assert !(i < j) && !(j < i);
  }

  // ---------------------------------------------------------------- eviction of a prefix

  /** The store without its k oldest events. */
  function Evict(s: Store, k: nat): Store
    requires k <= |s.events|
  {
    var kept := s.events[k..];
    var references := set r | r in s.references && Live(kept, r.event);
    Store(kept,
          KeepReferenced(s.snapshots, references),
          references,
          s.files - OrphanPaths(s.snapshots, references))
  }

  lemma {:induction false} KeepReferencedIs(snapshots: seq<Snapshot>, references: set<Reference>)
    ensures forall row :: row in KeepReferenced(snapshots, references)
              <==> row in snapshots && Referenced(references, row.id)
    ensures DistinctRows(snapshots) ==> DistinctRows(KeepReferenced(snapshots, references))
  {
    if snapshots != [] {
      var rest := snapshots[1..];
      KeepReferencedIs(rest, references);
      assert snapshots == [snapshots[0]] + rest;
      if DistinctRows(snapshots) {
        assert forall row :: row in rest ==> row.id != snapshots[0].id;
        assert DistinctRows(rest);
        var kept := KeepReferenced(rest, references);
        assert forall j :: 0 <= j < |kept| ==> kept[j] in rest;
      }
    }
  }

  lemma {:induction false} KeepAll(snapshots: seq<Snapshot>, references: set<Reference>)
    requires forall i :: 0 <= i < |snapshots| ==> Referenced(references, snapshots[i].id)
    ensures KeepReferenced(snapshots, references) == snapshots
    ensures OrphanPaths(snapshots, references) == {}
  {
    if snapshots != [] {
      KeepAll(snapshots[1..], references);
    }
  }

  lemma {:induction false} KeepTwice(snapshots: seq<Snapshot>, more: set<Reference>, fewer: set<Reference>)
    requires fewer <= more
    ensures KeepReferenced(KeepReferenced(snapshots, more), fewer) == KeepReferenced(snapshots, fewer)
  {
    if snapshots != [] {
      KeepTwice(snapshots[1..], more, fewer);
      if Referenced(fewer, snapshots[0].id) {
        var r :| r in fewer && r.snapshot == snapshots[0].id;
        assert r in more;
      }
    }
  }

  lemma OrphansTwice(snapshots: seq<Snapshot>, more: set<Reference>, fewer: set<Reference>)
    requires fewer <= more
    ensures OrphanPaths(snapshots, fewer)
            == OrphanPaths(snapshots, more) + OrphanPaths(KeepReferenced(snapshots, more), fewer)
  {
    KeepReferencedIs(snapshots, more);
    var kept := KeepReferenced(snapshots, more);
    forall f ensures f in OrphanPaths(snapshots, fewer)
                     <==> f in OrphanPaths(snapshots, more) + OrphanPaths(kept, fewer)
    {
      if f in OrphanPaths(snapshots, fewer) {
        var i :| 0 <= i < |snapshots| && !Referenced(fewer, snapshots[i].id) && snapshots[i].path == f;
        if Referenced(more, snapshots[i].id) {
          assert snapshots[i] in kept;
        }
      }
      if f in OrphanPaths(snapshots, more) {
        var i :| 0 <= i < |snapshots| && !Referenced(more, snapshots[i].id) && snapshots[i].path == f;
        assert !Referenced(fewer, snapshots[i].id);
      }
      if f in OrphanPaths(kept, fewer) {
        var i :| 0 <= i < |kept| && !Referenced(fewer, kept[i].id) && kept[i].path == f;
        assert kept[i] in snapshots;
      }
    }
  }

  lemma EvictNothing(s: Store)
    requires Valid(s)
    ensures Evict(s, 0) == s
  {
    assert s.events[0..] == s.events;
    assert (set r | r in s.references && Live(s.events, r.event)) == s.references;
    assert forall i :: 0 <= i < |s.snapshots| ==> RowOk(s.snapshots[i], s.references, s.files);
    KeepAll(s.snapshots, s.references);
  }

  lemma SuffixIsLive(events: seq<Event>, j: nat, k: nat, id: EventId)
    requires j + k <= |events| && Live(events[j + k..], id)
    ensures Live(events[j..], id)
  {
    var i :| 0 <= i < |events[j + k..]| && events[j + k..][i].id == id;
    assert events[j..][k + i].id == id;
  }

  /** Evicting in batches is evicting once. */
  lemma EvictTwice(s: Store, j: nat, k: nat)
    requires j + k <= |s.events|
    ensures Evict(Evict(s, j), k) == Evict(s, j + k)
  {
    var once := Evict(s, j);
    var fewer := Evict(s, j + k).references;
    assert s.events[j..][k..] == s.events[j + k..];
    forall r | r in fewer ensures r in once.references {
      SuffixIsLive(s.events, j, k, r.event);
    }
    assert (set r | r in once.references && Live(s.events[j + k..], r.event)) == fewer;
    KeepTwice(s.snapshots, once.references, fewer);
    OrphansTwice(s.snapshots, once.references, fewer);
  }

  lemma {:induction false} DropPrefix(events: seq<Event>, k: nat)
    requires k <= |events|
    requires DistinctEvents(events)
    ensures KeepEvents(events, EventIds(events[..k])) == events[k..]
  {
    if events != [] {
      var gone := EventIds(events[..k]);
      if k == 0 {
        KeepAllEvents(events, gone);
      } else {
        assert events[..k][0].id in gone;
        var rest := events[1..];
        assert rest[..k - 1] == events[1..k];
        DropPrefix(rest, k - 1);
        SameKept(rest, gone, EventIds(rest[..k - 1]), events[0].id);
      }
    }
  }

  lemma {:induction false} KeepAllEvents(events: seq<Event>, gone: set<EventId>)
    requires forall i :: 0 <= i < |events| ==> events[i].id !in gone
    ensures KeepEvents(events, gone) == events
  {
    if events != [] {
      KeepAllEvents(events[1..], gone);
    }
  }

  lemma {:induction false} SameKept(events: seq<Event>, gone: set<EventId>, fewer: set<EventId>, extra: EventId)
    requires forall i :: 0 <= i < |events| ==> events[i].id != extra && (events[i].id in gone <==> events[i].id in fewer)
    ensures KeepEvents(events, gone) == KeepEvents(events, fewer)
  {
    if events != [] {
      SameKept(events[1..], gone, fewer, extra);
    }
  }

  /** Deleting the oldest events by identifier is evicting them. */
  lemma DeleteOldestIsEvict(s: Store, k: nat)
    requires Valid(s) && k <= |s.events|
    ensures DeleteEvents(s, EventIds(s.events[..k])) == Evict(s, k)
  {
    var gone := EventIds(s.events[..k]);
    if k == 0 {
      assert gone == {};
      EvictNothing(s);
    } else {
      assert s.events[..k][0].id in gone;
      DropPrefix(s.events, k);
      var kept := s.events[k..];
      forall r | r in s.references ensures r.event !in gone <==> Live(kept, r.event) {
        var i :| 0 <= i < |s.events| && s.events[i].id == r.event;
        if i < k {
          assert s.events[..k][i].id == r.event;
        } else {
          assert kept[i - k].id == r.event;
        }
      }
      assert (set r | r in s.references && r.event !in gone) == (set r | r in s.references && Live(kept, r.event));
    }
  }

  lemma EvictKeepsValid(s: Store, k: nat)
    requires Valid(s) && k <= |s.events|
    ensures Valid(Evict(s, k))
    ensures NoStray(s) ==> NoStray(Evict(s, k))
  {
    var s' := Evict(s, k);
    KeepReferencedIs(s.snapshots, s'.references);
    forall row | row in s'.snapshots ensures RowOk(row, s'.references, s'.files) {
      EvictKeepsFile(s, k, row);
    }
    forall r | r in s'.references ensures RowOf(s'.snapshots, r.snapshot).Some? {
      RowOfIs(s.snapshots, r.snapshot);
      RowOfIs(s'.snapshots, r.snapshot);
      assert RowOf(s.snapshots, r.snapshot).value in s'.snapshots;
    }
    if NoStray(s) {
      forall f | f in s'.files ensures Owned(s'.snapshots, f) {
        var row :| row in s.snapshots && row.path == f;
        var i :| 0 <= i < |s.snapshots| && s.snapshots[i] == row;
        assert Referenced(s'.references, row.id);
        assert row in s'.snapshots;
      }
    }
  }

  lemma EvictKeepsFile(s: Store, k: nat, row: Snapshot)
    requires Valid(s) && k <= |s.events| && row in s.snapshots && Referenced(Evict(s, k).references, row.id)
    ensures row.path in Evict(s, k).files
  {
    assert RowOk(row, s.references, s.files);
    var references := Evict(s, k).references;
    forall j | 0 <= j < |s.snapshots| && !Referenced(references, s.snapshots[j].id)
      ensures s.snapshots[j].path != row.path
    {
      assert RowOk(s.snapshots[j], s.references, s.files);
    }
  }

  lemma {:induction false} KeptBytes(snapshots: seq<Snapshot>, references: set<Reference>)
    ensures SnapshotBytes(KeepReferenced(snapshots, references)) <= SnapshotBytes(snapshots)
  {
    if snapshots != [] {
      KeptBytes(snapshots[1..], references);
    }
  }

  lemma {:induction false} SuffixBytes(events: seq<Event>, k: nat)
    requires k <= |events|
    ensures EventBytes(events[k..]) <= EventBytes(events)
  {
    if k > 0 {
      SuffixBytes(events[1..], k - 1);
      assert events[1..][k - 1..] == events[k..];
    }
  }

  lemma EvictShrinks(s: Store, k: nat)
    requires k <= |s.events|
    ensures LogicalBytes(Evict(s, k)) <= LogicalBytes(s)
  {
    SuffixBytes(s.events, k);
    KeptBytes(s.snapshots, Evict(s, k).references);
  }

  /** With no events left there are no snapshots left, so there are no bytes left. */
  lemma EmptyHasNoBytes(s: Store)
    requires Valid(s) && s.events == []
    ensures LogicalBytes(s) == 0
  {
    assert s.references == {};
    assert |s.snapshots| > 0 ==> RowOk(s.snapshots[0], s.references, s.files);
  }

  // ---------------------------------------------------------------- retention

  /** How many more events the byte budget evicts, batch by batch. */
  function ByteEvictions(s: Store, high: int, low: int): (k: nat)
    ensures k <= |s.events|
    decreases |s.events|
  {
    if LogicalBytes(s) < high || s.events == [] then 0
    else
      var batch := BatchSize(|s.events|);
      var after := Evict(s, batch);
      if LogicalBytes(after) <= low then batch else batch + ByteEvictions(after, high, low)
  }

  /** The byte budget is met: below high water, or at most low water. */
  ghost predicate WithinBudget(s: Store, high: int, low: int) {
    LogicalBytes(s) < high || LogicalBytes(s) <= low
  }

  lemma {:induction false} ByteEvictionsMeetTheBudget(s: Store, high: int, low: int)
    requires Valid(s) && 0 <= low
    ensures WithinBudget(Evict(s, ByteEvictions(s, high, low)), high, low)
    decreases |s.events|
  {
    EvictNothing(s);
    if LogicalBytes(s) >= high {
      if s.events == [] {
        EmptyHasNoBytes(s);
      } else {
        var batch := BatchSize(|s.events|);
        EvictKeepsValid(s, batch);
        var after := Evict(s, batch);
        if LogicalBytes(after) > low {
          ByteEvictionsMeetTheBudget(after, high, low);
          EvictTwice(s, batch, ByteEvictions(after, high, low));
        }
      }
    }
  }

  /** The newest event is spared unless it alone reaches high water. */
  lemma {:induction false} ByteEvictionsSpareTheNewest(s: Store, high: int, low: int)
    requires s.events != [] && LogicalBytes(Evict(s, |s.events| - 1)) < high && Valid(s)
    ensures ByteEvictions(s, high, low) < |s.events|
    decreases |s.events|
  {
    EvictNothing(s);
    if LogicalBytes(s) >= high {
      var batch := BatchSize(|s.events|);
      var after := Evict(s, batch);
      if LogicalBytes(after) > low && after.events != [] {
        EvictKeepsValid(s, batch);
        EvictTwice(s, batch, |after.events| - 1);
        ByteEvictionsSpareTheNewest(after, high, low);
      }
    }
  }

  function Larger(a: int, b: int): int {
    if a < b then b else a
  }

  /** What age and count alone evict. */
  function DueByAgeAndCount(s: Store, now: real, p: Policy): (k: nat)
    ensures k <= |s.events|
  {
    Larger(ExpiredCount(s.events, now - p.maximumAge), |s.events| - p.maximumEvents)
  }

  lemma {:induction false} ExpiredIs(events: seq<Event>, cutoff: real)
    requires InArrivalOrder(events)
    ensures forall i :: 0 <= i < |events| ==> (events[i].receivedAt < cutoff <==> i < ExpiredCount(events, cutoff))
  {
    if events != [] && events[0].receivedAt < cutoff {
      ExpiredIs(events[1..], cutoff);
      assert forall i :: 1 <= i < |events| ==> events[i] == events[1..][i - 1];
    }
  }

  function ExpiredIds(events: seq<Event>, cutoff: real): set<EventId> {
    set i | 0 <= i < |events| && events[i].receivedAt < cutoff :: events[i].id
  }

  /** The expired events are the oldest ones. */
  lemma ExpiredAreOldest(events: seq<Event>, cutoff: real)
    requires InArrivalOrder(events)
    ensures ExpiredIds(events, cutoff) == EventIds(events[..ExpiredCount(events, cutoff)])
  {
    ExpiredIs(events, cutoff);
    var n := ExpiredCount(events, cutoff);
    forall id | id in ExpiredIds(events, cutoff) ensures id in EventIds(events[..n]) {
      var i :| 0 <= i < |events| && events[i].receivedAt < cutoff && events[i].id == id;
      assert events[..n][i].id == id;
    }
  }

  /** What age, count and bytes together evict, for given water marks. */
  function DueWith(s: Store, now: real, p: Policy, high: int, low: int): (k: nat)
    ensures k <= |s.events|
  {
    var k := DueByAgeAndCount(s, now, p);
    k + ByteEvictions(Evict(s, k), high, low)
  }

  function Due(s: Store, now: real, p: Policy): nat {
    DueWith(s, now, p, HighBytes(p), LowBytes(p))
  }

  ghost predicate MeetsPolicy(s: Store, now: real, p: Policy, high: int, low: int) {
    && (forall i :: 0 <= i < |s.events| ==> s.events[i].receivedAt >= now - p.maximumAge)
    && |s.events| <= p.maximumEvents
    && WithinBudget(s, high, low)
  }

  lemma FewerMeetsPolicy(s: Store, k: nat, now: real, p: Policy, high: int, low: int)
    requires k <= |s.events| && MeetsPolicy(s, now, p, high, low)
    ensures MeetsPolicy(Evict(s, k), now, p, high, low)
  {
    EvictShrinks(s, k);
  }

  lemma DueWithMeetsPolicy(s: Store, now: real, p: Policy, high: int, low: int)
    requires Valid(s) && 0 <= low
    ensures MeetsPolicy(Evict(s, DueWith(s, now, p, high, low)), now, p, high, low)
  {
    var first := DueByAgeAndCount(s, now, p);
    ExpiredIs(s.events, now - p.maximumAge);
    EvictKeepsValid(s, first);
    ByteEvictionsMeetTheBudget(Evict(s, first), high, low);
    EvictTwice(s, first, ByteEvictions(Evict(s, first), high, low));
  }

  lemma LowWaterIsNatural(p: Policy)
    requires ValidPolicy(p)
    ensures 0 <= LowBytes(p)
  {
    assert p.maximumBytes as real * p.low >= 0.0;
  }

  /** Once what is due is gone, and whatever else disk pressure takes: nothing
      expired is left, no more than the maximum is left, and the bytes are within
      budget. Retention only ever removes from the old end, so what is left is a
      newest suffix. */
  lemma DueMeetsPolicy(s: Store, now: real, p: Policy, k: nat)
    requires Valid(s) && ValidPolicy(p) && Due(s, now, p) <= k <= |s.events|
    ensures MeetsPolicy(Evict(s, k), now, p, HighBytes(p), LowBytes(p))
  {
    var high, low := HighBytes(p), LowBytes(p);
    LowWaterIsNatural(p);
    DueWithMeetsPolicy(s, now, p, high, low);
    var due := DueWith(s, now, p, high, low);
    EvictTwice(s, due, k - due);
    FewerMeetsPolicy(Evict(s, due), k - due, now, p, high, low);
  }

  // ---------------------------------------------------------------- and no more than is due

  /** The oldest event is past the age limit, or there are more events than allowed. */
  ghost predicate OverAgeOrCount(s: Store, now: real, p: Policy) {
    (s.events != [] && s.events[0].receivedAt < now - p.maximumAge) || |s.events| > p.maximumEvents
  }

  /** Age and count take no event they need not: one fewer would not do. */
  lemma DueIsNeeded(s: Store, now: real, p: Policy, j: nat)
    requires Valid(s) && j < DueByAgeAndCount(s, now, p)
    ensures OverAgeOrCount(Evict(s, j), now, p)
  {
    ExpiredIs(s.events, now - p.maximumAge);
  }

  lemma DueIsEnough(s: Store, now: real, p: Policy)
    requires Valid(s)
    ensures !OverAgeOrCount(Evict(s, DueByAgeAndCount(s, now, p)), now, p)
  {
    ExpiredIs(s.events, now - p.maximumAge);
  }

  function Total(batches: seq<nat>): nat {
    if batches == [] then 0 else batches[0] + Total(batches[1..])
  }

  /** A batch that may be taken from a store with this many events: one to five hundred
      of the oldest, and never the newest unless it is the only one. */
  predicate IsBatch(batch: nat, events: nat) {
    1 <= batch <= 500 && batch <= events && (events > 1 ==> batch < events)
  }

  /** A batch is the largest that may be taken. */
  lemma BatchIsLargest(events: nat)
    requires events > 0
    ensures IsBatch(BatchSize(events), events)
    ensures forall n: nat :: IsBatch(n, events) ==> n <= BatchSize(events)
  {
  }

  /** Batches taken one after another, each from a store at or above high water, and all
      but the last leaving it above low water. */
  ghost predicate NeededBatches(s: Store, high: int, low: int, batches: seq<nat>)
    decreases |batches|
  {
    batches == [] ||
    (&& IsBatch(batches[0], |s.events|) && LogicalBytes(s) >= high
     && (|batches| > 1 ==> LogicalBytes(Evict(s, batches[0])) > low)
     && NeededBatches(Evict(s, batches[0]), high, low, batches[1..]))
  }

  /** What the byte budget evicts is made up of batches that were all needed. */
  lemma {:induction false} BytesAreNeeded(s: Store, high: int, low: int) returns (batches: seq<nat>)
    requires Valid(s)
    ensures NeededBatches(s, high, low, batches) && Total(batches) == ByteEvictions(s, high, low)
    decreases |s.events|
  {
    batches := [];
    if LogicalBytes(s) >= high && s.events != [] {
      var batch := BatchSize(|s.events|);
      var after := Evict(s, batch);
      if LogicalBytes(after) <= low {
        batches := [batch];
      } else {
        EvictKeepsValid(s, batch);
        var rest := BytesAreNeeded(after, high, low);
        batches := [batch] + rest;
        assert batches[1..] == rest;
      }
    }
  }

  /** The marks are the two shares of the budget, rounded down. */
  lemma MarksAre(p: Policy)
    requires ValidPolicy(p)
    ensures HighBytes(p) as real <= p.high * p.maximumBytes as real < HighBytes(p) as real + 1.0
    ensures LowBytes(p) as real <= p.low * p.maximumBytes as real < LowBytes(p) as real + 1.0
  {
  }

  /** A store within its limits is left as it is. */
  lemma NothingIsDue(s: Store, now: real, p: Policy)
    requires Valid(s) && !OverAgeOrCount(s, now, p) && LogicalBytes(s) < HighBytes(p)
    ensures Due(s, now, p) == 0 && Evict(s, 0) == s
  {
    EvictNothing(s);
  }

  // ---------------------------------------------------------------- disk pressure

  /** How many more events disk pressure takes, by the free space found before each batch;
      past the end of the readings there is enough. */
  function PressureEvictions(s: Store, free: seq<int>, p: Policy): (k: nat)
    ensures k <= |s.events|
    decreases |free|
  {
    if free == [] || free[0] >= p.minimumFreeBytes || s.events == [] then 0
    else
      var batch := BatchSize(|s.events|);
      batch + PressureEvictions(Evict(s, batch), free[1..], p)
  }

  lemma PressureGoesOn(s: Store, free: seq<int>, reading: nat, p: Policy)
    requires reading < |free| && free[reading] < p.minimumFreeBytes && s.events != []
    ensures var batch := BatchSize(|s.events|);
            PressureEvictions(s, free[reading..], p) == batch + PressureEvictions(Evict(s, batch), free[reading + 1..], p)
  {
    assert free[reading..][1..] == free[reading + 1..];
  }

  lemma PressureEnds(s: Store, free: seq<int>, reading: nat, p: Policy)
    requires reading <= |free| && (reading == |free| || free[reading] >= p.minimumFreeBytes || s.events == [])
    ensures PressureEvictions(s, free[reading..], p) == 0
  {
  }

  /** What one pass of retention takes. */
  function Taken(s: Store, now: real, free: seq<int>, p: Policy): (k: nat)
    ensures k <= |s.events|
  {
    Due(s, now, p) + PressureEvictions(Evict(s, Due(s, now, p)), free, p)
  }

  /** Age and count allow the store, its bytes are below high water, and the disk has space. */
  ghost predicate WithinLimits(s: Store, now: real, free: seq<int>, p: Policy) {
    && !OverAgeOrCount(s, now, p) && LogicalBytes(s) < HighBytes(p)
    && (free != [] ==> free[0] >= p.minimumFreeBytes)
  }

  lemma NothingToTake(s: Store, now: real, free: seq<int>, p: Policy)
    requires Valid(s) && WithinLimits(s, now, free, p)
    ensures Taken(s, now, free, p) == 0 && Evict(s, 0) == s
  {
    NothingIsDue(s, now, p);
  }

  /** Batches taken one after another. */
  ghost predicate Batches(s: Store, batches: seq<nat>)
    decreases |batches|
  {
    batches == [] || (IsBatch(batches[0], |s.events|) && Batches(Evict(s, batches[0]), batches[1..]))
  }

  /** Disk pressure takes one batch for each reading below the minimum, up to the first that
      is not, or to the last event. */
  lemma {:induction false} PressureTakes(s: Store, free: seq<int>, p: Policy) returns (batches: seq<nat>)
    requires Valid(s)
    ensures Batches(s, batches) && Total(batches) == PressureEvictions(s, free, p) && |batches| <= |free|
    ensures forall i :: 0 <= i < |batches| ==> free[i] < p.minimumFreeBytes
    ensures Total(batches) < |s.events| && |batches| < |free| ==> free[|batches|] >= p.minimumFreeBytes
    decreases |free|
  {
    batches := [];
    if free != [] && free[0] < p.minimumFreeBytes && s.events != [] {
      var batch := BatchSize(|s.events|);
      EvictKeepsValid(s, batch);
      var rest := PressureTakes(Evict(s, batch), free[1..], p);
      batches := [batch] + rest;
      assert batches[1..] == rest;
    }
  }

  // ---------------------------------------------------------------- over all runs

  datatype Step =
    | Ingests(event: Event)
    | Attaches(eventId: EventId, id: SnapshotId, jpeg: bool, bytes: nat, url: string)
    | Evicts(count: nat)

  function Next(s: Store, step: Step, p: Policy): Store {
    match step
    case Ingests(e) => Ingest(s, e, p)
    case Attaches(event, id, jpeg, bytes, url) => Attach(s, event, id, jpeg, bytes, url, p)
    case Evicts(count) =>
      DeleteEvents(s, EventIds(s.events[..if count <= |s.events| then count else |s.events|]))
  }

  function Run(s: Store, steps: seq<Step>, p: Policy): Store {
    if steps == [] then s else Next(Run(s, steps[..|steps| - 1], p), steps[|steps| - 1], p)
  }

  const EmptyStore := Store([], [], {}, {})

  /** However ingestion, background attachment and eviction interleave: every row is
      referenced by a live event, every reference has both ends, every row has its
      file, and each content has one row. */
  lemma {:induction false} RunKeepsValid(steps: seq<Step>, p: Policy)
    ensures Valid(Run(EmptyStore, steps, p))
  {
    if steps != [] {
      var before := Run(EmptyStore, steps[..|steps| - 1], p);
      RunKeepsValid(steps[..|steps| - 1], p);
      match steps[|steps| - 1]
      case Ingests(e) => IngestKeepsValid(before, e, p);
      case Attaches(event, id, jpeg, bytes, url) => AttachKeepsValid(before, event, id, jpeg, bytes, url, p);
      case Evicts(count) =>
        var k := if count <= |before.events| then count else |before.events|;
        DeleteOldestIsEvict(before, k);
        EvictKeepsValid(before, k);
    }
  }

  /** An event is stored exactly if it is new and small enough, among the others in order of
      arrival. */
  lemma IngestDecides(s: Store, e: Event, p: Policy)
    requires Valid(s)
    ensures var s' := Ingest(s, e, p);
            if Live(s.events, e.id) || e.bytes > p.maximumEventBytes then s' == s
            else && multiset(s'.events) == multiset(s.events) + multiset{e} && InArrivalOrder(s'.events)
                 && s'.references == s.references && s'.snapshots == s.snapshots && s'.files == s.files
  {
    if Ingest(s, e, p) != s {
      InsertKeepsOrder(s.events, e);
      var k := ArrivalIndex(s.events, e.receivedAt);
      assert s.events == s.events[..k] + s.events[k..];
    }
  }

  /** A snapshot is stored exactly if it is small enough and its event still there; then its
      content is on file under one row, and the event refers to it by the URL it came from. */
  lemma AttachDecides(s: Store, event: EventId, id: SnapshotId, jpeg: bool, bytes: nat, url: string, p: Policy)
    requires Valid(s)
    ensures var s' := Attach(s, event, id, jpeg, bytes, url, p);
            if !Live(s.events, event) || bytes > p.maximumSnapshotBytes then s' == s
            else
              && s'.events == s.events && s'.references == s.references + {Reference(event, id, url)}
              && Path(id, jpeg) in s'.files && s'.files - s.files <= {Path(id, jpeg)}
              && RowOf(s'.snapshots, id).Some?
              && (RowOf(s.snapshots, id).None? ==> RowOf(s'.snapshots, id).value.bytes == bytes)
              && forall other :: other != id ==> RowOf(s'.snapshots, other) == RowOf(s.snapshots, other)
  {
    forall other ensures RowOf(s.snapshots + [Snapshot(id, Path(id, jpeg), bytes)], other)
                         == if RowOf(s.snapshots, other).Some? then RowOf(s.snapshots, other)
                            else if other == id then Some(Snapshot(id, Path(id, jpeg), bytes)) else None {
      RowOfAppended(s.snapshots, Snapshot(id, Path(id, jpeg), bytes), other);
    }
  }

  lemma InsertKeepsEvents(events: seq<Event>, e: Event, kept: Event)
    requires kept in events
    ensures kept in InsertEvent(events, e)
  {
    var k := ArrivalIndex(events, e.receivedAt);
    var i :| 0 <= i < |events| && events[i] == kept;
    assert InsertEvent(events, e)[if i < k then i else i + 1] == kept;
  }

  /** Only eviction forgets: over any run without one, every event stays and every reference. */
  lemma {:induction false} OnlyEvictionForgets(s: Store, steps: seq<Step>, p: Policy)
    requires forall i :: 0 <= i < |steps| ==> !steps[i].Evicts?
    ensures forall e :: e in s.events ==> e in Run(s, steps, p).events
    ensures s.references <= Run(s, steps, p).references
  {
    if steps != [] {
      var init, last := steps[..|steps| - 1], steps[|steps| - 1];
      OnlyEvictionForgets(s, init, p);
      if last.Ingests? {
        forall e | e in s.events ensures e in Run(s, steps, p).events {
          if Run(s, steps, p) != Run(s, init, p) {
            InsertKeepsEvents(Run(s, init, p).events, last.event, e);
          }
        }
      }
    }
  }

  /** Shared content counts once: attaching it to another event adds no bytes, and it
      is still there until the last event that refers to it is gone. */
  lemma SharedContentCountsOnce(s: Store, event: EventId, id: SnapshotId, jpeg: bool, bytes: nat, url: string, p: Policy)
    requires Valid(s) && Live(s.events, event) && bytes <= p.maximumSnapshotBytes
    ensures LogicalBytes(Attach(s, event, id, jpeg, bytes, url, p))
            == LogicalBytes(s) + if RowOf(s.snapshots, id).Some? then 0 else bytes
  {
    AppendedBytes(s.snapshots, Snapshot(id, Path(id, jpeg), bytes));
  }

  lemma {:induction false} AppendedBytes(snapshots: seq<Snapshot>, row: Snapshot)
    ensures SnapshotBytes(snapshots + [row]) == SnapshotBytes(snapshots) + row.bytes
  {
    if snapshots != [] {
      AppendedBytes(snapshots[1..], row);
      assert (snapshots + [row])[1..] == snapshots[1..] + [row];
    }
  }

  lemma SnapshotSurvivesWhileReferenced(s: Store, k: nat, id: SnapshotId)
    requires Valid(s) && k <= |s.events|
    ensures RowOf(Evict(s, k).snapshots, id).Some?
            <==> exists r :: r in s.references && r.snapshot == id && Live(s.events[k..], r.event)
  {
    var s' := Evict(s, k);
    KeepReferencedIs(s.snapshots, s'.references);
    RowOfIs(s'.snapshots, id);
    if r :| r in s.references && r.snapshot == id && Live(s.events[k..], r.event) {
      assert r in s'.references;
      RowOfIs(s.snapshots, id);
      assert RowOf(s.snapshots, id).value in s'.snapshots;
    }
  }
}
