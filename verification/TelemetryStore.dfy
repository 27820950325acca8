/** The telemetry store as the object the control plane holds
    (apexfabric/control_plane/telemetry.py): tables and snapshot files updated in
    place, each method tied to its function in Retention. */
module TelemetryStore {
  import opened Options
  import opened Retention

  datatype Fetched = Fetched(id: SnapshotId, jpeg: bool, bytes: nat, url: string)

  /** Attaching what was fetched for one event, in order; a failed fetch is skipped. */
  function AttachAll(s: Store, event: EventId, fetched: seq<Option<Fetched>>, p: Policy): Store {
    if fetched == [] then s
    else
      var last := fetched[|fetched| - 1];
      var before := AttachAll(s, event, fetched[..|fetched| - 1], p);
      if last.None? then before
      else Attach(before, event, last.value.id, last.value.jpeg, last.value.bytes, last.value.url, p)
  }

  lemma {:induction false} AttachAllWithoutEvent(s: Store, event: EventId, fetched: seq<Option<Fetched>>, p: Policy)
    requires !Live(s.events, event)
    ensures AttachAll(s, event, fetched, p) == s
  {
    if fetched != [] {
      AttachAllWithoutEvent(s, event, fetched[..|fetched| - 1], p);
    }
  }

  lemma {:induction false} AttachAllKeepsEvents(s: Store, event: EventId, fetched: seq<Option<Fetched>>, p: Policy)
    ensures AttachAll(s, event, fetched, p).events == s.events
  {
    if fetched != [] {
      AttachAllKeepsEvents(s, event, fetched[..|fetched| - 1], p);
    }
  }

  predicate IsOrphan(row: Snapshot, references: set<Reference>) {
    !Referenced(references, row.id)
  }

  function Orphans(snapshots: seq<Snapshot>, references: set<Reference>): seq<Snapshot> {
    if snapshots == [] then []
    else (if IsOrphan(snapshots[0], references) then [snapshots[0]] else []) + Orphans(snapshots[1..], references)
  }

  function DropRow(snapshots: seq<Snapshot>, id: SnapshotId): seq<Snapshot> {
    if snapshots == [] then []
    else (if snapshots[0].id == id then [] else [snapshots[0]]) + DropRow(snapshots[1..], id)
  }

  function WithoutRows(snapshots: seq<Snapshot>, ids: set<SnapshotId>): seq<Snapshot> {
    if snapshots == [] then []
    else (if snapshots[0].id in ids then [] else [snapshots[0]]) + WithoutRows(snapshots[1..], ids)
  }

  function IdsOf(rows: seq<Snapshot>): set<SnapshotId> {
    set i | 0 <= i < |rows| :: rows[i].id
  }

  function PathsOf(rows: seq<Snapshot>): set<Path> {
    set i | 0 <= i < |rows| :: rows[i].path
  }

  lemma {:induction false} DropOneMore(snapshots: seq<Snapshot>, ids: set<SnapshotId>, id: SnapshotId)
    ensures DropRow(WithoutRows(snapshots, ids), id) == WithoutRows(snapshots, ids + {id})
  {
    if snapshots != [] {
      DropOneMore(snapshots[1..], ids, id);
      if snapshots[0].id !in ids {
        assert WithoutRows(snapshots, ids)[1..] == WithoutRows(snapshots[1..], ids);
      } else {
        assert WithoutRows(snapshots, ids) == WithoutRows(snapshots[1..], ids);
      }
    }
  }

  lemma {:induction false} WithoutNothing(snapshots: seq<Snapshot>)
    ensures WithoutRows(snapshots, {}) == snapshots
  {
    if snapshots != [] {
      WithoutNothing(snapshots[1..]);
    }
  }

  lemma {:induction false} OrphansIs(snapshots: seq<Snapshot>, references: set<Reference>)
    ensures forall row :: row in Orphans(snapshots, references) <==> row in snapshots && IsOrphan(row, references)
  {
    if snapshots != [] {
      OrphansIs(snapshots[1..], references);
      assert snapshots == [snapshots[0]] + snapshots[1..];
    }
  }

  lemma {:induction false} WithoutUnreferenced(snapshots: seq<Snapshot>, ids: set<SnapshotId>, references: set<Reference>)
    requires forall row :: row in snapshots ==> (row.id in ids <==> IsOrphan(row, references))
    ensures WithoutRows(snapshots, ids) == KeepReferenced(snapshots, references)
  {
    if snapshots != [] {
      assert snapshots[0] in snapshots;
      WithoutUnreferenced(snapshots[1..], ids, references);
    }
  }

  /** Dropping the orphans one by one leaves the referenced rows and their files. */
  lemma DroppingOrphans(snapshots: seq<Snapshot>, references: set<Reference>)
    ensures var orphans := Orphans(snapshots, references);
            && WithoutRows(snapshots, IdsOf(orphans)) == KeepReferenced(snapshots, references)
            && PathsOf(orphans) == OrphanPaths(snapshots, references)
  {
    var orphans := Orphans(snapshots, references);
    OrphansIs(snapshots, references);
    forall row | row in snapshots ensures row.id in IdsOf(orphans) <==> IsOrphan(row, references) {
      if IsOrphan(row, references) {
        var i :| 0 <= i < |orphans| && orphans[i] == row;
        assert orphans[i].id in IdsOf(orphans);
      } else {
        assert forall i :: 0 <= i < |orphans| ==> IsOrphan(orphans[i], references);
      }
    }
    WithoutUnreferenced(snapshots, IdsOf(orphans), references);
    forall f | f in PathsOf(orphans) ensures f in OrphanPaths(snapshots, references) {
      var i :| 0 <= i < |orphans| && orphans[i].path == f;
      assert orphans[i] in orphans;
      var j :| 0 <= j < |snapshots| && snapshots[j] == orphans[i];
      assert !Referenced(references, snapshots[j].id);
    }
    forall f | f in OrphanPaths(snapshots, references) ensures f in PathsOf(orphans) {
      var j :| 0 <= j < |snapshots| && !Referenced(references, snapshots[j].id) && snapshots[j].path == f;
      assert snapshots[j] in snapshots;
      var i :| 0 <= i < |orphans| && orphans[i] == snapshots[j];
      assert orphans[i].path == f;
    }
  }

  lemma OneMore(rows: seq<Snapshot>, i: nat)
    requires i < |rows|
    ensures PathsOf(rows[..i + 1]) == PathsOf(rows[..i]) + {rows[i].path}
    ensures IdsOf(rows[..i + 1]) == IdsOf(rows[..i]) + {rows[i].id}
  {
    var more, fewer := rows[..i + 1], rows[..i];
    assert more[i] == rows[i];
    forall f | f in PathsOf(fewer) ensures f in PathsOf(more) {
      var j :| 0 <= j < |fewer| && fewer[j].path == f;
      assert more[j].path == f;
    }
    forall id | id in IdsOf(fewer) ensures id in IdsOf(more) {
      var j :| 0 <= j < |fewer| && fewer[j].id == id;
      assert more[j].id == id;
    }
  }

  lemma InTwoRounds(s: Store, between: Store, after: Store, j: nat, k: nat)
    requires j + k <= |s.events| && between == Evict(s, j) && after == Evict(between, k)
    ensures after == Evict(s, j + k)
  {
    EvictTwice(s, j, k);
  }

  lemma UnlessWithinLimits(s: Store, now: real, free: seq<int>, p: Policy)
    requires Valid(s)
    ensures WithinLimits(s, now, free, p) ==> Taken(s, now, free, p) == 0 && Evict(s, 0) == s
  {
    if WithinLimits(s, now, free, p) {
      NothingToTake(s, now, free, p);
    }
  }

  lemma StaysValid(s: Store, after: Store, k: nat)
    requires Valid(s) && k <= |s.events| && after == Evict(s, k)
    ensures Valid(after)
  {
    EvictKeepsValid(s, k);
  }

  lemma DueInTwoRounds(
    s: Store, between: Store, after: Store, now: real, p: Policy, high: int, low: int, first: nat, bytes: nat)
    requires first == DueByAgeAndCount(s, now, p) && between == Evict(s, first)
    requires bytes == ByteEvictions(between, high, low) && after == Evict(between, bytes)
    ensures first + bytes == DueWith(s, now, p, high, low) && after == Evict(s, first + bytes)
  {
    InTwoRounds(s, between, after, first, bytes);
  }

  class Telemetry {
    const policy: Policy
    var events: seq<Event>
    var snapshots: seq<Snapshot>
    var references: set<Reference>
    var files: set<Path>

    function View(): Store
      reads this
    {
      Store(events, snapshots, references, files)
    }

    constructor (policy: Policy)
      ensures this.policy == policy && View() == EmptyStore
    {
      this.policy := policy;
      events, snapshots, references, files := [], [], {}, {};
    }

    method IngestEvent(e: Event) returns (inserted: bool)
      modifies this
      ensures View() == Ingest(old(View()), e, policy)
      ensures inserted <==> |events| > |old(events)|
    {
      inserted := e.bytes <= policy.maximumEventBytes && !Live(events, e.id);
      if inserted {
        events := InsertEvent(events, e);
      }
    }

    /** One transaction per fetched snapshot; the loop stops once the event is gone. */
    method AttachSnapshots(event: EventId, fetched: seq<Option<Fetched>>)
      modifies this
      ensures View() == AttachAll(old(View()), event, fetched, policy)
    {
      ghost var s0 := View();
      var i := 0;
      while i < |fetched|
        invariant 0 <= i <= |fetched|
        invariant View() == AttachAll(s0, event, fetched[..i], policy)
      {
        assert fetched[..i + 1][..i] == fetched[..i];
        if fetched[i].Some? && fetched[i].value.bytes <= policy.maximumSnapshotBytes {
          if !Live(events, event) {
            AttachAllKeepsEvents(s0, event, fetched[..i], policy);
            AttachAllWithoutEvent(s0, event, fetched[..i], policy);
            AttachAllWithoutEvent(s0, event, fetched, policy);
            return;
          }
          StoreSnapshot(event, fetched[i].value);
        }
        i := i + 1;
      }
      assert fetched[..i] == fetched;
    }

    method StoreSnapshot(event: EventId, f: Fetched)
      requires Live(events, event) && f.bytes <= policy.maximumSnapshotBytes
      modifies this
      ensures View() == Attach(old(View()), event, f.id, f.jpeg, f.bytes, f.url, policy)
    {
      var target := Path(f.id, f.jpeg);
      if target !in files {
        files := files + {target};
      }
      if RowOf(snapshots, f.id).None? {
        snapshots := snapshots + [Snapshot(f.id, target, f.bytes)];
      }
      references := references + {Reference(event, f.id, f.url)};
    }

    method DeleteStored(gone: set<EventId>)
      modifies this
      ensures View() == DeleteEvents(old(View()), gone)
    {
      if gone == {} {
        return;
      }
      events := KeepEvents(events, gone);
      references := set r | r in references && r.event !in gone;
      var orphans := Orphans(snapshots, references);
      ghost var rows, paths := snapshots, files;
      WithoutNothing(rows);
      assert IdsOf(orphans[..0]) == {} && PathsOf(orphans[..0]) == {};
      var i := 0;
      while i < |orphans|
        invariant 0 <= i <= |orphans|
        invariant snapshots == WithoutRows(rows, IdsOf(orphans[..i]))
        invariant files == paths - PathsOf(orphans[..i])
        invariant events == KeepEvents(old(events), gone)
        invariant references == set r | r in old(references) && r.event !in gone
      {
        OneMore(orphans, i);
        DropOneMore(rows, IdsOf(orphans[..i]), orphans[i].id);
        files := files - {orphans[i].path};
        snapshots := DropRow(snapshots, orphans[i].id);
        i := i + 1;
      }
      assert orphans[..i] == orphans;
      DroppingOrphans(rows, references);
    }

    method OldestBatch() returns (batch: set<EventId>, size: nat)
      ensures size == BatchSize(|events|) <= |events| && batch == EventIds(events[..size])
    {
      var limit := if |events| <= 1 then |events| else if |events| - 1 < BatchLimit then |events| - 1 else BatchLimit;
      size := limit;
      batch := EventIds(events[..limit]);
    }

    /** Deleting the oldest k events. */
    method DeleteOldest(oldest: set<EventId>, ghost k: nat)
      requires Valid(View()) && k <= |events| && oldest == EventIds(events[..k])
      modifies this
      ensures View() == Evict(old(View()), k) && Valid(View())
    {
      DeleteOldestIsEvict(View(), k);
      EvictKeepsValid(View(), k);
      DeleteStored(oldest);
    }

    /** Age, then count, then bytes from high to low water, then free disk space,
        which is read anew before every batch. */
    method EnforceRetention(now: real, free: seq<int>) returns (removed: nat)
      requires Valid(View()) && ValidPolicy(policy)
      modifies this
      ensures removed == Taken(old(View()), now, free, policy) && View() == Evict(old(View()), removed)
      ensures WithinLimits(old(View()), now, free, policy) ==> removed == 0 && View() == old(View())
    {
      ghost var s0 := View();
      var high, low := HighBytes(policy), LowBytes(policy);
      var due := EvictDue(now, high, low);
      ghost var s1 := View();
      StaysValid(s0, s1, due);
      var more := EvictUnderPressure(free);
      InTwoRounds(s0, s1, View(), due, more);
      removed := due + more;
      UnlessWithinLimits(s0, now, free, policy);
    }

    method EvictDue(now: real, high: int, low: int) returns (removed: nat)
      requires Valid(View())
      modifies this
      ensures removed == DueWith(old(View()), now, policy, high, low)
      ensures View() == Evict(old(View()), removed)
    {
      ghost var s0 := View();
      var first := EvictByAgeAndCount(now);
      ghost var s1 := View();
      assert Valid(s1) by { EvictKeepsValid(s0, first); }
      var bytes := EvictToLowWater(high, low);
      DueInTwoRounds(s0, s1, View(), now, policy, high, low, first, bytes);
      removed := first + bytes;
    }

    method EvictByAgeAndCount(now: real) returns (removed: nat)
      requires Valid(View())
      modifies this
      ensures removed == DueByAgeAndCount(old(View()), now, policy)
      ensures View() == Evict(old(View()), removed)
    {
      ghost var s0 := View();
      ghost var n := ExpiredCount(events, now - policy.maximumAge);
      ExpiredAreOldest(events, now - policy.maximumAge);
      var before := |events|;
      DeleteOldest(ExpiredIds(events, now - policy.maximumAge), n);
      removed := before - |events|;
      if |events| > policy.maximumEvents {
        var excess := |events| - policy.maximumEvents;
        EvictTwice(s0, n, excess);
        DeleteOldest(EventIds(events[..excess]), excess);
        removed := removed + excess;
      }
    }

    method EvictToLowWater(high: int, low: int) returns (removed: nat)
      requires Valid(View())
      modifies this
      ensures removed == ByteEvictions(old(View()), high, low)
      ensures View() == Evict(old(View()), removed)
    {
      ghost var s0 := View();
      removed := 0;
      EvictNothing(s0);
      while LogicalBytes(View()) >= high
        invariant Valid(View()) && removed <= |s0.events| && View() == Evict(s0, removed)
        invariant removed + ByteEvictions(View(), high, low) == ByteEvictions(s0, high, low)
        decreases |events|
      {
        var batch, size := OldestBatch();
        if size == 0 {
          break;
        }
        EvictTwice(s0, removed, size);
        DeleteOldest(batch, size);
        removed := removed + size;
        if LogicalBytes(View()) <= low {
          break;
        }
      }
    }

    method EvictUnderPressure(free: seq<int>) returns (removed: nat)
      requires Valid(View())
      modifies this
      ensures removed == PressureEvictions(old(View()), free, policy)
      ensures View() == Evict(old(View()), removed)
    {
      ghost var s0 := View();
      removed := 0;
      EvictNothing(s0);
      var reading := 0;
      assert free[0..] == free;
      while reading < |free| && free[reading] < policy.minimumFreeBytes
        invariant Valid(View()) && reading <= |free| && removed <= |s0.events| && View() == Evict(s0, removed)
        invariant removed + PressureEvictions(View(), free[reading..], policy) == PressureEvictions(s0, free, policy)
        decreases |free| - reading
      {
        var batch, size := OldestBatch();
        if size == 0 {
          break;
        }
        PressureGoesOn(View(), free, reading, policy);
        EvictTwice(s0, removed, size);
        DeleteOldest(batch, size);
        removed := removed + size;
        reading := reading + 1;
      }
      PressureEnds(View(), free, reading, policy);
    }
  }
}
