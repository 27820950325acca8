/** The naming columns of the session rows, updated in place next to the identity
    tables they talk to (tvt_edge/service.py). */
module NamingDesk {
  import opened Options
  import opened Identity
  import opened Naming
  import opened PersonStore

  /** The captures in the first `batches` batches of sixteen. */
  function Delivered(ids: seq<CaptureId>, batches: nat): seq<CaptureId> {
    if 16 * batches <= |ids| then ids[..16 * batches] else ids
  }

  lemma DiscardTwice(s: Store, first: seq<CaptureId>, more: seq<CaptureId>)
    ensures Discard(Discard(s, first), more) == Discard(s, first + more)
  {
    assert forall c :: c in first + more <==> c in first || c in more;
  }

  /** The cancellation of a session's naming and the captures it gives up. */
  function DiscardedWithCaptures(s: System, a: nat, batches: nat): System {
    var cancelled := CancelNaming(s, a);
    if a < |s.rows| && s.rows[a].naming == PendingName
    then cancelled.(store := Discard(s.store, Delivered(s.rows[a].captures, batches))) else cancelled
  }

  lemma NothingToDiscard(s: System, a: nat, batches: nat)
    requires a < |s.rows| ==> s.rows[a].naming != PendingName
    ensures DiscardedWithCaptures(s, a, batches) == s
  {
    if a < |s.rows| {
      assert s.rows == s.rows[a := s.rows[a]];
    }
  }

  /** The first `n` sessions looked at; the store takes `batches(a)` batches of session `a`. */
  function ExpiredFirst(s: System, now: real, batches: nat -> nat, n: nat): (r: System)
    requires n <= |s.rows|
    ensures |r.rows| == |s.rows|
  {
    if n == 0 then s
    else
      var before := ExpiredFirst(s, now, batches, n - 1);
      if before.rows[n - 1].capturedAt <= now - NamingTimeout
      then DiscardedWithCaptures(before, n - 1, batches(n - 1)) else before
  }

  lemma DiscardKeepsInv(s: System, ids: seq<CaptureId>)
    requires Inv(s)
    ensures Inv(s.(store := Discard(s.store, ids)))
  {
    StoreStepKeepsInv(s, Discard(s.store, ids));
  }

  lemma AcceptKeepsInv(s: System, a: nat, ids: seq<CaptureId>, matched: Option<PersonId>, now: real, given: seq<CaptureId>)
    requires Inv(s)
    ensures var accepted := Accept(s, a, ids, matched, now);
            Inv(accepted) && Inv(accepted.(store := Discard(accepted.store, given)))
  {
    RowStepsKeepInv(s, Accepts(a, ids, matched, now), 0.0, (x, y) => 0.0);
    DiscardKeepsInv(Accept(s, a, ids, matched, now), given);
  }

  lemma DiscardedKeepsInv(s: System, a: nat, batches: nat)
    requires Inv(s)
    ensures Inv(DiscardedWithCaptures(s, a, batches))
  {
    RowStepsKeepInv(s, CancelsNaming(a), 0.0, (x, y) => 0.0);
    if a < |s.rows| && s.rows[a].naming == PendingName {
      DiscardKeepsInv(CancelNaming(s, a), Delivered(s.rows[a].captures, batches));
    }
  }

  /** The three transactions of a request that nothing interrupts. */
  lemma NamingKeepsInv(s: System, a: nat, name: string, now: real, found: map<CaptureId, seq<nat>>,
                       threshold: real, sim: Similarity, given: seq<CaptureId>)
    requires Inv(s) && s.requests == [] && Answers(s.store, found, sim)
    ensures var settled := Settle(Enrolls(Ask(s, a, name), 0, now, found, threshold, sim), 0);
            && Inv(System(settled.rows, [], settled.store))
            && Inv(System(settled.rows, [], Discard(settled.store, given)))
  {
    AskKeepsInv(s, a, name);
    EnrollStepKeepsInv(Ask(s, a, name), 0, now, found, threshold, sim);
    SettleKeepsInv(Enrolls(Ask(s, a, name), 0, now, found, threshold, sim), 0);
    var settled := Settle(Enrolls(Ask(s, a, name), 0, now, found, threshold, sim), 0);
    DiscardKeepsInv(System(settled.rows, [], settled.store), given);
  }

  /** Session `a` waits for a name past its time. */
  predicate Overdue(s: System, a: nat, now: real)
    requires a < |s.rows|
  {
    s.rows[a].naming == PendingName && s.rows[a].capturedAt + 900.0 <= now
  }

  /** Exactly the overdue ones of the first `n` sessions are discarded, and the staged
      captures that go are exactly those of theirs that the store took. */
  ghost predicate DiscardsOverdue(s: System, after: System, now: real, batches: nat -> nat, n: nat) {
    && |after.rows| == |s.rows|
    && (forall a :: 0 <= a < |s.rows| ==>
          after.rows[a] == if a < n && Overdue(s, a, now) then s.rows[a].(naming := Discarded) else s.rows[a])
    && after.requests == s.requests && after.store == s.store.(staged := after.store.staged)
    && (forall c :: c in after.store.staged <==>
          && c in s.store.staged
          && forall a :: 0 <= a < n && a < |s.rows| && Overdue(s, a, now) ==> c !in Delivered(s.rows[a].captures, batches(a)))
    && (forall c :: c in after.store.staged ==> after.store.staged[c] == s.store.staged[c])
  }

  lemma {:induction false} ExpiredExactly(s: System, now: real, batches: nat -> nat, n: nat)
    requires n <= |s.rows|
    ensures DiscardsOverdue(s, ExpiredFirst(s, now, batches, n), now, batches, n)
  {
    if n > 0 {
      ExpiredExactly(s, now, batches, n - 1);
      OneMoreLookedAt(s, ExpiredFirst(s, now, batches, n - 1), ExpiredFirst(s, now, batches, n), now, batches, n - 1);
    }
  }

  lemma OneMoreLookedAt(s: System, before: System, after: System, now: real, batches: nat -> nat, a: nat)
    requires a < |s.rows| && DiscardsOverdue(s, before, now, batches, a)
    requires after == if before.rows[a].capturedAt <= now - NamingTimeout
                      then DiscardedWithCaptures(before, a, batches(a)) else before
    ensures DiscardsOverdue(s, after, now, batches, a + 1)
  {
    assert before.rows[a] == s.rows[a];
    if !Overdue(s, a, now) {
      if s.rows[a].naming != PendingName {
        NothingToDiscard(before, a, batches(a));
      }
      assert after == before;
    } else {
      assert after.rows == before.rows[a := s.rows[a].(naming := Discarded)];
      assert after.store == Discard(before.store, Delivered(s.rows[a].captures, batches(a)));
      assert forall c :: c in after.store.staged <==> c in before.store.staged && c !in Delivered(s.rows[a].captures, batches(a));
    }
  }

  class Desk {
    var rows: seq<Row>
    const people: PersonTables

    constructor (people: PersonTables)
      ensures rows == [] && this.people == people
      ensures Sound(people.View()) ==> Inv(View())
    {
      rows := [];
      this.people := people;
    }

    function View(): System
      reads this, people
    {
      System(rows, [], people.View())
    }

    /** Discards staged captures sixteen at a time until the store fails; it takes the
        first `batches`, and what is left expires there on its own. */
    method DiscardStaged(ids: seq<CaptureId>, batches: nat)
      modifies people`staged
      ensures people.View() == Discard(old(people.View()), Delivered(ids, batches))
    {
      ghost var before := people.View();
      var k := 0;
      assert Delivered(ids, 0) == [];
      while k < batches && 16 * k < |ids|
        invariant 0 <= k <= batches && people.View() == Discard(before, Delivered(ids, k))
        decreases |ids| - 16 * k
      {
        var to := if 16 * (k + 1) <= |ids| then 16 * (k + 1) else |ids|;
        DiscardTwice(before, Delivered(ids, k), ids[16 * k..to]);
        assert Delivered(ids, k) + ids[16 * k..to] == Delivered(ids, k + 1);
        people.DiscardCaptures(ids[16 * k..to]);
        k := k + 1;
      }
      assert Delivered(ids, k) == Delivered(ids, batches);
    }

    method AcceptCaptures(a: nat, ids: seq<CaptureId>, matched: Option<PersonId>, now: real, batches: nat)
      modifies this, people`staged
      ensures var accepted := Accept(old(View()), a, ids, matched, now);
              View() == if accepted != old(View()) && matched.Some?
                        then accepted.(store := Discard(accepted.store, Delivered(ids, batches))) else accepted
      ensures Inv(old(View())) ==> Inv(View())
    {
      ghost var before := View();
      if a >= |rows| || !rows[a].open || ids == [] {
        return;
      }
      var b := 0;
      while b < |rows|
        invariant 0 <= b <= |rows|
        invariant forall c :: 0 <= c < b ==> rows[c].accepted != Some(ids[0])
      {
        if rows[b].accepted == Some(ids[0]) {
          return;
        }
        b := b + 1;
      }
      var row := rows[a].(open := false, accepted := Some(ids[0]), capturedAt := now);
      if matched.Some? {
        row := row.(captures := [], person := matched, naming := NotApplicable);
      } else {
        row := row.(captures := ids, person := None, naming := PendingName);
      }
      assert row != rows[a];
      rows := rows[a := row];
      if matched.Some? {
        DiscardStaged(ids, batches);
      }
      if Inv(before) {
        AcceptKeepsInv(before, a, ids, matched, now, Delivered(ids, batches));
      }
    }

    /** Cancels a session whose face waits for a name, and gives its captures up. */
    method DiscardUnnamed(a: nat, batches: nat)
      modifies this, people`staged
      ensures View() == DiscardedWithCaptures(old(View()), a, batches)
      ensures Inv(old(View())) ==> Inv(View())
    {
      ghost var before := View();
      if a < |rows| && rows[a].naming == PendingName {
        rows := rows[a := rows[a].(naming := Discarded)];
        DiscardStaged(rows[a].captures, batches);
      } else {
        NothingToDiscard(View(), a, batches);
      }
      if Inv(before) {
        DiscardedKeepsInv(before, a, batches);
      }
    }

    /** Discards every captured face that nobody named in time, with its captures. */
    method ExpireUnnamed(now: real, batches: nat -> nat)
      modifies this, people`staged
      ensures View() == ExpiredFirst(old(View()), now, batches, old(|rows|))
      ensures Inv(old(View())) ==> Inv(View())
    {
      ghost var before := View();
      var a := 0;
      while a < |rows|
        invariant 0 <= a <= |rows| == |before.rows|
        invariant View() == ExpiredFirst(before, now, batches, a)
        invariant Inv(before) ==> Inv(View())
      {
        if rows[a].capturedAt <= now - NamingTimeout {
          DiscardUnnamed(a, batches(a));
        }
        a := a + 1;
      }
    }

    /** A naming request whose three transactions are not interrupted. The captures of
        somebody already known are given up. */
    method NameSession(a: nat, name: string, now: real, found: map<CaptureId, seq<nat>>, batches: nat)
      requires CanLookUp(people.View(), found)
      modifies this, people
      ensures var asked := Ask(old(View()), a, name);
              if asked == old(View()) then View() == old(View())
              else var settled := Settle(Enrolls(asked, 0, now, found, people.threshold, people.sim), 0);
                   && rows == settled.rows
                   && people.View() == if settled.requests[0].outcome == Some(Refused(true))
                                       then Discard(settled.store, Delivered(old(rows)[a].captures, batches)) else settled.store
      ensures Inv(old(View())) && Answers(old(people.View()), found, people.sim) ==> Inv(View())
    {
      ghost var before := View();
      if a >= |rows| || !(1 <= |name| <= MaximumName) || rows[a].naming != PendingName || rows[a].captures == [] {
        return;
      }
      var outcome := people.EnrollPerson(rows[a].captures, name, now, found);
      match outcome {
        case Ok(person) => rows := rows[a := rows[a].(naming := Named, person := Some(person))];
        case Err(error) =>
          rows := rows[a := rows[a].(naming := Discarded)];
          if error.Duplicate? {
            DiscardStaged(rows[a].captures, batches);
          }
      }
      if Inv(before) && Answers(before.store, found, people.sim) {
        NamingKeepsInv(before, a, name, now, found, people.threshold, people.sim, Delivered(before.rows[a].captures, batches));
      }
    }
  }
}
