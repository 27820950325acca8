/** The outbox table under its workers (tvt_edge/alerting/outbox.py): each
    transaction updates rows in place and matches a step of Outbox. */
module OutboxWorker {
  import opened Options
  import opened Outbox

  datatype Decision = Stale | Deliver | CloseAs(outcome: Outcome)

  /** Claim order: the earliest due attempt, then the oldest item. */
  predicate Before(a: Item, b: Item) {
    a.nextAttemptAt < b.nextAttemptAt || (a.nextAttemptAt == b.nextAttemptAt && a.createdAt <= b.createdAt)
  }

  predicate Claimable(items: map<ItemId, Item>, id: ItemId, locked: set<ItemId>, now: real) {
    id in items && id !in locked && Due(items[id], now)
  }

  ghost function ItemsOf(w: World): map<ItemId, Item> {
    map id | id in w.entries :: w.entries[id].item
  }

  ghost function AttemptsOf(w: World): map<ItemId, seq<Attempt>> {
    map id | id in w.entries :: w.entries[id].attempts
  }

  lemma FinishedRows(w: World, id: ItemId, token: Token, outcome: Outcome, now: real, p: Policy)
    requires token in w.jobs && w.jobs[token] in {Sending(id), Closing(id, outcome)}
    requires id in w.entries && Holds(w.entries[id].item, token)
    ensures var w', item := FinishStep(w, token, outcome, now, p), w.entries[id].item;
            && ItemsOf(w') == ItemsOf(w)[id := Finished(item, outcome, now, p)]
            && AttemptsOf(w') == AttemptsOf(w)[id :=
                 w.entries[id].attempts + [Attempt(item.attemptCount, Recorded(item, outcome, now, p), now)]]
  {
  }

  lemma ClaimedRows(w: World, id: ItemId, now: real, p: Policy)
    requires id in w.entries && Due(w.entries[id].item, now)
    ensures var w' := ClaimStep(w, id, now, p);
            && ItemsOf(w') == ItemsOf(w)[id := Claimed(w.entries[id].item, w.nextToken, now, p)]
            && AttemptsOf(w') == AttemptsOf(w)
  {
  }

  class Table {
    const policy: Policy
    var items: map<ItemId, Item>
    var attempts: map<ItemId, seq<Attempt>>
    var nextToken: Token

    constructor (policy: Policy)
      ensures this.policy == policy && Matches(EmptyWorld)
    {
      this.policy := policy;
      items, attempts, nextToken := map[], map[], 0;
    }

    /** The table holds exactly the items and attempt rows of the world. */
    ghost predicate Matches(w: World)
      reads this
    {
      nextToken == w.nextToken && items == ItemsOf(w) && attempts == AttemptsOf(w)
    }

    /** Claims the first due item that no other transaction has locked. */
    method Claim(now: real, locked: set<ItemId>, ghost w: World) returns (claimed: Option<ItemId>)
      requires Matches(w)
      modifies this
      ensures claimed.None? ==> (forall id :: !Claimable(old(items), id, locked, now)) && Matches(w)
      ensures claimed.Some? ==>
                && Claimable(old(items), claimed.value, locked, now)
                && (forall id :: Claimable(old(items), id, locked, now) ==>
                      Before(old(items)[claimed.value], old(items)[id]))
                && Matches(ClaimStep(w, claimed.value, now, policy))
    {
      claimed := None;
      var left := items.Keys;
      while left != {}
        invariant left <= items.Keys
        invariant claimed.None? ==> forall id :: id in items && id !in left ==> !Claimable(items, id, locked, now)
        invariant claimed.Some? ==>
                    && Claimable(items, claimed.value, locked, now)
                    && forall id :: id !in left && Claimable(items, id, locked, now) ==> Before(items[claimed.value], items[id])
      {
        var id :| id in left;
        left := left - {id};
        if id !in locked && Due(items[id], now) && (claimed.None? || Before(items[id], items[claimed.value])) {
          claimed := Some(id);
        }
      }
      if claimed.Some? {
        ClaimedRows(w, claimed.value, now, policy);
        var item := items[claimed.value];
        items := items[claimed.value := item.(
          status := Delivering,
          lease := Some(Lease(nextToken, now + policy.leaseSeconds)),
          attemptCount := item.attemptCount + 1)];
        nextToken := nextToken + 1;
      }
    }

    /** What a worker does after rereading the item it claimed. */
    method Reread(id: ItemId, token: Token, referenced: bool, now: real) returns (d: Decision)
      ensures d.Stale? <==> !(id in items && Holds(items[id], token))
      ensures d.Deliver? ==> referenced && now < items[id].createdAt + policy.maxAge
      ensures d.CloseAs? ==> d.outcome == if referenced then TooOld else PermanentFailure
      ensures d.CloseAs? && referenced ==> now >= items[id].createdAt + policy.maxAge
    {
      if id !in items || !Holds(items[id], token) {
        return Stale;
      }
      if !referenced {
        return CloseAs(PermanentFailure);
      }
      if now - items[id].createdAt >= policy.maxAge {
        return CloseAs(TooOld);
      }
      return Deliver;
    }

    method Finish(id: ItemId, token: Token, outcome: Outcome, now: real, ghost w: World)
      requires Matches(w)
      requires token in w.jobs && w.jobs[token] in {Sending(id), Closing(id, outcome)}
      modifies this
      ensures Matches(FinishStep(w, token, outcome, now, policy))
      ensures !(id in old(items) && Holds(old(items)[id], token)) ==> items == old(items) && attempts == old(attempts)
    {
      if id !in items || !Holds(items[id], token) {
        return;
      }
      FinishedRows(w, id, token, outcome, now, policy);
      var item, result := Close(items[id], outcome, now);
      items := items[id := item];
      attempts := attempts[id := attempts[id] + [Attempt(item.attemptCount, result, now)]];
    }

    /** The new row and what its attempt is recorded as. */
    method Close(before: Item, outcome: Outcome, now: real) returns (item: Item, result: Outcome)
      ensures item == Finished(before, outcome, now, policy)
      ensures result == Recorded(before, outcome, now, policy)
    {
      item, result := before, outcome;
      match outcome {
        case TooOld =>
          item := item.(status := Expired);
        case Accepted =>
          item := item.(status := Sent);
        case PermanentFailure =>
          item := item.(status := Failed);
        case TransientFailure =>
          var delay := Delay(item.attemptCount);
          if now - item.createdAt + delay >= policy.maxAge {
            item := item.(status := Expired);
            result := TooOld;
          } else {
            item := item.(status := Pending, nextAttemptAt := now + delay);
          }
      }
      item := item.(lease := None);
    }
  }
}
