/** The notification outbox: leases, retries and the age limit
    (tvt_edge/alerting/outbox.py, tvt_edge/db/models.py).

    Workers interleave freely; each claim, check and finish is one transaction.
    A worker that crashes simply takes no further step. Tokens are issued fresh.
    Times are reals in seconds. */
module Outbox {
  import opened Options

  type ItemId = nat
  type Token = nat

  datatype Status = Pending | Delivering | Sent | Failed | Expired
  datatype Lease = Lease(token: Token, until: real)
  datatype Item = Item(
    status: Status, createdAt: real, nextAttemptAt: real, lease: Option<Lease>, attemptCount: nat)

  datatype Outcome = Accepted | TransientFailure | PermanentFailure | TooOld
  datatype Attempt = Attempt(number: nat, result: Outcome, finishedAt: real)

  datatype Policy = Policy(maxAge: real, leaseSeconds: real)

  const RetrySeconds: seq<real> := [60.0, 120.0, 300.0, 600.0, 1800.0, 3600.0]

  /** The delay after attempt n; the last one repeats, and index -1 is the last one too. */
  function Delay(n: nat): real {
    RetrySeconds[if n == 0 || n > 6 then 5 else n - 1]
  }

  // ---------------------------------------------------------------- one item

  predicate Terminal(status: Status) {
    status.Sent? || status.Failed? || status.Expired?
  }

  predicate Due(item: Item, now: real) {
    && item.nextAttemptAt <= now
    && (item.status.Pending? || (item.status.Delivering? && item.lease.Some? && item.lease.value.until < now))
  }

  predicate Holds(item: Item, token: Token) {
    item.lease.Some? && item.lease.value.token == token
  }

  function Claimed(item: Item, token: Token, now: real, p: Policy): Item {
    item.(status := Delivering, lease := Some(Lease(token, now + p.leaseSeconds)), attemptCount := item.attemptCount + 1)
  }

  predicate Aged(item: Item, now: real, p: Policy) {
    now - item.createdAt >= p.maxAge
  }

  /** What an outcome is recorded as: a retry that would come too late is an expiry. */
  function Recorded(item: Item, outcome: Outcome, now: real, p: Policy): Outcome {
    if outcome.TransientFailure? && now - item.createdAt + Delay(item.attemptCount) >= p.maxAge then TooOld else outcome
  }

  function Finished(item: Item, outcome: Outcome, now: real, p: Policy): Item {
    var closed := item.(lease := None);
    match Recorded(item, outcome, now, p)
    case Accepted => closed.(status := Sent)
    case PermanentFailure => closed.(status := Failed)
    case TooOld => closed.(status := Expired)
    case TransientFailure => closed.(status := Pending, nextAttemptAt := now + Delay(item.attemptCount))
  }

  // ---------------------------------------------------------------- all workers

  /** A send that was started, with the number of the claim and of the takeovers before it. */
  datatype Send = Send(number: nat, takeovers: nat, at: real)

  /** An item with its attempt rows and what has happened to it. */
  datatype Entry = Entry(item: Item, attempts: seq<Attempt>, sends: seq<Send>, takeovers: nat)

  /** Where a worker stands with the claim it took. */
  datatype Job = Holding(id: ItemId) | Sending(id: ItemId) | Closing(id: ItemId, outcome: Outcome)

  datatype World = World(entries: map<ItemId, Entry>, jobs: map<Token, Job>, nextToken: Token)

  datatype Step =
    | Enqueue(id: ItemId, first: real, now: real)
    | Claim(id: ItemId, now: real)
    | Begin(token: Token, referenced: bool, now: real)
    | Finish(token: Token, outcome: Outcome, now: real)

  function EnqueueStep(w: World, id: ItemId, first: real, now: real): World {
    if id in w.entries then w
    else w.(entries := w.entries[id := Entry(Item(Pending, now, first, None, 0), [], [], 0)])
  }

  function ClaimStep(w: World, id: ItemId, now: real, p: Policy): World {
    if id !in w.entries || !Due(w.entries[id].item, now) then w
    else
      var e := w.entries[id];
      World(
        w.entries[id := e.(item := Claimed(e.item, w.nextToken, now, p),
                           takeovers := e.takeovers + if e.item.status.Delivering? then 1 else 0)],
        w.jobs[w.nextToken := Holding(id)],
        w.nextToken + 1)
  }

  /** The worker rereads its item before it sends. */
  function BeginStep(w: World, token: Token, referenced: bool, now: real, p: Policy): World {
    if token !in w.jobs || !w.jobs[token].Holding? then w
    else
      var id := w.jobs[token].id;
      if id !in w.entries || !Holds(w.entries[id].item, token) then w.(jobs := w.jobs - {token})
      else
        var e := w.entries[id];
        if !referenced then w.(jobs := w.jobs[token := Closing(id, PermanentFailure)])
        else if Aged(e.item, now, p) then w.(jobs := w.jobs[token := Closing(id, TooOld)])
        else w.(jobs := w.jobs[token := Sending(id)],
                entries := w.entries[id := e.(sends := e.sends + [Send(e.item.attemptCount, e.takeovers, now)])])
  }

  function FinishStep(w: World, token: Token, outcome: Outcome, now: real, p: Policy): World {
    if token !in w.jobs || w.jobs[token].Holding? then w
    else
      var job := w.jobs[token];
      var decided := if job.Closing? then job.outcome else outcome;
      var w' := w.(jobs := w.jobs - {token});
      if job.id !in w.entries || !Holds(w.entries[job.id].item, token) then w'
      else
        var e := w.entries[job.id];
        w'.(entries := w.entries[job.id := e.(
              item := Finished(e.item, decided, now, p),
              attempts := e.attempts + [Attempt(e.item.attemptCount, Recorded(e.item, decided, now, p), now)])])
  }

  function Next(w: World, step: Step, p: Policy): World {
    match step
    case Enqueue(id, first, now) => EnqueueStep(w, id, first, now)
    case Claim(id, now) => ClaimStep(w, id, now, p)
    case Begin(token, referenced, now) => BeginStep(w, token, referenced, now, p)
    case Finish(token, outcome, now) => FinishStep(w, token, outcome, now, p)
  }

  function Run(w: World, steps: seq<Step>, p: Policy): World {
    if steps == [] then w else Next(Run(w, steps[..|steps| - 1], p), steps[|steps| - 1], p)
  }

  const EmptyWorld := World(map[], map[], 0)

  // ---------------------------------------------------------------- the invariant

  ghost predicate ItemOk(item: Item, nextToken: Token) {
    && (item.status.Delivering? <==> item.lease.Some?)
    && (item.lease.Some? ==> item.attemptCount >= 1 && item.lease.value.token < nextToken)
  }

  /** Attempt rows: increasing numbers, none of the claim now held, and a
      conclusive row only as the last one of a closed item. */
  ghost predicate AttemptsOk(e: Entry) {
    && (forall i :: 0 <= i < |e.attempts| ==>
          && 1 <= e.attempts[i].number <= e.item.attemptCount
          && (e.item.status.Delivering? ==> e.attempts[i].number < e.item.attemptCount))
    && (forall i, j :: 0 <= i < j < |e.attempts| ==>
          e.attempts[i].number < e.attempts[j].number && e.attempts[i].result.TransientFailure?)
    && (Terminal(e.item.status) <==> e.attempts != [] && !e.attempts[|e.attempts| - 1].result.TransientFailure?)
    && (Terminal(e.item.status) ==>
          match e.attempts[|e.attempts| - 1].result
          case Accepted => e.item.status.Sent?
          case PermanentFailure => e.item.status.Failed?
          case _ => e.item.status.Expired?)
  }

  ghost predicate SendsOk(e: Entry, p: Policy) {
    && (forall i :: 0 <= i < |e.sends| ==>
          1 <= e.sends[i].number <= e.item.attemptCount && e.sends[i].at - e.item.createdAt < p.maxAge
          && e.sends[i].takeovers <= e.takeovers)
    && (forall i, j :: 0 <= i < j < |e.sends| ==> e.sends[i].number < e.sends[j].number)
    && (e.item.status.Pending? && e.attempts != [] ==> e.item.nextAttemptAt - e.item.createdAt < p.maxAge)
  }

  /** The mail went out under the claim now held. */
  ghost predicate SentUnderClaim(e: Entry) {
    e.sends != [] && e.sends[|e.sends| - 1].number == e.item.attemptCount
  }

  /** A sent item was accepted at the attempt that sent it. */
  ghost predicate SentOk(e: Entry) {
    e.item.status.Sent? ==> SentUnderClaim(e) && e.attempts != [] && e.attempts[|e.attempts| - 1].number == e.item.attemptCount
  }

  /** The holder's job is about this item. Until the holder begins, nothing was sent under
      its claim; a worker sends before it reports, and one that does not send closes the item. */
  ghost predicate HolderOk(id: ItemId, e: Entry, jobs: map<Token, Job>) {
    e.item.lease.Some? && e.item.lease.value.token in jobs ==>
      var job := jobs[e.item.lease.value.token];
      && job.id == id
      && (job.Holding? ==> forall i :: 0 <= i < |e.sends| ==> e.sends[i].number < e.item.attemptCount)
      && (job.Sending? ==> SentUnderClaim(e))
      && (job.Closing? ==> job.outcome.PermanentFailure? || job.outcome.TooOld?)
  }

  ghost predicate EntryOk(id: ItemId, e: Entry, w: World, p: Policy) {
    ItemOk(e.item, w.nextToken) && AttemptsOk(e) && SendsOk(e, p) && SentOk(e) && HolderOk(id, e, w.jobs)
  }

  ghost predicate Inv(w: World, p: Policy) {
    && (forall id :: id in w.entries ==> EntryOk(id, w.entries[id], w, p))
    && (forall t :: t in w.jobs ==> t < w.nextToken)
  }

  lemma ClaimKeepsEntry(e: Entry, token: Token, more: nat, now: real, p: Policy)
    requires Due(e.item, now) && AttemptsOk(e) && SendsOk(e, p)
    ensures var e' := e.(item := Claimed(e.item, token, now, p), takeovers := e.takeovers + more);
            && AttemptsOk(e') && SendsOk(e', p)
            && forall i :: 0 <= i < |e'.sends| ==> e'.sends[i].number < e'.item.attemptCount
  {
  }

  /** An entry is unaffected by what happens to other tokens. */
  lemma OtherEntryKept(id: ItemId, e: Entry, w: World, w': World, p: Policy)
    requires EntryOk(id, e, w, p) && w.nextToken <= w'.nextToken
    requires e.item.lease.Some? ==>
               var t := e.item.lease.value.token;
               (t in w'.jobs ==> t in w.jobs && w'.jobs[t] == w.jobs[t])
    ensures EntryOk(id, e, w', p)
  {
  }

  lemma ClaimedEntryOk(w: World, id: ItemId, now: real, p: Policy)
    requires id in w.entries && EntryOk(id, w.entries[id], w, p) && Due(w.entries[id].item, now)
    ensures EntryOk(id, ClaimStep(w, id, now, p).entries[id], ClaimStep(w, id, now, p), p)
  {
    var e := w.entries[id];
    ClaimKeepsEntry(e, w.nextToken, if e.item.status.Delivering? then 1 else 0, now, p);
  }

  lemma ClaimKeepsInv(w: World, id: ItemId, now: real, p: Policy)
    requires Inv(w, p)
    ensures Inv(ClaimStep(w, id, now, p), p)
  {
    var w' := ClaimStep(w, id, now, p);
    if id in w.entries && Due(w.entries[id].item, now) {
      forall i | i in w'.entries ensures EntryOk(i, w'.entries[i], w', p) {
        if i == id {
          ClaimedEntryOk(w, id, now, p);
        } else {
          OtherEntryKept(i, w.entries[i], w, w', p);
        }
      }
    }
  }

  lemma SendKeepsEntry(e: Entry, now: real, p: Policy)
    requires e.item.lease.Some? && e.item.attemptCount >= 1 && AttemptsOk(e) && SendsOk(e, p) && !Aged(e.item, now, p)
    requires forall i :: 0 <= i < |e.sends| ==> e.sends[i].number < e.item.attemptCount
    ensures var e' := e.(sends := e.sends + [Send(e.item.attemptCount, e.takeovers, now)]);
            AttemptsOk(e') && SendsOk(e', p)
  {
  }

  lemma BegunEntryOk(w: World, token: Token, referenced: bool, now: real, p: Policy)
    requires Inv(w, p) && token in w.jobs && w.jobs[token].Holding? && w.jobs[token].id in w.entries
    requires Holds(w.entries[w.jobs[token].id].item, token)
    ensures var w', id := BeginStep(w, token, referenced, now, p), w.jobs[token].id;
            EntryOk(id, w'.entries[id], w', p)
  {
    var e := w.entries[w.jobs[token].id];
    assert EntryOk(w.jobs[token].id, e, w, p);
    if referenced && !Aged(e.item, now, p) {
      SendKeepsEntry(e, now, p);
    }
  }

  lemma BeginKeepsInv(w: World, token: Token, referenced: bool, now: real, p: Policy)
    requires Inv(w, p)
    ensures Inv(BeginStep(w, token, referenced, now, p), p)
  {
    var w' := BeginStep(w, token, referenced, now, p);
    forall i | i in w.entries ensures EntryOk(i, w'.entries[i], w', p) {
      assert EntryOk(i, w.entries[i], w, p);
      if Holds(w.entries[i].item, token) {
        if token in w.jobs && w.jobs[token].Holding? {
          BegunEntryOk(w, token, referenced, now, p);
        }
      } else {
        OtherEntryKept(i, w.entries[i], w, w', p);
      }
    }
  }

  lemma FinishKeepsEntry(e: Entry, outcome: Outcome, now: real, w: World, p: Policy)
    requires e.item.lease.Some? && ItemOk(e.item, w.nextToken) && AttemptsOk(e) && SendsOk(e, p)
    requires outcome.Accepted? ==> SentUnderClaim(e)
    ensures var e' := e.(
              item := Finished(e.item, outcome, now, p),
              attempts := e.attempts + [Attempt(e.item.attemptCount, Recorded(e.item, outcome, now, p), now)]);
            ItemOk(e'.item, w.nextToken) && AttemptsOk(e') && SendsOk(e', p) && SentOk(e')
  {
  }

  lemma FinishKeepsInv(w: World, token: Token, outcome: Outcome, now: real, p: Policy)
    requires Inv(w, p)
    ensures Inv(FinishStep(w, token, outcome, now, p), p)
  {
    var w' := FinishStep(w, token, outcome, now, p);
    forall i | i in w.entries ensures EntryOk(i, w'.entries[i], w', p) {
      assert EntryOk(i, w.entries[i], w, p);
      if Holds(w.entries[i].item, token) {
        if token in w.jobs && !w.jobs[token].Holding? {
          var job := w.jobs[token];
          FinishKeepsEntry(w.entries[i], if job.Closing? then job.outcome else outcome, now, w, p);
        }
      } else {
        OtherEntryKept(i, w.entries[i], w, w', p);
      }
    }
  }

  /** However the workers interleave, crash and take over from each other. */
  lemma {:induction false} RunKeepsInv(steps: seq<Step>, p: Policy)
    ensures Inv(Run(EmptyWorld, steps, p), p)
  {
    if steps != [] {
      RunKeepsInv(steps[..|steps| - 1], p);
      var w := Run(EmptyWorld, steps[..|steps| - 1], p);
      match steps[|steps| - 1]
      case Enqueue(id, first, now) =>
        var w' := EnqueueStep(w, id, first, now);
        forall i | i in w'.entries ensures EntryOk(i, w'.entries[i], w', p) {
          assert i in w.entries ==> EntryOk(i, w.entries[i], w, p);
        }
      case Claim(id, now) => ClaimKeepsInv(w, id, now, p);
      case Begin(token, referenced, now) => BeginKeepsInv(w, token, referenced, now, p);
      case Finish(token, outcome, now) => FinishKeepsInv(w, token, outcome, now, p);
    }
  }

  // ---------------------------------------------------------------- what becomes of an item

  /** What the holder does after rereading: it sends exactly if both references are there and
      the item is younger than the age limit, and closes it as failed or as too old otherwise. */
  lemma BeginDecides(w: World, token: Token, referenced: bool, now: real, p: Policy)
    requires Inv(w, p) && token in w.jobs && w.jobs[token].Holding? && w.jobs[token].id in w.entries
    requires Holds(w.entries[w.jobs[token].id].item, token)
    ensures var id := w.jobs[token].id;
            var w', e, young := BeginStep(w, token, referenced, now, p), w.entries[id],
                                now < w.entries[id].item.createdAt + p.maxAge;
            && (w'.jobs[token] == Sending(id) <==> referenced && young)
            && (w'.jobs[token] == Closing(id, TooOld) <==> referenced && !young)
            && (w'.jobs[token] == Closing(id, PermanentFailure) <==> !referenced)
            && w'.entries[id].item == e.item && w'.entries[id].attempts == e.attempts
            && w'.entries[id].sends ==
                 e.sends + if referenced && young then [Send(e.item.attemptCount, e.takeovers, now)] else []
  {
  }

  /** The row and the item after the holder's report. */
  ghost predicate Reported(e: Entry, e': Entry, result: Outcome, now: real) {
    && e'.sends == e.sends
    && e'.attempts == e.attempts + [Attempt(e.item.attemptCount, result, now)]
    && e'.item.createdAt == e.item.createdAt && e'.item.attemptCount == e.item.attemptCount && e'.item.lease.None?
    && (e'.item.status.Sent? <==> result.Accepted?)
    && (e'.item.status.Failed? <==> result.PermanentFailure?)
    && (e'.item.status.Expired? <==> result.TooOld?)
    && (e'.item.status.Pending? <==> result.TransientFailure?)
  }

  /** What the report of a holder makes of its item: sent exactly if it was sending and the
      mail was accepted, failed exactly if it was refused for good or nothing could be sent for
      want of a reference, and after a transient failure due again or, when the next attempt
      would come at the age limit or later, expired. */
  lemma FinishDecides(w: World, token: Token, outcome: Outcome, now: real, p: Policy)
    requires Inv(w, p) && token in w.jobs && !w.jobs[token].Holding? && w.jobs[token].id in w.entries
    requires Holds(w.entries[w.jobs[token].id].item, token)
    ensures var job := w.jobs[token];
            var e, e' := w.entries[job.id], FinishStep(w, token, outcome, now, p).entries[job.id];
            var next := now + Delay(e.item.attemptCount);
            && (exists result :: Reported(e, e', result, now))
            && (e'.item.status.Sent? <==> job.Sending? && outcome.Accepted?)
            && (e'.item.status.Failed? <==>
                  job == Closing(job.id, PermanentFailure) || (job.Sending? && outcome.PermanentFailure?))
            && (job.Sending? && outcome.TransientFailure? ==>
                  if next < e.item.createdAt + p.maxAge
                  then e'.item.status.Pending? && e'.item.nextAttemptAt == next
                  else e'.item.status.Expired?)
  {
    var job := w.jobs[token];
    var e, e' := w.entries[job.id], FinishStep(w, token, outcome, now, p).entries[job.id];
    assert EntryOk(job.id, e, w, p);
    assert Reported(e, e', Recorded(e.item, if job.Closing? then job.outcome else outcome, now, p), now);
  }

  /** What a worker has decided stands until it reports, whatever the others do. */
  lemma {:induction false} DecisionStands(w: World, steps: seq<Step>, token: Token, p: Policy)
    requires token in w.jobs && token < w.nextToken && !w.jobs[token].Holding?
    requires forall i :: 0 <= i < |steps| ==> !(steps[i].Finish? && steps[i].token == token)
    ensures var w' := Run(w, steps, p);
            token < w'.nextToken && token in w'.jobs && w'.jobs[token] == w.jobs[token]
  {
    if steps != [] {
      DecisionStands(w, steps[..|steps| - 1], token, p);
    }
  }

  /** A sent item was accepted at its last attempt, and that attempt sent it. */
  lemma SentWasSent(steps: seq<Step>, id: ItemId, p: Policy)
    requires id in Run(EmptyWorld, steps, p).entries
    ensures var e := Run(EmptyWorld, steps, p).entries[id];
            e.item.status.Sent? <==>
              && e.attempts != [] && e.attempts[|e.attempts| - 1].result.Accepted?
              && e.sends != [] && e.sends[|e.sends| - 1].number == e.attempts[|e.attempts| - 1].number
  {
    RunKeepsInv(steps, p);
    var w := Run(EmptyWorld, steps, p);
    assert EntryOk(id, w.entries[id], w, p);
  }

  function At(step: Step): real {
    step.now
  }

  /** The holder of this token has neither reported nor given up its claim. */
  ghost predicate Quiet(steps: seq<Step>, token: Token) {
    forall i :: 0 <= i < |steps| ==> !(steps[i].Finish? && steps[i].token == token)
  }

  /** A queued item waits for its first attempt: whatever else happens, nobody claims it
      before it is due. */
  lemma {:induction false} FirstAttemptWaits(w: World, id: ItemId, first: real, now: real, steps: seq<Step>, p: Policy)
    requires id !in w.entries && forall i :: 0 <= i < |steps| ==> At(steps[i]) < first
    ensures var w' := Run(EnqueueStep(w, id, first, now), steps, p);
            id in w'.entries && w'.entries[id] == Entry(Item(Pending, now, first, None, 0), [], [], 0)
  {
    if steps != [] {
      FirstAttemptWaits(w, id, first, now, steps[..|steps| - 1], p);
    }
  }

  /** A claim is protected until its lease runs out, up to that very instant: nobody else
      gets the item. */
  lemma {:induction false} LeaseProtects(w: World, id: ItemId, token: Token, steps: seq<Step>, p: Policy)
    requires Inv(w, p) && id in w.entries && Holds(w.entries[id].item, token) && Quiet(steps, token)
    requires forall i :: 0 <= i < |steps| ==> At(steps[i]) <= w.entries[id].item.lease.value.until
    ensures var w' := Run(w, steps, p);
            && id in w'.entries && w'.entries[id].item == w.entries[id].item
            && w'.entries[id].attempts == w.entries[id].attempts
  {
    assert EntryOk(id, w.entries[id], w, p);
    if steps != [] {
      LeaseProtects(w, id, token, steps[..|steps| - 1], p);
    }
  }

  /** After that instant it is up for grabs, unless it is not due yet. */
  lemma TakenOverExactly(w: World, id: ItemId, now: real, p: Policy)
    requires Inv(w, p) && id in w.entries && w.entries[id].item.lease.Some?
    ensures var item, w' := w.entries[id].item, ClaimStep(w, id, now, p);
            && (Holds(w'.entries[id].item, w.nextToken)
                <==> item.lease.value.until < now && item.nextAttemptAt <= now)
            && (!Holds(w'.entries[id].item, w.nextToken) ==> w' == w)
  {
    assert EntryOk(id, w.entries[id], w, p);
  }

  // ---------------------------------------------------------------- what workers cannot do

  /** A worker whose token was replaced changes nothing: no item, no attempt, no send. */
  lemma StaleWorkerChangesNothing(w: World, token: Token, referenced: bool, outcome: Outcome, now: real, p: Policy)
    requires token in w.jobs && w.jobs[token].id in w.entries
    requires !Holds(w.entries[w.jobs[token].id].item, token)
    ensures BeginStep(w, token, referenced, now, p).entries == w.entries
    ensures FinishStep(w, token, outcome, now, p).entries == w.entries
  {
  }

  /** A token once lost, by takeover or by finishing, is never held again: each claim
      is finished at most once. */
  lemma {:induction false} LostTokenStaysLost(w: World, steps: seq<Step>, id: ItemId, token: Token, p: Policy)
    requires token < w.nextToken && (id in w.entries ==> !Holds(w.entries[id].item, token))
    ensures var w' := Run(w, steps, p);
            token < w'.nextToken && (id in w'.entries ==> !Holds(w'.entries[id].item, token))
  {
    if steps != [] {
      LostTokenStaysLost(w, steps[..|steps| - 1], id, token, p);
    }
  }

  lemma FinishGivesUpToken(w: World, token: Token, outcome: Outcome, now: real, p: Policy)
    requires Inv(w, p) && token in w.jobs && !w.jobs[token].Holding? && w.jobs[token].id in w.entries
    ensures var e := FinishStep(w, token, outcome, now, p).entries[w.jobs[token].id];
            && !Holds(e.item, token)
            && |e.attempts| <= |w.entries[w.jobs[token].id].attempts| + 1
  {
  }

  lemma ClosedStep(w: World, step: Step, id: ItemId, p: Policy)
    requires id in w.entries && ItemOk(w.entries[id].item, w.nextToken) && Terminal(w.entries[id].item.status)
    ensures id in Next(w, step, p).entries && Next(w, step, p).entries[id] == w.entries[id]
  {
  }

  /** Sent, failed and expired are absorbing: no step changes such an item or its rows. */
  lemma {:induction false} ClosedIsFinal(before: seq<Step>, after: seq<Step>, id: ItemId, p: Policy)
    requires id in Run(EmptyWorld, before, p).entries
    requires Terminal(Run(EmptyWorld, before, p).entries[id].item.status)
    ensures id in Run(EmptyWorld, before + after, p).entries
    ensures Run(EmptyWorld, before + after, p).entries[id] == Run(EmptyWorld, before, p).entries[id]
  {
    if after == [] {
      assert before + after == before;
    } else {
      var init := after[..|after| - 1];
      assert (before + after)[..|before + after| - 1] == before + init;
      ClosedIsFinal(before, init, id, p);
      RunKeepsInv(before + init, p);
      var w := Run(EmptyWorld, before + init, p);
      assert EntryOk(id, w.entries[id], w, p);
      ClosedStep(w, after[|after| - 1], id, p);
    }
  }

  ghost predicate Conclusive(e: Entry, k: nat) {
    k < |e.attempts| && !e.attempts[k].result.TransientFailure?
  }

  /** Attempt numbers are distinct, and a conclusive attempt row exists exactly on
      closed items, once, as their last row. */
  lemma OneConclusiveAttempt(steps: seq<Step>, id: ItemId, p: Policy)
    requires id in Run(EmptyWorld, steps, p).entries
    ensures var e := Run(EmptyWorld, steps, p).entries[id];
            && (forall i, j :: 0 <= i < j < |e.attempts| ==> e.attempts[i].number < e.attempts[j].number)
            && (forall k :: Conclusive(e, k) <==> Terminal(e.item.status) && k == |e.attempts| - 1)
  {
    RunKeepsInv(steps, p);
    var e := Run(EmptyWorld, steps, p).entries[id];
    assert EntryOk(id, e, Run(EmptyWorld, steps, p), p);
    ConclusiveIsLast(e);
  }

  lemma ConclusiveIsLast(e: Entry)
    requires AttemptsOk(e)
    ensures forall k :: Conclusive(e, k) <==> Terminal(e.item.status) && k == |e.attempts| - 1
  {
  }

  /** Every send starts, and every retry is due, before the age limit; for any clock. */
  lemma {:induction false} NothingAfterTheLimit(steps: seq<Step>, id: ItemId, p: Policy)
    requires id in Run(EmptyWorld, steps, p).entries
    ensures var e := Run(EmptyWorld, steps, p).entries[id];
            && (forall k :: 0 <= k < |e.sends| ==> e.sends[k].at < e.item.createdAt + p.maxAge)
            && (e.item.status.Pending? && e.attempts != [] ==> e.item.nextAttemptAt < e.item.createdAt + p.maxAge)
  {
    RunKeepsInv(steps, p);
    assert EntryOk(id, Run(EmptyWorld, steps, p).entries[id], Run(EmptyWorld, steps, p), p);
  }
}
