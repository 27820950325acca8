/** How often the outbox can send (tvt_edge/alerting/outbox.py), when the clock never
    steps back. */
module OutboxTiming {
  import opened Outbox

  ghost predicate Monotone(steps: seq<Step>) {
    forall i, j :: 0 <= i < j < |steps| ==> At(steps[i]) <= At(steps[j])
  }

  /** The shortest time between two claims of one item: a retry delay or a lease. */
  function MinGap(p: Policy): real {
    if p.leaseSeconds < 60.0 then p.leaseSeconds else 60.0
  }

  function Gaps(n: nat, gap: real): real {
    if n == 0 then 0.0 else Gaps(n - 1, gap) + gap
  }

  /** The delays before attempt n when nothing is taken over. */
  function Ladder(n: nat): real {
    if n <= 1 then 0.0 else Ladder(n - 1) + Delay(n - 1)
  }

  lemma {:induction false} GapsAre(n: nat, gap: real)
    ensures Gaps(n, gap) == n as real * gap
  {
    if n > 0 {
      GapsAre(n - 1, gap);
      OneMoreGap((n - 1) as real, gap);
      assert n as real == (n - 1) as real + 1.0;
    }
  }

  lemma OneMoreGap(x: real, gap: real)
    ensures (x + 1.0) * gap == x * gap + gap
  {
  }

  lemma {:induction false} LadderGrows(m: nat, n: nat)
    requires m <= n
    ensures Ladder(m) <= Ladder(n)
  {
    if m < n {
      LadderGrows(m, n - 1);
    }
  }

  /** The retry table summed: from the sixth attempt on, one an hour. */
  lemma {:induction false} LadderIs(n: nat)
    requires n >= 6
    ensures Ladder(n) == 2880.0 + 3600.0 * (n - 6) as real
  {
    if n == 6 {
      assert Ladder(2) == 60.0;
      assert Ladder(4) == 480.0;
    } else {
      LadderIs(n - 1);
    }
  }

  lemma DelaysGrow(m: nat, n: nat)
    requires 1 <= m <= n
    ensures 60.0 <= Delay(m) <= Delay(n)
  {
  }

  /** Every claim came late enough after the item was created. */
  ghost predicate ClaimedLateEnough(e: Entry, t: real, p: Policy) {
    var k, m := e.item.attemptCount, e.takeovers;
    && e.item.createdAt <= t
    && (if k == 0 then m == 0 && e.item.lease.None? else m < k)
    && (e.item.lease.Some? ==>
          var claimed := e.item.lease.value.until - p.leaseSeconds - e.item.createdAt;
          claimed <= t - e.item.createdAt && Gaps(k - 1, MinGap(p)) <= claimed && Ladder(k - m) <= claimed)
    && (e.item.status.Pending? && k >= 1 ==>
          var next := e.item.nextAttemptAt - e.item.createdAt;
          Gaps(k, MinGap(p)) <= next && Ladder(k + 1 - m) <= next)
  }

  ghost predicate SentLateEnough(e: Entry, p: Policy) {
    forall i :: 0 <= i < |e.sends| ==>
      var s := e.sends[i];
      s.takeovers < s.number
      && Gaps(s.number - 1, MinGap(p)) <= s.at - e.item.createdAt && Ladder(s.number - s.takeovers) <= s.at - e.item.createdAt
  }

  ghost predicate Timely(w: World, t: real, p: Policy) {
    forall id :: id in w.entries ==> ClaimedLateEnough(w.entries[id], t, p) && SentLateEnough(w.entries[id], p)
  }

  lemma ClaimIsLateEnough(e: Entry, token: Token, t: real, now: real, p: Policy)
    requires ClaimedLateEnough(e, t, p) && t <= now && Due(e.item, now)
    ensures ClaimedLateEnough(
              e.(item := Claimed(e.item, token, now, p), takeovers := e.takeovers + if e.item.status.Delivering? then 1 else 0),
              now, p)
  {
  }

  lemma FinishIsLateEnough(e: Entry, outcome: Outcome, row: Attempt, t: real, now: real, p: Policy)
    requires ClaimedLateEnough(e, t, p) && SentLateEnough(e, p) && t <= now && e.item.lease.Some?
    ensures var e' := e.(item := Finished(e.item, outcome, now, p), attempts := e.attempts + [row]);
            ClaimedLateEnough(e', now, p) && SentLateEnough(e', p)
  {
    var k, m := e.item.attemptCount, e.takeovers;
    DelaysGrow(k - m, k);
    assert Gaps(k, MinGap(p)) == Gaps(k - 1, MinGap(p)) + MinGap(p);
    assert Ladder(k + 1 - m) == Ladder(k - m) + Delay(k - m);
  }

  lemma SendIsLateEnough(e: Entry, t: real, now: real, p: Policy)
    requires ClaimedLateEnough(e, t, p) && SentLateEnough(e, p) && t <= now && e.item.lease.Some?
    ensures var e' := e.(sends := e.sends + [Send(e.item.attemptCount, e.takeovers, now)]);
            ClaimedLateEnough(e', now, p) && SentLateEnough(e', p)
  {
  }

  lemma ClaimStepIsTimely(w: World, id: ItemId, t: real, now: real, p: Policy)
    requires Timely(w, t, p) && t <= now
    ensures Timely(ClaimStep(w, id, now, p), now, p)
  {
    if id in w.entries && Due(w.entries[id].item, now) {
      ClaimIsLateEnough(w.entries[id], w.nextToken, t, now, p);
    }
  }

  lemma BeginStepIsTimely(w: World, token: Token, referenced: bool, t: real, now: real, p: Policy)
    requires Timely(w, t, p) && t <= now
    ensures Timely(BeginStep(w, token, referenced, now, p), now, p)
  {
    if token in w.jobs {
      var id := w.jobs[token].id;
      if id in w.entries && Holds(w.entries[id].item, token) {
        SendIsLateEnough(w.entries[id], t, now, p);
      }
    }
  }

  lemma FinishStepIsTimely(w: World, token: Token, outcome: Outcome, t: real, now: real, p: Policy)
    requires Timely(w, t, p) && t <= now
    ensures Timely(FinishStep(w, token, outcome, now, p), now, p)
  {
    if token in w.jobs && !w.jobs[token].Holding? {
      var job := w.jobs[token];
      if job.id in w.entries && Holds(w.entries[job.id].item, token) {
        var e, decided := w.entries[job.id], if job.Closing? then job.outcome else outcome;
        FinishIsLateEnough(e, decided, Attempt(e.item.attemptCount, Recorded(e.item, decided, now, p), now), t, now, p);
      }
    }
  }

  lemma StepIsTimely(w: World, step: Step, t: real, p: Policy)
    requires Timely(w, t, p) && t <= At(step)
    ensures Timely(Next(w, step, p), At(step), p)
  {
    match step
    case Enqueue(_, _, _) =>
    case Claim(id, now) => ClaimStepIsTimely(w, id, t, now, p);
    case Begin(token, referenced, now) => BeginStepIsTimely(w, token, referenced, t, now, p);
    case Finish(token, outcome, now) => FinishStepIsTimely(w, token, outcome, t, now, p);
  }

  lemma {:induction false} RunIsTimely(steps: seq<Step>, t: real, p: Policy)
    requires Monotone(steps) && (forall i :: 0 <= i < |steps| ==> At(steps[i]) <= t)
    ensures Timely(Run(EmptyWorld, steps, p), t, p)
  {
    if steps != [] {
      var init, last := steps[..|steps| - 1], steps[|steps| - 1];
      forall i | 0 <= i < |init| ensures At(init[i]) <= At(last) {
        assert init[i] == steps[i];
      }
      assert Monotone(init);
      RunIsTimely(init, At(last), p);
      StepIsTimely(Run(EmptyWorld, init, p), last, At(last), p);
    }
  }

  lemma {:induction false} NumbersCount(sends: seq<Send>, i: nat)
    requires forall k :: 0 <= k < |sends| ==> 1 <= sends[k].number
    requires forall j, k :: 0 <= j < k < |sends| ==> sends[j].number < sends[k].number
    requires i < |sends|
    ensures i + 1 <= sends[i].number
  {
    if i > 0 {
      NumbersCount(sends, i - 1);
    }
  }

  lemma {:induction false} GapsGrow(m: nat, n: nat, gap: real)
    requires m <= n && 0.0 <= gap
    ensures Gaps(m, gap) <= Gaps(n, gap)
  {
    if m < n {
      GapsGrow(m, n - 1, gap);
    }
  }

  lemma LastSendOf(e: Entry, p: Policy)
    requires SendsOk(e, p) && SentLateEnough(e, p) && e.sends != []
    ensures var last := e.sends[|e.sends| - 1];
            && |e.sends| <= last.number && last.takeovers < last.number && last.takeovers <= e.takeovers
            && Gaps(last.number - 1, MinGap(p)) < p.maxAge && Ladder(last.number - last.takeovers) < p.maxAge
  {
    NumbersCount(e.sends, |e.sends| - 1);
  }

  lemma ReachedIsTimely(steps: seq<Step>, id: ItemId, p: Policy)
    requires Monotone(steps) && id in Run(EmptyWorld, steps, p).entries
    ensures SendsOk(Run(EmptyWorld, steps, p).entries[id], p) && SentLateEnough(Run(EmptyWorld, steps, p).entries[id], p)
  {
    var w := Run(EmptyWorld, steps, p);
    RunKeepsInv(steps, p);
    assert EntryOk(id, w.entries[id], w, p);
    RunIsTimely(steps, if steps == [] then 0.0 else At(steps[|steps| - 1]), p);
  }

  lemma GapsFit(n: nat, last: nat, gap: real, limit: real)
    requires n <= last && 0.0 <= gap && Gaps(last, gap) < limit
    ensures n as real * gap < limit
  {
    GapsGrow(n, last, gap);
    GapsAre(n, gap);
  }

  lemma SendsFit(e: Entry, p: Policy)
    requires SendsOk(e, p) && SentLateEnough(e, p) && e.sends != [] && p.leaseSeconds >= 0.0
    ensures (|e.sends| - 1) as real * MinGap(p) < p.maxAge
  {
    LastSendOf(e, p);
    GapsFit(|e.sends| - 1, e.sends[|e.sends| - 1].number - 1, MinGap(p), p.maxAge);
  }

  /** However often workers crash and take over: n sends of one item need n - 1 gaps
      of the shorter of the first retry delay and the lease within the age limit. */
  lemma SendsFitTheAge(steps: seq<Step>, id: ItemId, e: Entry, p: Policy)
    requires Monotone(steps) && p.leaseSeconds >= 0.0
    requires id in Run(EmptyWorld, steps, p).entries && e == Run(EmptyWorld, steps, p).entries[id] && e.sends != []
    ensures (|e.sends| - 1) as real * MinGap(p) < p.maxAge
  {
    assert SendsOk(e, p) && SentLateEnough(e, p) by { ReachedIsTimely(steps, id, p); }
    SendsFit(e, p);
  }

  const Day := 86400.0

  /** Within the default day an item is sent at most 29 times, and at most once more
      for each time its claim was taken over. */
  lemma AtMostTwentyNineSends(steps: seq<Step>, id: ItemId, p: Policy)
    requires Monotone(steps) && p.maxAge == Day && id in Run(EmptyWorld, steps, p).entries
    ensures var e := Run(EmptyWorld, steps, p).entries[id]; |e.sends| <= 29 + e.takeovers
  {
    var e := Run(EmptyWorld, steps, p).entries[id];
    if e.sends != [] {
      ReachedIsTimely(steps, id, p);
      LastSendOf(e, p);
      var last := e.sends[|e.sends| - 1];
      var n := last.number - last.takeovers;
      if n >= 30 {
        LadderIs(30);
        LadderGrows(30, n);
      }
    }
  }

  // ---------------------------------------------------------------- the bound is reached

  /** One worker, every send failing at once, each retry taken the moment it is due. */
  function Retries(n: nat): seq<Step> {
    if n == 0 then [Enqueue(0, 0.0, 0.0)]
    else
      Retries(n - 1) + Cycle(n - 1, Ladder(n))
  }

  lemma {:induction false} RunAppend(w: World, first: seq<Step>, more: seq<Step>, p: Policy)
    ensures Run(w, first + more, p) == Run(Run(w, first, p), more, p)
  {
    if more == [] {
      assert first + more == first;
    } else {
      RunAppend(w, first, more[..|more| - 1], p);
      assert (first + more)[..|first + more| - 1] == first + more[..|more| - 1];
    }
  }

  function Cycle(n: nat, t: real): seq<Step> {
    [Claim(0, t), Begin(n, true, t), Finish(n, TransientFailure, t)]
  }

  lemma RunCycle(w: World, n: nat, t: real, p: Policy)
    ensures Run(w, Cycle(n, t), p)
            == FinishStep(BeginStep(ClaimStep(w, 0, t, p), n, true, t, p), n, TransientFailure, t, p)
  {
    var c := Cycle(n, t);
    assert c[..2][..1] == [c[0]] && [c[0]][..0] == [];
    assert Run(w, [c[0]], p) == ClaimStep(w, 0, t, p);
    assert Run(w, c[..2], p) == BeginStep(ClaimStep(w, 0, t, p), n, true, t, p);
  }

  /** The item before its next attempt, after n failed sends. */
  ghost predicate Waiting(w: World, n: nat, next: real) {
    && 0 in w.entries && w.nextToken == n
    && var e := w.entries[0];
       && |e.sends| == n && e.takeovers == 0 && e.item.attemptCount == n && e.item.createdAt == 0.0
       && e.item.status.Pending? && e.item.nextAttemptAt == next
  }

  lemma CycleSends(w: World, n: nat, t: real, p: Policy)
    requires Waiting(w, n, t) && t < p.maxAge
    ensures var w' := FinishStep(BeginStep(ClaimStep(w, 0, t, p), n, true, t, p), n, TransientFailure, t, p);
            && 0 in w'.entries && |w'.entries[0].sends| == n + 1 && w'.entries[0].takeovers == 0
            && (t + Delay(n + 1) < p.maxAge ==> Waiting(w', n + 1, t + Delay(n + 1)))
  {
    var claimed := ClaimStep(w, 0, t, p);
    assert claimed.jobs[n] == Holding(0) && Holds(claimed.entries[0].item, n);
    var begun := BeginStep(claimed, n, true, t, p);
    assert begun.jobs[n] == Sending(0) && Holds(begun.entries[0].item, n);
  }

  lemma {:induction false} RetriesWait(n: nat, p: Policy)
    requires n <= 28 && p.maxAge == Day
    ensures Waiting(Run(EmptyWorld, Retries(n), p), n, Ladder(n + 1))
  {
    if n == 0 {
      assert Retries(0)[..0] == [];
    } else {
      RetriesWait(n - 1, p);
      var w := Run(EmptyWorld, Retries(n - 1), p);
      LadderGrows(n + 1, 29);
      LadderIs(29);
      LadderGrows(n, n + 1);
      RunAppend(EmptyWorld, Retries(n - 1), Cycle(n - 1, Ladder(n)), p);
      RunCycle(w, n - 1, Ladder(n), p);
      CycleSends(w, n - 1, Ladder(n), p);
    }
  }

  lemma {:induction false} RetriesAreMonotone(n: nat)
    ensures Monotone(Retries(n))
    ensures forall i :: 0 <= i < |Retries(n)| ==> At(Retries(n)[i]) <= Ladder(n)
  {
    if n > 0 {
      RetriesAreMonotone(n - 1);
      LadderGrows(n - 1, n);
    }
  }

  /** 29 sends do happen. */
  lemma TwentyNineSendsHappen(p: Policy)
    requires p.maxAge == Day
    ensures exists steps :: Monotone(steps) && 0 in Run(EmptyWorld, steps, p).entries
              && |Run(EmptyWorld, steps, p).entries[0].sends| == 29 && Run(EmptyWorld, steps, p).entries[0].takeovers == 0
  {
    RetriesWait(28, p);
    var w := Run(EmptyWorld, Retries(28), p);
    LadderIs(29);
    RunAppend(EmptyWorld, Retries(28), Cycle(28, Ladder(29)), p);
    RunCycle(w, 28, Ladder(29), p);
    CycleSends(w, 28, Ladder(29), p);
    RetriesAreMonotone(29);
  }
}
