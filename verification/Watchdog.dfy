/** The K3s watchdog: one check per invocation, with its memory in a state file
    (tvt_edge/watchdog.py). Times are reals in seconds; the clock may step back. */
module Watchdog {
  import opened Options

  const ThresholdSeconds := 120.0
  const CooldownSeconds := 600.0

  datatype CheckResult = Healthy | Unhealthy | Inactive
  datatype ActionResult = Succeeded | Failed
  datatype Totals = Totals(healthy: nat, unhealthy: nat, inactive: nat, succeeded: nat, failed: nat)

  datatype State = State(
    bootId: string,
    failureSince: Option<real>,
    cooldownUntil: Option<real>,
    lastCheckAt: Option<real>,
    lastCheckResult: Option<CheckResult>,
    lastSuccessAt: Option<real>,
    lastActionAt: Option<real>,
    lastAction: bool,
    lastActionResult: Option<ActionResult>,
    totals: Totals)

  /** A JSON value as found in the state file; a missing field is Null. */
  datatype Value = Null | Int(n: int) | Num(x: real) | Text(text: string) | Other

  datatype Document = Document(
    isVersion1: bool, bootId: Value,
    failureSince: Value, cooldownUntil: Value, lastCheckAt: Value, lastCheckResult: Value, lastSuccessAt: Value,
    lastActionAt: Value, lastAction: Value, lastActionResult: Value,
    healthy: Value, unhealthy: Value, inactive: Value, actionsIsObject: bool, succeeded: Value, failed: Value)

  const NoTotals := Totals(0, 0, 0, 0, 0)

  function NewState(bootId: string): State {
    State(bootId, None, None, None, None, None, None, false, None, NoTotals)
  }

  function Number(v: Value): Option<real> {
    match v
    case Int(n) => if n >= 0 then Some(n as real) else None
    case Num(x) => if x >= 0.0 then Some(x) else None
    case _ => None
  }

  function Counter(v: Value): nat {
    if v.Int? && v.n >= 0 then v.n else 0
  }

  function CheckName(c: CheckResult): string {
    match c case Healthy => "healthy" case Unhealthy => "unhealthy" case Inactive => "service_inactive"
  }

  function ActionName(a: ActionResult): string {
    match a case Succeeded => "succeeded" case Failed => "failed"
  }

  function CheckOf(v: Value): Option<CheckResult> {
    if v == Text("healthy") then Some(Healthy)
    else if v == Text("unhealthy") then Some(Unhealthy)
    else if v == Text("service_inactive") then Some(Inactive)
    else None
  }

  function ActionOf(v: Value): Option<ActionResult> {
    if v == Text("succeeded") then Some(Succeeded) else if v == Text("failed") then Some(Failed) else None
  }

  /** The state for this boot: counters survive a reboot, timers do not. A document
      whose action totals are not an object makes loading fail. */
  function Load(file: Option<Document>, boot: string): Option<State> {
    if file.None? || !file.value.isVersion1 then Some(NewState(boot))
    else if !file.value.actionsIsObject then None
    else
      var d := file.value;
      var totals := Totals(Counter(d.healthy), Counter(d.unhealthy), Counter(d.inactive),
                           Counter(d.succeeded), Counter(d.failed));
      if d.bootId != Text(boot) then Some(NewState(boot).(totals := totals))
      else Some(State(
        boot, Number(d.failureSince), Number(d.cooldownUntil), Number(d.lastCheckAt), CheckOf(d.lastCheckResult),
        Number(d.lastSuccessAt), Number(d.lastActionAt), d.lastAction == Text("restart"), ActionOf(d.lastActionResult),
        totals))
  }

  function Written(x: Option<real>): Value {
    if x.Some? then Num(x.value) else Null
  }

  function Write(s: State): Document {
    Document(
      true, Text(s.bootId), Written(s.failureSince), Written(s.cooldownUntil), Written(s.lastCheckAt),
      if s.lastCheckResult.Some? then Text(CheckName(s.lastCheckResult.value)) else Null,
      Written(s.lastSuccessAt), Written(s.lastActionAt),
      if s.lastAction then Text("restart") else Null,
      if s.lastActionResult.Some? then Text(ActionName(s.lastActionResult.value)) else Null,
      Int(s.totals.healthy), Int(s.totals.unhealthy), Int(s.totals.inactive),
      true, Int(s.totals.succeeded), Int(s.totals.failed))
  }

  predicate NonNegative(x: Option<real>) {
    x.Some? ==> x.value >= 0.0
  }

  predicate ValidState(s: State) {
    && NonNegative(s.failureSince) && NonNegative(s.cooldownUntil) && NonNegative(s.lastCheckAt)
    && NonNegative(s.lastSuccessAt) && NonNegative(s.lastActionAt)
  }

  lemma CheckNamesDiffer(c: CheckResult)
    ensures CheckOf(Text(CheckName(c))) == Some(c)
  {
    assert |"healthy"| == 7 && |"unhealthy"| == 9 && |"service_inactive"| == 16;
  }

  lemma ActionNamesDiffer(a: ActionResult)
    ensures ActionOf(Text(ActionName(a))) == Some(a)
  {
    assert |"succeeded"| == 9 && |"failed"| == 6;
  }

  /** Loading what was written gives the state back on the same boot, and on another
      boot keeps exactly the counters. */
  lemma LoadAfterWrite(s: State, boot: string)
    requires ValidState(s)
    ensures Load(Some(Write(s)), boot) == Some(if boot == s.bootId then s else NewState(boot).(totals := s.totals))
  {
    var d := Write(s);
    if s.lastCheckResult.Some? {
      CheckNamesDiffer(s.lastCheckResult.value);
    }
    if s.lastActionResult.Some? {
      ActionNamesDiffer(s.lastActionResult.value);
    }
    assert CheckOf(d.lastCheckResult) == s.lastCheckResult;
    assert ActionOf(d.lastActionResult) == s.lastActionResult;
    assert Number(d.failureSince) == s.failureSince && Number(d.cooldownUntil) == s.cooldownUntil;
  }

  lemma LoadedIsValid(file: Option<Document>, boot: string)
    requires Load(file, boot).Some?
    ensures ValidState(Load(file, boot).value) && Load(file, boot).value.bootId == boot
  {
  }

  // ---------------------------------------------------------------- one invocation

  /** What the environment does during one invocation. */
  datatype Check = Check(clock: real, result: CheckResult, action: ActionResult)

  function Time(c: Check): real {
    if c.clock < 0.0 then 0.0 else c.clock
  }

  function CountCheck(t: Totals, r: CheckResult): Totals {
    match r
    case Healthy => t.(healthy := t.healthy + 1)
    case Unhealthy => t.(unhealthy := t.unhealthy + 1)
    case Inactive => t.(inactive := t.inactive + 1)
  }

  function CountAction(t: Totals, a: ActionResult): Totals {
    match a
    case Succeeded => t.(succeeded := t.succeeded + 1)
    case Failed => t.(failed := t.failed + 1)
  }

  /** When the current run of unhealthy checks began, as far as the clock can be trusted. */
  function FailingSince(s: State, now: real): real {
    if s.failureSince.None? || s.failureSince.value > now then now else s.failureSince.value
  }

  predicate Restarts(s: State, c: Check) {
    && c.result.Unhealthy?
    && Time(c) - FailingSince(s, Time(c)) >= ThresholdSeconds
    && Time(c) >= (if s.cooldownUntil.Some? then s.cooldownUntil.value else 0.0)
  }

  function After(s: State, c: Check): State {
    var now := Time(c);
    var seen := s.(lastCheckAt := Some(now), lastCheckResult := Some(c.result), totals := CountCheck(s.totals, c.result));
    match c.result
    case Healthy => seen.(failureSince := None, lastSuccessAt := Some(now))
    case Inactive => seen.(failureSince := None)
    case Unhealthy =>
      var failing := seen.(failureSince := Some(FailingSince(s, now)));
      if Restarts(s, c) then
        failing.(lastActionAt := Some(now), lastAction := true, lastActionResult := Some(c.action),
                 totals := CountAction(failing.totals, c.action), cooldownUntil := Some(now + CooldownSeconds))
      else failing
  }

  lemma AfterIsValid(s: State, c: Check)
    requires ValidState(s)
    ensures ValidState(After(s, c)) && After(s, c).bootId == s.bootId
  {
  }

  /** One invocation: load, check, perhaps restart, write. */
  function Invoke(file: Option<Document>, boot: string, c: Check): Option<Document> {
    var s := Load(file, boot);
    if s.None? then file else Some(Write(After(s.value, c)))
  }

  /** The next invocation finds what this one remembered: all of it on the same boot,
      the counters on another. */
  lemma InvokeThenLoad(file: Option<Document>, boot: string, c: Check, next: string)
    requires Load(file, boot).Some?
    ensures var s := After(Load(file, boot).value, c);
            Load(Invoke(file, boot, c), next) == Some(if next == boot then s else NewState(next).(totals := s.totals))
  {
    var s := Load(file, boot).value;
    LoadedIsValid(file, boot);
    AfterIsValid(s, c);
    LoadAfterWrite(After(s, c), next);
  }

  // ---------------------------------------------------------------- within one boot

  /** Invocations under one boot, through the file. */
  function Run(file: Option<Document>, boot: string, checks: seq<Check>): Option<Document> {
    if checks == [] then file
    else Invoke(Run(file, boot, checks[..|checks| - 1]), boot, checks[|checks| - 1])
  }

  /** The same invocations, in memory. */
  function Memory(s: State, checks: seq<Check>): State {
    if checks == [] then s else After(Memory(s, checks[..|checks| - 1]), checks[|checks| - 1])
  }

  /** Going through the file loses nothing while the boot lasts. */
  lemma {:induction false} FileIsMemory(file: Option<Document>, boot: string, checks: seq<Check>)
    requires Load(file, boot).Some?
    ensures Load(Run(file, boot, checks), boot) == Some(Memory(Load(file, boot).value, checks))
  {
    if checks != [] {
      var init := checks[..|checks| - 1];
      FileIsMemory(file, boot, init);
      InvokeThenLoad(Run(file, boot, init), boot, checks[|checks| - 1], boot);
    }
  }

  /** The indices of the checks that restarted k3s. */
  function RestartsOf(s: State, checks: seq<Check>): (r: seq<nat>)
    ensures forall k :: 0 <= k < |r| ==> r[k] < |checks|
  {
    if checks == [] then []
    else
      var n := |checks| - 1;
      RestartsOf(s, checks[..n]) + if Restarts(Memory(s, checks[..n]), checks[n]) then [n] else []
  }

  predicate Fresh(s: State) {
    s.failureSince.None? && s.cooldownUntil.None?
  }

  /** A boot starts fresh: timers of another boot are not carried over. */
  lemma NewBootIsFresh(file: Option<Document>, boot: string)
    requires Load(file, boot).Some?
    requires file.Some? && file.value.isVersion1 ==> file.value.bootId != Text(boot)
    ensures Fresh(Load(file, boot).value)
  {
  }

  ghost predicate FailingFrom(checks: seq<Check>, i: nat, since: real) {
    && i < |checks| && Time(checks[i]) == since
    && forall j :: i <= j < |checks| ==> checks[j].result.Unhealthy?
  }

  /** The failure time is that of a check since which every check was unhealthy. */
  lemma {:induction false} RemembersOutage(s: State, checks: seq<Check>)
    requires Fresh(s) && Memory(s, checks).failureSince.Some?
    ensures exists i :: FailingFrom(checks, i, Memory(s, checks).failureSince.value)
  {
    if checks != [] {
      var n := |checks| - 1;
      var init, c, since := checks[..n], checks[n], Memory(s, checks).failureSince.value;
      if since == Time(c) {
        assert FailingFrom(checks, n, since);
      } else {
        RemembersOutage(s, init);
        var i :| FailingFrom(init, i, since);
        assert FailingFrom(checks, i, since);
      }
    }
  }

  /** The cooldown is that of the last restart. */
  lemma {:induction false} RemembersRestart(s: State, checks: seq<Check>)
    requires RestartsOf(s, checks) != []
    ensures var r := RestartsOf(s, checks);
            Memory(s, checks).cooldownUntil == Some(Time(checks[r[|r| - 1]]) + CooldownSeconds)
  {
    var n := |checks| - 1;
    if !Restarts(Memory(s, checks[..n]), checks[n]) {
      RemembersRestart(s, checks[..n]);
    }
  }

  /** Every restart ends an unbroken run of unhealthy checks with one at least two
      minutes earlier on the clock. */
  lemma RestartEndsAnOutage(s: State, checks: seq<Check>, c: Check)
    requires Fresh(s) && Restarts(Memory(s, checks), c)
    ensures exists i, since :: FailingFrom(checks, i, since) && Time(c) - since >= ThresholdSeconds
  {
    RemembersOutage(s, checks);
  }

  /** Consecutive restarts of one boot are at least ten minutes apart, for any clock. */
  lemma {:induction false} RestartsAreSpaced(s: State, checks: seq<Check>, k: nat)
    requires k + 1 < |RestartsOf(s, checks)|
    ensures var r := RestartsOf(s, checks);
            r[k] < r[k + 1] && Time(checks[r[k + 1]]) - Time(checks[r[k]]) >= CooldownSeconds
  {
    var n := |checks| - 1;
    var before := RestartsOf(s, checks[..n]);
    if k + 1 < |before| {
      RestartsAreSpaced(s, checks[..n], k);
    } else {
      RemembersRestart(s, checks[..n]);
    }
  }

  /** n restarts of one boot span at least 600 (n - 1) seconds. */
  lemma {:induction false} RestartsSpan(s: State, checks: seq<Check>, k: nat)
    requires k < |RestartsOf(s, checks)|
    ensures var r := RestartsOf(s, checks);
            Time(checks[r[k]]) - Time(checks[r[0]]) >= CooldownSeconds * k as real
  {
    if k > 0 {
      RestartsSpan(s, checks, k - 1);
      RestartsAreSpaced(s, checks, k - 1);
    }
  }

  /** From check i to check c every one was unhealthy, and the clock never stepped back. */
  ghost predicate Outage(checks: seq<Check>, i: nat, c: Check) {
    && i < |checks| && FailingFrom(checks, i, Time(checks[i])) && c.result.Unhealthy?
    && (forall j, k :: i <= j < k < |checks| ==> Time(checks[j]) <= Time(checks[k]))
    && Time(checks[|checks| - 1]) <= Time(c)
  }

  lemma {:induction false} OutageIsRemembered(s: State, checks: seq<Check>, i: nat, c: Check)
    requires Outage(checks, i, c)
    ensures Memory(s, checks).failureSince.Some? && Memory(s, checks).failureSince.value <= Time(checks[i])
  {
    var n := |checks| - 1;
    if i < n {
      OutageIsRemembered(s, checks[..n], i, checks[n]);
    }
  }

  /** This boot restarted k3s at no time in the ten minutes before. */
  ghost predicate Rested(s: State, checks: seq<Check>, now: real) {
    var r := RestartsOf(s, checks);
    forall k :: 0 <= k < |r| ==> now >= Time(checks[r[k]]) + 600.0
  }

  /** An outage of two minutes is ended by the next check, unless k3s was restarted in the
      last ten. */
  lemma OutageRestarts(s: State, checks: seq<Check>, i: nat, c: Check)
    requires Fresh(s) && Outage(checks, i, c) && Time(c) - Time(checks[i]) >= 120.0 && Rested(s, checks, Time(c))
    ensures Restarts(Memory(s, checks), c)
  {
    OutageIsRemembered(s, checks, i, c);
    if RestartsOf(s, checks) == [] {
      NeverRestarted(s, checks);
    } else {
      RemembersRestart(s, checks);
    }
  }

  lemma {:induction false} NeverRestarted(s: State, checks: seq<Check>)
    requires RestartsOf(s, checks) == []
    ensures Memory(s, checks).cooldownUntil == s.cooldownUntil
  {
    if checks != [] {
      NeverRestarted(s, checks[..|checks| - 1]);
    }
  }

  ghost predicate Steady(checks: seq<Check>) {
    forall i, j :: 0 <= i < j < |checks| ==> Time(checks[i]) <= Time(checks[j])
  }

  lemma {:induction false} RestartsAreOrdered(s: State, checks: seq<Check>, j: nat, k: nat)
    requires j < k < |RestartsOf(s, checks)|
    ensures RestartsOf(s, checks)[j] < RestartsOf(s, checks)[k]
  {
    var n := |checks| - 1;
    if k < |RestartsOf(s, checks[..n])| {
      RestartsAreOrdered(s, checks[..n], j, k);
    }
  }

  lemma RestartIsRested(s: State, checks: seq<Check>, c: Check)
    requires Steady(checks) && Restarts(Memory(s, checks), c)
    ensures Rested(s, checks, Time(c))
  {
    var r := RestartsOf(s, checks);
    if r != [] {
      RemembersRestart(s, checks);
      forall k | 0 <= k < |r| ensures Time(c) >= Time(checks[r[k]]) + 600.0 {
        if k < |r| - 1 {
          RestartsAreOrdered(s, checks, k, |r| - 1);
        }
        assert Time(checks[r[k]]) <= Time(checks[r[|r| - 1]]);
      }
    }
  }

  /** An outage that is two minutes old at check c. */
  ghost predicate LongOutage(checks: seq<Check>, i: nat, c: Check) {
    Outage(checks, i, c) && Time(c) - Time(checks[i]) >= 120.0
  }

  lemma RestartIsLate(s: State, checks: seq<Check>, c: Check)
    requires Fresh(s) && Steady(checks) && (checks != [] ==> Time(checks[|checks| - 1]) <= Time(c))
    requires Restarts(Memory(s, checks), c)
    ensures exists i: nat :: LongOutage(checks, i, c)
  {
    RestartEndsAnOutage(s, checks, c);
    var i: nat, since :| FailingFrom(checks, i, since) && Time(c) - since >= ThresholdSeconds;
    assert LongOutage(checks, i, c);
  }

  lemma SteadyBefore(checks: seq<Check>, c: Check)
    requires Steady(checks + [c])
    ensures Steady(checks) && (checks != [] ==> Time(checks[|checks| - 1]) <= Time(c))
  {
    var all := checks + [c];
    assert all[|checks|] == c && forall k :: 0 <= k < |checks| ==> checks[k] == all[k];
  }

  /** Within one boot and while the clock does not step back, an invocation restarts k3s
      exactly if every check of the last two minutes or more was unhealthy and k3s was not
      restarted in the last ten. */
  lemma RestartsExactly(file: Option<Document>, boot: string, checks: seq<Check>, c: Check)
    requires Load(file, boot).Some? && Fresh(Load(file, boot).value) && Steady(checks + [c])
    ensures RestartsFrom(Run(file, boot, checks), Invocation(boot, c)) <==>
              && (exists i: nat :: LongOutage(checks, i, c))
              && Rested(Load(file, boot).value, checks, Time(c))
  {
    var s := Load(file, boot).value;
    FileIsMemory(file, boot, checks);
    SteadyBefore(checks, c);
    if Restarts(Memory(s, checks), c) {
      RestartIsLate(s, checks, c);
      RestartIsRested(s, checks, c);
    }
    if i: nat :| LongOutage(checks, i, c) && Rested(s, checks, Time(c)) {
      OutageRestarts(s, checks, i, c);
    }
  }

  /** The time of the latest of these checks that was healthy. */
  function LastHealthy(checks: seq<Check>): Option<real> {
    if checks == [] then None
    else if checks[|checks| - 1].result.Healthy? then Some(Time(checks[|checks| - 1]))
    else LastHealthy(checks[..|checks| - 1])
  }

  /** The state tells when k3s was last found healthy, when it was last checked and with what
      result, and when it was last restarted and how that went. */
  lemma {:induction false} RemembersTimes(s: State, checks: seq<Check>)
    requires checks != []
    ensures var r, m, c := RestartsOf(s, checks), Memory(s, checks), checks[|checks| - 1];
            && m.lastCheckAt == Some(Time(c)) && m.lastCheckResult == Some(c.result)
            && m.lastSuccessAt == (if LastHealthy(checks).Some? then LastHealthy(checks) else s.lastSuccessAt)
            && (r != [] ==>
                  && m.lastAction && m.lastActionAt == Some(Time(checks[r[|r| - 1]]))
                  && m.lastActionResult == Some(checks[r[|r| - 1]].action))
            && (r == [] ==> m.lastActionAt == s.lastActionAt && m.lastActionResult == s.lastActionResult)
  {
    var n := |checks| - 1;
    if n > 0 {
      RemembersTimes(s, checks[..n]);
    }
  }

  // ---------------------------------------------------------------- across boots

  datatype Invocation = Invocation(boot: string, check: Check)

  function Life(file: Option<Document>, invocations: seq<Invocation>): Option<Document> {
    if invocations == [] then file
    else
      var last := invocations[|invocations| - 1];
      Invoke(Life(file, invocations[..|invocations| - 1]), last.boot, last.check)
  }

  predicate RestartsFrom(file: Option<Document>, i: Invocation) {
    Load(file, i.boot).Some? && Restarts(Load(file, i.boot).value, i.check)
  }

  /** Everything a life did: its checks by result and its restarts by outcome. */
  function Tally(file: Option<Document>, invocations: seq<Invocation>): Totals {
    if invocations == [] then NoTotals
    else
      var n := |invocations| - 1;
      var t := CountCheck(Tally(file, invocations[..n]), invocations[n].check.result);
      if RestartsFrom(Life(file, invocations[..n]), invocations[n]) then CountAction(t, invocations[n].check.action) else t
  }

  lemma AfterCounts(s: State, c: Check)
    ensures After(s, c).totals
            == if Restarts(s, c) then CountAction(CountCheck(s.totals, c.result), c.action) else CountCheck(s.totals, c.result)
  {
  }

  /** The counters on file are the tallies since the file began, whatever boots came between. */
  lemma {:induction false} CountersAreTallies(invocations: seq<Invocation>, boot: string)
    ensures Load(Life(None, invocations), boot).Some?
    ensures Load(Life(None, invocations), boot).value.totals == Tally(None, invocations)
  {
    if invocations == [] {
      assert Load(None, boot) == Some(NewState(boot));
    } else {
      var n := |invocations| - 1;
      var last := invocations[n];
      var file := Life(None, invocations[..n]);
      CountersAreTallies(invocations[..n], last.boot);
      AfterCounts(Load(file, last.boot).value, last.check);
      InvokeThenLoad(file, last.boot, last.check, boot);
    }
  }

  // ---------------------------------------------------------------- a lost write

  /** The spacing rests on the write that follows the restart: if it is lost, the
      next invocation finds the old file and restarts again, however soon. */
  lemma LostWriteRestartsAgain(file: Option<Document>, boot: string, c: Check, again: Check)
    requires Load(file, boot).Some? && Restarts(Load(file, boot).value, c)
    requires again.result.Unhealthy? && Time(c) <= Time(again)
    ensures Restarts(Load(file, boot).value, again)
  {
  }

  // ---------------------------------------------------------------- the program

  class K3sWatchdog {
    var file: Option<Document>

    constructor (file: Option<Document>)
      ensures this.file == file
    {
      this.file := file;
    }

    /** Checks once and restarts when the outage is long enough and the cooldown over. */
    method RunOnce(boot: string, c: Check) returns (restarted: bool)
      modifies this
      ensures file == Invoke(old(file), boot, c)
      ensures restarted <==> RestartsFrom(old(file), Invocation(boot, c))
    {
      restarted := false;
      var now := if c.clock < 0.0 then 0.0 else c.clock;
      var loaded := Load(file, boot);
      if loaded.None? {
        return;
      }
      var state := loaded.value;
      state := state.(lastCheckAt := Some(now), lastCheckResult := Some(c.result), totals := CountCheck(state.totals, c.result));
      match c.result {
        case Healthy =>
          state := state.(failureSince := None, lastSuccessAt := Some(now));
        case Inactive =>
          state := state.(failureSince := None);
        case Unhealthy =>
          var failureSince := state.failureSince;
          if failureSince.None? || failureSince.value > now {
            failureSince := Some(now);
            state := state.(failureSince := failureSince);
          }
          var cooldownUntil := if state.cooldownUntil.Some? then state.cooldownUntil.value else 0.0;
          if now - failureSince.value >= ThresholdSeconds && now >= cooldownUntil {
            restarted := true;
            state := state.(lastActionAt := Some(now), lastAction := true, lastActionResult := Some(c.action));
            state := state.(totals := CountAction(state.totals, c.action), cooldownUntil := Some(now + CooldownSeconds));
          }
      }
      file := Some(Write(state));
    }
  }
}
