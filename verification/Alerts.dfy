/** Threshold alerts: rising edges with a cooldown, one state per rule, deployment
    and camera (apexfabric/control_plane/alerts.py). Times are reals in seconds. */
module Alerts {
  import opened Options

  // ---------------------------------------------------------------- one stream

  /** A numeric event as one rule sees it. */
  datatype Reading = Reading(matched: bool, at: real)

  /** The stored state; a last trigger of 0 stands for never. */
  datatype Trigger = Trigger(active: bool, last: real)

  predicate Fires(state: Option<Trigger>, r: Reading, cooldown: real) {
    r.matched
    && (state.None?
        || (!state.value.active && (state.value.last == 0.0 || r.at - state.value.last >= cooldown)))
  }

  function Stored(state: Option<Trigger>, r: Reading, cooldown: real): Trigger {
    Trigger(r.matched,
            if Fires(state, r, cooldown) then r.at else if state.Some? then state.value.last else 0.0)
  }

  /** The state after these readings, from none. */
  function Feed(readings: seq<Reading>, cooldown: real): Option<Trigger> {
    if readings == [] then None
    else Some(Stored(Feed(readings[..|readings| - 1], cooldown), readings[|readings| - 1], cooldown))
  }

  predicate FiresAt(readings: seq<Reading>, i: nat, cooldown: real)
    requires i < |readings|
  {
    Fires(Feed(readings[..i], cooldown), readings[i], cooldown)
  }

  ghost predicate RisesAt(readings: seq<Reading>, i: nat)
    requires i < |readings|
  {
    readings[i].matched && (i == 0 || !readings[i - 1].matched)
  }

  /** The last firing before reading `i`. */
  ghost predicate LatestFiring(readings: seq<Reading>, j: nat, i: nat, cooldown: real)
    requires i <= |readings|
  {
    && j < i && FiresAt(readings, j, cooldown)
    && forall k :: j < k < i ==> !FiresAt(readings, k, cooldown)
  }

  ghost predicate NeverFired(readings: seq<Reading>, i: nat, cooldown: real)
    requires i <= |readings|
  {
    forall k :: 0 <= k < i ==> !FiresAt(readings, k, cooldown)
  }

  /** What is stored before reading `i`: whether the one before matched, and the time
      of the latest firing, or 0 when there was none. */
  lemma {:induction false} FeedRemembers(readings: seq<Reading>, i: nat, cooldown: real)
    requires 0 < i <= |readings|
    ensures Feed(readings[..i], cooldown).Some?
    ensures var state := Feed(readings[..i], cooldown).value;
            && state.active == readings[i - 1].matched
            && (NeverFired(readings, i, cooldown) ==> state.last == 0.0)
            && (forall j: nat :: LatestFiring(readings, j, i, cooldown) ==> state.last == readings[j].at)
  {
    assert readings[..i][..i - 1] == readings[..i - 1];
    assert NeverFired(readings, i, cooldown) ==> NeverFired(readings, i - 1, cooldown) && !FiresAt(readings, i - 1, cooldown);
    if i > 1 {
      FeedRemembers(readings, i - 1, cooldown);
    }
    forall j: nat | LatestFiring(readings, j, i, cooldown) ensures Feed(readings[..i], cooldown).value.last == readings[j].at {
      if j < i - 1 {
        assert !FiresAt(readings, i - 1, cooldown) && LatestFiring(readings, j, i - 1, cooldown);
      }
    }
  }

  lemma {:induction false} FindLatest(readings: seq<Reading>, i: nat, cooldown: real)
    requires i <= |readings|
    ensures NeverFired(readings, i, cooldown) || exists j: nat :: LatestFiring(readings, j, i, cooldown)
  {
    if i > 0 {
      var n: nat := i - 1;
      if FiresAt(readings, n, cooldown) {
        assert LatestFiring(readings, n, i, cooldown);
      } else {
        FindLatest(readings, n, cooldown);
        if j: nat :| LatestFiring(readings, j, n, cooldown) {
          assert LatestFiring(readings, j, i, cooldown);
        }
      }
    }
  }

  /** A stream fires exactly at the rising edges that respect the cooldown: when the
      value matches, the reading before did not, and the latest firing, if there was
      one, is at least the cooldown ago or was at the instant 0, which is stored like
      none at all. */
  lemma FiresExactly(readings: seq<Reading>, i: nat, cooldown: real)
    requires i < |readings|
    ensures FiresAt(readings, i, cooldown)
            <==> && RisesAt(readings, i)
                 && forall j: nat :: LatestFiring(readings, j, i, cooldown) ==>
                      readings[j].at == 0.0 || readings[i].at - readings[j].at >= cooldown
  {
    if i > 0 {
      FeedRemembers(readings, i, cooldown);
      FindLatest(readings, i, cooldown);
    }
  }

  ghost predicate NoFiringAtZero(readings: seq<Reading>, cooldown: real) {
    forall i :: 0 <= i < |readings| && FiresAt(readings, i, cooldown) ==> readings[i].at != 0.0
  }

  /** Unless a stream fires at the instant 0, a firing comes at least the cooldown
      after every earlier one, for any clock. */
  lemma {:induction false} FiringsAreSpaced(readings: seq<Reading>, i: nat, j: nat, cooldown: real)
    requires NoFiringAtZero(readings, cooldown) && 0.0 <= cooldown
    requires i < j < |readings| && FiresAt(readings, i, cooldown) && FiresAt(readings, j, cooldown)
    ensures readings[j].at - readings[i].at >= cooldown
    decreases j
  {
    FiresExactly(readings, j, cooldown);
    FindLatest(readings, j, cooldown);
    var k: nat :| LatestFiring(readings, k, j, cooldown);
    if i < k {
      FiringsAreSpaced(readings, i, k, cooldown);
    }
  }

  /** After a match, fired or suppressed, nothing fires until a reading does not
      match: two alerts have a non-matching reading between them, and a crossing
      suppressed by the cooldown never fires late. */
  lemma FiringNeedsRearming(readings: seq<Reading>, i: nat, j: nat, cooldown: real)
    requires i < j < |readings| && readings[i].matched && FiresAt(readings, j, cooldown)
    ensures exists k :: i < k < j && !readings[k].matched
  {
    FeedRemembers(readings, j, cooldown);
    assert !readings[j - 1].matched;
  }

  /** n firings span at least n - 1 cooldowns. */
  lemma {:induction false} FiringsSpan(readings: seq<Reading>, firings: seq<nat>, cooldown: real)
    requires NoFiringAtZero(readings, cooldown) && 0.0 <= cooldown && firings != []
    requires forall k :: 0 <= k < |firings| ==> firings[k] < |readings| && FiresAt(readings, firings[k], cooldown)
    requires forall k :: 0 <= k < |firings| - 1 ==> firings[k] < firings[k + 1]
    ensures readings[firings[|firings| - 1]].at - readings[firings[0]].at >= (|firings| - 1) as real * cooldown
  {
    var n := |firings| - 1;
    if n > 0 {
      FiringsSpan(readings, firings[..n], cooldown);
      FiringsAreSpaced(readings, firings[n - 1], firings[n], cooldown);
      OneMore((n - 1) as real, cooldown);
      assert n as real == (n - 1) as real + 1.0;
    }
  }

  lemma OneMore(x: real, y: real)
    ensures (x + 1.0) * y == x * y + y
  {
  }

  // ---------------------------------------------------------------- all rules

  type RuleId = nat

  datatype Operator = Gt | Gte | Lt | Lte | Eq
  datatype Rule = Rule(
    id: RuleId, eventType: string, field: string, operator: Operator, threshold: real,
    camera: string, deployment: string, cooldown: real, enabled: bool)

  /** An accepted event with its finite numeric fields. */
  datatype Event = Event(id: nat, deployment: string, camera: string, eventType: string, fields: map<string, real>, at: real)
  datatype Key = Key(rule: RuleId, deployment: string, camera: string)
  datatype Alert = Alert(rule: RuleId, event: nat, at: real)
  datatype Desk = Desk(rules: seq<Rule>, states: map<Key, Trigger>, alerts: seq<Alert>)

  predicate Compare(o: Operator, value: real, threshold: real) {
    match o
    case Gt => value > threshold
    case Gte => value >= threshold
    case Lt => value < threshold
    case Lte => value <= threshold
    case Eq => value == threshold
  }

  predicate Applies(rule: Rule, e: Event) {
    && rule.enabled && e.eventType == rule.eventType
    && (rule.deployment == "" || rule.deployment == e.deployment)
    && (rule.camera == "" || rule.camera == e.camera)
    && rule.field in e.fields
  }

  function ReadingOf(rule: Rule, e: Event): Reading
    requires Applies(rule, e)
  {
    Reading(Compare(rule.operator, e.fields[rule.field], rule.threshold), e.at)
  }

  function KeyOf(rule: Rule, e: Event): Key {
    Key(rule.id, e.deployment, e.camera)
  }

  function StateOf(d: Desk, key: Key): Option<Trigger> {
    if key in d.states then Some(d.states[key]) else None
  }

  predicate HasAlert(alerts: seq<Alert>, rule: RuleId, event: nat) {
    exists i :: 0 <= i < |alerts| && alerts[i].rule == rule && alerts[i].event == event
  }

  function AddAlert(alerts: seq<Alert>, a: Alert): seq<Alert> {
    if HasAlert(alerts, a.rule, a.event) then alerts else alerts + [a]
  }

  function EvaluateRule(d: Desk, rule: Rule, e: Event): Desk {
    if !Applies(rule, e) then d
    else
      var key, r := KeyOf(rule, e), ReadingOf(rule, e);
      d.(alerts := if Fires(StateOf(d, key), r, rule.cooldown) then AddAlert(d.alerts, Alert(rule.id, e.id, e.at)) else d.alerts,
         states := d.states[key := Stored(StateOf(d, key), r, rule.cooldown)])
  }

  function EvaluateFirst(d: Desk, e: Event, n: nat): (r: Desk)
    requires n <= |d.rules|
    ensures r.rules == d.rules
  {
    if n == 0 then d else EvaluateRule(EvaluateFirst(d, e, n - 1), d.rules[n - 1], e)
  }

  function Evaluate(d: Desk, e: Event): (r: Desk)
    ensures r.rules == d.rules
  {
    EvaluateFirst(d, e, |d.rules|)
  }

  ghost predicate DistinctRules(rules: seq<Rule>) {
    forall i, j :: 0 <= i < j < |rules| ==> rules[i].id != rules[j].id
  }

  lemma {:induction false} OneRuleDecides(d: Desk, e: Event, n: nat, k: nat, key: Key)
    requires n <= |d.rules| && k < |d.rules| && DistinctRules(d.rules) && key.rule == d.rules[k].id
    ensures StateOf(EvaluateFirst(d, e, n), key)
            == if k < n && Applies(d.rules[k], e) && KeyOf(d.rules[k], e) == key
               then Some(Stored(StateOf(d, key), ReadingOf(d.rules[k], e), d.rules[k].cooldown)) else StateOf(d, key)
    ensures forall event :: HasAlert(EvaluateFirst(d, e, n).alerts, key.rule, event)
              <==> || HasAlert(d.alerts, key.rule, event)
                   || (event == e.id && k < n && Applies(d.rules[k], e)
                       && Fires(StateOf(d, KeyOf(d.rules[k], e)), ReadingOf(d.rules[k], e), d.rules[k].cooldown))
  {
    if n > 0 {
      OneRuleDecides(d, e, n - 1, k, key);
      OneRuleDecides(d, e, n - 1, k, KeyOf(d.rules[k], e));
      AlertsAfterRule(EvaluateFirst(d, e, n - 1), d.rules[n - 1], e, key.rule);
    }
  }

  lemma AlertsAfterRule(d: Desk, rule: Rule, e: Event, id: RuleId)
    ensures forall event :: HasAlert(EvaluateRule(d, rule, e).alerts, id, event)
              <==> || HasAlert(d.alerts, id, event)
                   || (event == e.id && id == rule.id && Applies(rule, e)
                       && Fires(StateOf(d, KeyOf(rule, e)), ReadingOf(rule, e), rule.cooldown))
  {
    var after := EvaluateRule(d, rule, e).alerts;
    forall event ensures HasAlert(d.alerts, id, event) ==> HasAlert(after, id, event) {
      if i :| 0 <= i < |d.alerts| && d.alerts[i].rule == id && d.alerts[i].event == event {
        assert after[i] == d.alerts[i];
      }
    }
    if after != d.alerts {
      assert after[|d.alerts|] == Alert(rule.id, e.id, e.at);
    }
  }

  // ---------------------------------------------------------------- runs

  const MaximumRules := 100

  function Drop(rules: seq<Rule>, id: RuleId): (r: seq<Rule>)
    ensures forall x :: x in r <==> x in rules && x.id != id
    ensures DistinctRules(rules) ==> DistinctRules(r)
  {
    if rules == [] then []
    else
      var n := |rules| - 1;
      assert rules == rules[..n] + [rules[n]];
      Drop(rules[..n], id) + if rules[n].id == id then [] else [rules[n]]
  }

  predicate HasRule(rules: seq<Rule>, id: RuleId) {
    exists i :: 0 <= i < |rules| && rules[i].id == id
  }

  /** A rule is saved under the identifier it came with, which must be known, or under
      a new one while there is room. */
  predicate CanSave(d: Desk, rule: Rule, known: bool) {
    if known then HasRule(d.rules, rule.id) else |d.rules| < MaximumRules
  }

  function StatesWithout(states: map<Key, Trigger>, id: RuleId): map<Key, Trigger> {
    map key | key in states && key.rule != id :: states[key]
  }

  /** Saving a rule replaces it and forgets its states: every stream of it starts anew. */
  function Saved(d: Desk, rule: Rule, known: bool): Desk {
    if CanSave(d, rule, known) then Desk(Drop(d.rules, rule.id) + [rule], StatesWithout(d.states, rule.id), d.alerts) else d
  }

  /** Deleting a rule deletes its states with it. */
  function Deleted(d: Desk, id: RuleId): Desk {
    Desk(Drop(d.rules, id), StatesWithout(d.states, id), d.alerts)
  }

  datatype Step = Happens(event: Event) | Saves(rule: Rule, known: bool) | Deletes(id: RuleId)

  function Next(d: Desk, step: Step): Desk {
    match step
    case Happens(e) => Evaluate(d, e)
    case Saves(rule, known) => Saved(d, rule, known)
    case Deletes(id) => Deleted(d, id)
  }

  function Run(d: Desk, steps: seq<Step>): Desk {
    if steps == [] then d else Next(Run(d, steps[..|steps| - 1]), steps[|steps| - 1])
  }

  lemma {:induction false} RulesStayDistinct(d: Desk, steps: seq<Step>)
    requires DistinctRules(d.rules)
    ensures DistinctRules(Run(d, steps).rules)
  {
    if steps != [] {
      RulesStayDistinct(d, steps[..|steps| - 1]);
    }
  }

  /** The step neither saves nor deletes this rule. */
  predicate Leaves(step: Step, id: RuleId) {
    (step.Saves? ==> step.rule.id != id) && (step.Deletes? ==> step.id != id)
  }

  ghost predicate LeftAlone(steps: seq<Step>, id: RuleId) {
    forall i :: 0 <= i < |steps| ==> Leaves(steps[i], id)
  }

  /** What one stream sees of a run. */
  function Stream(rule: Rule, key: Key, steps: seq<Step>): seq<Reading> {
    if steps == [] then []
    else
      var last := steps[|steps| - 1];
      Stream(rule, key, steps[..|steps| - 1])
      + if last.Happens? && Applies(rule, last.event) && KeyOf(rule, last.event) == key
        then [ReadingOf(rule, last.event)] else []
  }

  lemma OtherStep(d: Desk, step: Step, rule: Rule, key: Key)
    requires !step.Happens? && Leaves(step, rule.id) && rule in d.rules && key.rule == rule.id
    ensures rule in Next(d, step).rules && Next(d, step).alerts == d.alerts && StateOf(Next(d, step), key) == StateOf(d, key)
  {
  }

  lemma EventStep(d: Desk, e: Event, rule: Rule, key: Key)
    requires DistinctRules(d.rules) && rule in d.rules && key.rule == rule.id
    ensures rule in Evaluate(d, e).rules
    ensures StateOf(Evaluate(d, e), key)
            == if Applies(rule, e) && KeyOf(rule, e) == key
               then Some(Stored(StateOf(d, key), ReadingOf(rule, e), rule.cooldown)) else StateOf(d, key)
    ensures forall event :: HasAlert(Evaluate(d, e).alerts, rule.id, event)
              <==> || HasAlert(d.alerts, rule.id, event)
                   || (event == e.id && Applies(rule, e)
                       && Fires(StateOf(d, KeyOf(rule, e)), ReadingOf(rule, e), rule.cooldown))
  {
    var k :| 0 <= k < |d.rules| && d.rules[k] == rule;
    OneRuleDecides(d, e, |d.rules|, k, key);
  }

  /** From the moment a rule is saved until it is saved again or deleted, its state for
      a deployment and camera is that of its own stream: no other rule, deployment or
      camera interferes, and neither does saving or deleting other rules. */
  lemma {:induction false} StreamsAreIndependent(d: Desk, rule: Rule, known: bool, steps: seq<Step>, key: Key)
    requires DistinctRules(d.rules) && CanSave(d, rule, known) && LeftAlone(steps, rule.id) && key.rule == rule.id
    ensures var after := Run(Saved(d, rule, known), steps);
            && rule in after.rules && DistinctRules(after.rules)
            && StateOf(after, key) == Feed(Stream(rule, key, steps), rule.cooldown)
  {
    SavedStartsAnew(d, rule, known, key);
    RulesStayDistinct(Saved(d, rule, known), steps);
    if steps != [] {
      var init, last := steps[..|steps| - 1], steps[|steps| - 1];
      StreamsAreIndependent(d, rule, known, init, key);
      StateFollows(Run(Saved(d, rule, known), init), rule, steps, key);
    }
  }

  lemma SavedStartsAnew(d: Desk, rule: Rule, known: bool, key: Key)
    requires DistinctRules(d.rules) && CanSave(d, rule, known) && key.rule == rule.id
    ensures rule in Saved(d, rule, known).rules && DistinctRules(Saved(d, rule, known).rules)
    ensures StateOf(Saved(d, rule, known), key) == None
  {
    assert Saved(d, rule, known).rules[|Drop(d.rules, rule.id)|] == rule;
  }

  lemma StateFollows(before: Desk, rule: Rule, steps: seq<Step>, key: Key)
    requires steps != [] && Leaves(steps[|steps| - 1], rule.id) && key.rule == rule.id
    requires DistinctRules(before.rules) && rule in before.rules
    requires StateOf(before, key) == Feed(Stream(rule, key, steps[..|steps| - 1]), rule.cooldown)
    ensures var after := Next(before, steps[|steps| - 1]);
            rule in after.rules && StateOf(after, key) == Feed(Stream(rule, key, steps), rule.cooldown)
  {
    var last := steps[|steps| - 1];
    if last.Happens? {
      EventStep(before, last.event, rule, key);
      StreamGrows(rule, key, steps);
    } else {
      OtherStep(before, last, rule, key);
      assert Stream(rule, key, steps) == Stream(rule, key, steps[..|steps| - 1]);
    }
  }

  lemma StreamGrows(rule: Rule, key: Key, steps: seq<Step>)
    requires steps != [] && steps[|steps| - 1].Happens?
    ensures var e, before := steps[|steps| - 1].event, Stream(rule, key, steps[..|steps| - 1]);
            Feed(Stream(rule, key, steps), rule.cooldown)
            == if Applies(rule, e) && KeyOf(rule, e) == key
               then Some(Stored(Feed(before, rule.cooldown), ReadingOf(rule, e), rule.cooldown))
               else Feed(before, rule.cooldown)
  {
    var e, before := steps[|steps| - 1].event, Stream(rule, key, steps[..|steps| - 1]);
    if Applies(rule, e) && KeyOf(rule, e) == key {
      assert Stream(rule, key, steps) == before + [ReadingOf(rule, e)];
      assert (before + [ReadingOf(rule, e)])[..|before|] == before;
    } else {
      assert Stream(rule, key, steps) == before;
    }
  }

  /** Step `i` is an event that the rule looks at and that fires in its stream. */
  ghost predicate FiresInRun(rule: Rule, steps: seq<Step>, i: nat)
    requires i < |steps|
  {
    && steps[i].Happens? && Applies(rule, steps[i].event)
    && var readings := Stream(rule, KeyOf(rule, steps[i].event), steps[..i + 1]);
       readings != [] && FiresAt(readings, |readings| - 1, rule.cooldown)
  }

  ghost predicate RaisedBy(rule: Rule, steps: seq<Step>, event: nat) {
    exists i :: 0 <= i < |steps| && FiresInRun(rule, steps, i) && steps[i].event.id == event
  }

  lemma FiresInLastStep(rule: Rule, steps: seq<Step>)
    requires steps != [] && steps[|steps| - 1].Happens? && Applies(rule, steps[|steps| - 1].event)
    ensures var e := steps[|steps| - 1].event;
            FiresInRun(rule, steps, |steps| - 1)
            <==> Fires(Feed(Stream(rule, KeyOf(rule, e), steps[..|steps| - 1]), rule.cooldown), ReadingOf(rule, e), rule.cooldown)
  {
    var n := |steps| - 1;
    var e := steps[n].event;
    var before := Stream(rule, KeyOf(rule, e), steps[..n]);
    assert steps[..n + 1] == steps;
    assert (before + [ReadingOf(rule, e)])[..|before|] == before;
  }

  lemma RaisedByOneMore(rule: Rule, steps: seq<Step>, event: nat)
    requires steps != []
    ensures RaisedBy(rule, steps, event)
            <==> || RaisedBy(rule, steps[..|steps| - 1], event)
                 || (FiresInRun(rule, steps, |steps| - 1) && steps[|steps| - 1].event.id == event)
  {
    var n := |steps| - 1;
    forall i | 0 <= i < n ensures FiresInRun(rule, steps, i) <==> FiresInRun(rule, steps[..n], i) {
      assert steps[..n][..i + 1] == steps[..i + 1];
    }
    if i :| 0 <= i < n && FiresInRun(rule, steps[..n], i) && steps[..n][i].event.id == event {
      assert FiresInRun(rule, steps, i);
    }
  }

  /** From the moment a rule is saved until it is saved again or deleted, the events it
      has alerts for are those it had before and exactly those that fire in its streams. */
  lemma {:induction false} AlertsAreFirings(d: Desk, rule: Rule, known: bool, steps: seq<Step>, event: nat)
    requires DistinctRules(d.rules) && CanSave(d, rule, known) && LeftAlone(steps, rule.id)
    ensures HasAlert(Run(Saved(d, rule, known), steps).alerts, rule.id, event)
            <==> HasAlert(d.alerts, rule.id, event) || RaisedBy(rule, steps, event)
  {
    if steps != [] {
      var init, last := steps[..|steps| - 1], steps[|steps| - 1];
      AlertsAreFirings(d, rule, known, init, event);
      var before := Run(Saved(d, rule, known), init);
      RaisedByOneMore(rule, steps, event);
      var key := if last.Happens? then KeyOf(rule, last.event) else Key(rule.id, "", "");
      StreamsAreIndependent(d, rule, known, init, key);
      if last.Happens? {
        EventStep(before, last.event, rule, key);
        if Applies(rule, last.event) {
          FiresInLastStep(rule, steps);
        }
      } else {
        OtherStep(before, last, rule, key);
      }
    }
  }

  // ---------------------------------------------------------------- what a firing says of the values

  /** Step `i` shows the rule a value of this stream. */
  predicate Sees(rule: Rule, key: Key, step: Step) {
    step.Happens? && Applies(rule, step.event) && KeyOf(rule, step.event) == key
  }

  /** Steps `i` and `j` show the rule two successive values of one stream. */
  ghost predicate Successive(rule: Rule, key: Key, steps: seq<Step>, i: nat, j: nat) {
    && i < j < |steps| && Sees(rule, key, steps[i]) && Sees(rule, key, steps[j])
    && forall k :: i < k < j ==> !Sees(rule, key, steps[k])
  }

  lemma {:induction false} NothingBetween(rule: Rule, key: Key, steps: seq<Step>, i: nat, n: nat)
    requires i < n <= |steps| && Sees(rule, key, steps[i]) && forall k :: i < k < n ==> !Sees(rule, key, steps[k])
    ensures Stream(rule, key, steps[..n])
            == Stream(rule, key, steps[..i]) + [ReadingOf(rule, steps[i].event)]
  {
    assert steps[..n][..n - 1] == steps[..n - 1];
    if i + 1 < n {
      NothingBetween(rule, key, steps, i, n - 1);
    }
  }

  /** The value got past the threshold, in the direction the operator asks for. */
  predicate Crossed(o: Operator, before: real, threshold: real, after: real) {
    match o
    case Gt => before <= threshold < after
    case Gte => before < threshold <= after
    case Lt => after < threshold <= before
    case Lte => after <= threshold < before
    case Eq => before != threshold == after
  }

  /** A stream fires at a value only when its value before had not reached the threshold. */
  lemma FiringCrosses(rule: Rule, key: Key, steps: seq<Step>, i: nat, j: nat)
    requires Successive(rule, key, steps, i, j) && FiresInRun(rule, steps, j)
    ensures Crossed(rule.operator, steps[i].event.fields[rule.field], rule.threshold, steps[j].event.fields[rule.field])
  {
    var earlier, e := Stream(rule, key, steps[..i]), steps[j].event;
    NothingBetween(rule, key, steps, i, j);
    assert steps[..j + 1][..j] == steps[..j];
    var readings := earlier + [ReadingOf(rule, steps[i].event)] + [ReadingOf(rule, e)];
    assert Stream(rule, key, steps[..j + 1]) == readings;
    FeedRemembers(readings, |earlier| + 1, rule.cooldown);
  }

  /** The event is of the rule's kind, has its field, and comes from its deployment and camera,
      where the rule names any. */
  predicate Concerns(rule: Rule, e: Event) {
    && rule.enabled && e.eventType == rule.eventType && rule.field in e.fields
    && rule.deployment in {"", e.deployment} && rule.camera in {"", e.camera}
  }

  /** An event that concerns a rule leaves the rule's stream of that deployment and camera
      remembering whether the value matched; one that does not leaves all its streams and
      alerts alone. */
  lemma EventDecides(d: Desk, e: Event, rule: Rule, key: Key, event: nat)
    requires DistinctRules(d.rules) && rule in d.rules && key.rule == rule.id
    ensures var d' := Next(d, Happens(e));
            if Concerns(rule, e) && key.deployment == e.deployment && key.camera == e.camera
            then StateOf(d', key).Some?
                 && StateOf(d', key).value.active == Compare(rule.operator, e.fields[rule.field], rule.threshold)
            else StateOf(d', key) == StateOf(d, key)
    ensures HasAlert(Next(d, Happens(e)).alerts, rule.id, event) && !HasAlert(d.alerts, rule.id, event) ==>
              event == e.id && Concerns(rule, e)
  {
    EventStep(d, e, rule, key);
  }

  /** A rule is stored exactly if its identifier is known or there are fewer than a hundred;
      it takes the place of what was under the identifier, and its streams start anew. */
  lemma SaveDecides(d: Desk, rule: Rule, known: bool)
    requires DistinctRules(d.rules)
    ensures var d' := Next(d, Saves(rule, known));
            if (known && HasRule(d.rules, rule.id)) || (!known && |d.rules| < 100)
            then && (forall x :: x in d'.rules <==> x == rule || (x in d.rules && x.id != rule.id))
                 && (forall key: Key :: key.rule == rule.id ==> StateOf(d', key) == None)
                 && (forall key: Key :: key.rule != rule.id ==> StateOf(d', key) == StateOf(d, key))
            else d' == d
  {
  }

  /** Deleting removes the rule and its streams, and nothing else. */
  lemma DeleteDecides(d: Desk, id: RuleId)
    ensures var d' := Next(d, Deletes(id));
            && (forall x :: x in d'.rules <==> x in d.rules && x.id != id)
            && (forall key: Key :: StateOf(d', key) == if key.rule == id then None else StateOf(d, key))
            && d'.alerts == d.alerts
  {
  }

  // ---------------------------------------------------------------- the tables

  class AlertTables {
    var rules: seq<Rule>
    var states: map<Key, Trigger>
    var alerts: seq<Alert>

    function View(): Desk
      reads this
    {
      Desk(rules, states, alerts)
    }

    constructor ()
      ensures View() == Desk([], map[], [])
    {
      rules, states, alerts := [], map[], [];
    }

    method Ingested(e: Event)
      modifies this
      ensures View() == Evaluate(old(View()), e) && rules == old(rules)
    {
      ghost var d := View();
      var i := 0;
      while i < |rules|
        invariant 0 <= i <= |rules| && rules == d.rules
        invariant View() == EvaluateFirst(d, e, i)
      {
        var rule := rules[i];
        i := i + 1;
        if !rule.enabled || e.eventType != rule.eventType {
          continue;
        }
        if rule.deployment != "" && rule.deployment != e.deployment {
          continue;
        }
        if rule.camera != "" && rule.camera != e.camera {
          continue;
        }
        if rule.field !in e.fields {
          continue;
        }
        var key := Key(rule.id, e.deployment, e.camera);
        var known := key in states;
        var active, last := if known then states[key].active else false, if known then states[key].last else 0.0;
        var matched := Compare(rule.operator, e.fields[rule.field], rule.threshold);
        if matched && !active && (!known || last == 0.0 || e.at - last >= rule.cooldown) {
          alerts := AddAlert(alerts, Alert(rule.id, e.id, e.at));
          last := e.at;
        }
        states := states[key := Trigger(matched, last)];
      }
    }

    /** Replaces the row and deletes the states in one transaction, or refuses. */
    method Save(rule: Rule, known: bool) returns (ok: bool)
      requires DistinctRules(rules)
      modifies this
      ensures DistinctRules(rules)
      ensures ok == CanSave(old(View()), rule, known) && View() == Saved(old(View()), rule, known)
    {
      if known {
        if !HasRule(rules, rule.id) {
          return false;
        }
      } else if |rules| >= MaximumRules {
        return false;
      }
      rules := Drop(rules, rule.id) + [rule];
      states := StatesWithout(states, rule.id);
      return true;
    }

    method Delete(id: RuleId)
      requires DistinctRules(rules)
      modifies this
      ensures DistinctRules(rules) && View() == Deleted(old(View()), id)
    {
      rules := Drop(rules, id);
      states := StatesWithout(states, id);
    }
  }
}
