/**
 What a batch of readings raises (`evaluateReadings`), said of the readings and the rules
 themselves: which rule and bound fold a verdict, under which key, and which verdict.
 */
module Detection {
  import opened Wrappers
  import opened Reals
  import opened Severity
  import opened Alerts

  // ─── Without the evaluation: readings, limits and runs ─────────────────────────────

  /** The rule watches this reading: its sensor, or any; its structure, or any. */
  predicate Watches(rule: Rule, o: Observation) {
    rule.sensorId in {None, Some(o.sensorId)} && (rule.structureId == None || rule.structureId == o.structureId)
  }

  /** The reading is watched, and beyond the limit. */
  predicate Breaches(rule: Rule, bound: Bound, limit: real, o: Observation) {
    Watches(rule, o) && match bound case Lower => o.value < limit case Upper => limit < o.value
  }

  function Limit(rule: Rule, bound: Bound): Option<real> {
    match bound case Lower => rule.minValue case Upper => rule.maxValue
  }

  /** How many readings from place `from` on the rule watches. */
  function WatchedFrom(rule: Rule, readings: seq<Observation>, from: nat): nat {
    |Watched(rule, readings, from)|
  }

  function Watched(rule: Rule, readings: seq<Observation>, from: nat): set<nat> {
    set i: nat | from <= i < |readings| && Watches(rule, readings[i])
  }

  /** From `from` on every watched reading breaches, and the watched one just before, if any, does not. */
  predicate RunFromPlace(rule: Rule, bound: Bound, limit: real, readings: seq<Observation>, from: nat) {
    && from <= |readings|
    && (forall i :: from <= i < |readings| && Watches(rule, readings[i]) ==> Breaches(rule, bound, limit, readings[i]))
    && (from > 0 ==> Watches(rule, readings[from - 1]) && !Breaches(rule, bound, limit, readings[from - 1]))
  }

  /** The worst breaching reading: the farthest from the limit, the first among equals. */
  predicate WorstAt(rule: Rule, bound: Bound, limit: real, readings: seq<Observation>, w: nat) {
    && w < |readings| && Breaches(rule, bound, limit, readings[w])
    && forall i :: 0 <= i < |readings| && Breaches(rule, bound, limit, readings[i]) ==>
         if i < w then Abs(readings[i].value - limit) < Abs(readings[w].value - limit)
         else Abs(readings[i].value - limit) <= Abs(readings[w].value - limit)
  }

  predicate AnyFlagged(rule: Rule, bound: Bound, limit: real, readings: seq<Observation>) {
    exists i :: 0 <= i < |readings| && Breaches(rule, bound, limit, readings[i]) && readings[i].flagged
  }

  predicate InForce(tenant: int, rule: Rule, readings: seq<Observation>) {
    && rule.tenant == tenant && rule.enabled
    && (rule.sensorId == None || exists i :: 0 <= i < |readings| && Some(readings[i].sensorId) == rule.sensorId)
  }

  /** The run at the end of the batch is not empty and as long as the rule asks. */
  predicate LongEnough(rule: Rule, n: nat) {
    n >= 1 && n >= rule.consecutiveSamples
  }

  /** The last watched readings, as many as the rule asks and at least one, all exist and breach. */
  ghost predicate Persists(rule: Rule, bound: Bound, readings: seq<Observation>) {
    && Limit(rule, bound).Some?
    && exists from: nat :: BreachesSince(rule, bound, Limit(rule, bound).value, readings, from)
  }

  predicate BreachesSince(rule: Rule, bound: Bound, limit: real, readings: seq<Observation>, from: nat) {
    && from <= |readings| && LongEnough(rule, WatchedFrom(rule, readings, from))
    && forall i :: from <= i < |readings| && Watches(rule, readings[i]) ==> Breaches(rule, bound, limit, readings[i])
  }

  ghost predicate Raising(tenant: int, rule: Rule, bound: Bound, readings: seq<Observation>) {
    InForce(tenant, rule, readings) && Persists(rule, bound, readings)
  }

  /** How far past the limit a value is, in units of the limit, or of one where the limit is all but zero. */
  function Past(bound: Bound, limit: real, value: real): real {
    var unit := if -0.000000001 <= limit <= 0.000000001 then 1.0 else Abs(limit);
    (match bound case Lower => limit - value case Upper => value - limit) / unit
  }

  lemma PastIs(bound: Bound, limit: real, value: real)
    requires match bound case Lower => value < limit case Upper => limit < value
    ensures RatioOf(bound, limit, value) == Past(bound, limit, value)
  {}

  /** The verdict a rule and bound come to, the run starting at `from` and the worst reading being `w`. */
  predicate VerdictIs(op: Op, tenant: int, rule: Rule, bound: Bound, readings: seq<Observation>, from: nat, w: nat)
    requires w < |readings|
  {
    var limit := Limit(rule, bound);
    && limit.Some? && op.Observe? && op.tenant == tenant && op.ts == readings[w].ts
    && RunFromPlace(rule, bound, limit.value, readings, from) && WorstAt(rule, bound, limit.value, readings, w)
    && op.dedupeKey == BuildDedupeKey(Condition(tenant, Some(rule.id),
                                                if rule.sensorId == None then Some(readings[w].sensorId)
                                                  else rule.sensorId,
                                                rule.category, bound))
    && op.verdict == DeriveSeverity(Inputs(rule.category, Past(bound, limit.value, readings[w].value),
                                           WatchedFrom(rule, readings, from), rule.consecutiveSamples,
                                           AnyFlagged(rule, bound, limit.value, readings)))
  }

  // ─── The evaluation against it ─────────────────────────────────────────────────────

  lemma WatchedMore(rule: Rule, readings: seq<Observation>, o: Observation, from: nat)
    requires from <= |readings|
    ensures WatchedFrom(rule, readings + [o], from) == WatchedFrom(rule, readings, from) + if Watches(rule, o) then 1
            else 0
  {
    var longer := readings + [o];
    var before, after := Watched(rule, readings, from), Watched(rule, longer, from);
    if Watches(rule, o) {
      assert after == before + {|readings|};
    } else {
      assert after == before;
    }
  }

  lemma WatchedNone(rule: Rule, readings: seq<Observation>)
    ensures WatchedFrom(rule, readings, |readings|) == 0
  {
    assert Watched(rule, readings, |readings|) == {};
  }

  lemma ApplicableMore(rule: Rule, bound: Bound, limit: real, readings: seq<Observation>)
    requires readings != []
    ensures var n := |readings| - 1;
            var watched := Applicable(rule, readings[..n]);
            && Applicable(rule, readings) == watched + (if Watches(rule, readings[n]) then [readings[n]] else [])
            && Run(Applicable(rule, readings), bound, limit)
               == (if !Watches(rule, readings[n]) then Run(watched, bound, limit)
                   else if Breaches(rule, bound, limit, readings[n]) then Run(watched, bound, limit) + 1 else 0)
            && Breaching(Applicable(rule, readings), bound, limit)
               == Breaching(watched, bound, limit)
                  + (if Breaches(rule, bound, limit, readings[n]) then [readings[n]] else [])
  {
    var n := |readings| - 1;
    var watched := Applicable(rule, readings[..n]);
    assert (watched + [readings[n]])[..|watched|] == watched;
    assert watched + [] == watched;
    assert Breaching(watched, bound, limit) + [] == Breaching(watched, bound, limit);
  }

  lemma RunExtends(rule: Rule, bound: Bound, limit: real, readings: seq<Observation>, n: nat, from: nat)
    requires |readings| == n + 1 && RunFromPlace(rule, bound, limit, readings[..n], from)
    requires Watches(rule, readings[n]) ==> Breaches(rule, bound, limit, readings[n])
    ensures RunFromPlace(rule, bound, limit, readings, from)
  {
    forall i | from <= i < |readings| && Watches(rule, readings[i]) ensures Breaches(rule, bound, limit, readings[i]) {
      assert i < n ==> readings[..n][i] == readings[i];
    }
  }

  /** The counter is the number of watched readings in the run at the end of the batch. */
  lemma {:induction false} RunPlace(rule: Rule, bound: Bound, limit: real, readings: seq<Observation>)
    returns (from: nat)
    ensures RunFromPlace(rule, bound, limit, readings, from)
    ensures Run(Applicable(rule, readings), bound, limit) == WatchedFrom(rule, readings, from)
  {
    if readings == [] {
      from := 0;
      WatchedNone(rule, readings);
    } else {
      var n := |readings| - 1;
      from := RunPlace(rule, bound, limit, readings[..n]);
      ApplicableMore(rule, bound, limit, readings);
      assert readings == readings[..n] + [readings[n]];
      if Watches(rule, readings[n]) && !Breaches(rule, bound, limit, readings[n]) {
        from := |readings|;
        WatchedNone(rule, readings);
      } else {
        RunExtends(rule, bound, limit, readings, n, from);
        WatchedMore(rule, readings[..n], readings[n], from);
      }
    }
  }

  lemma WorstSnoc(before: seq<Observation>, o: Observation, limit: real)
    ensures var worst := WorstOf(before + [o], limit, (before + [o])[0]);
            if before == [] then worst == o
            else worst == if Abs(o.value - limit) > Abs(WorstOf(before, limit, before[0]).value - limit) then o
                          else WorstOf(before, limit, before[0])
  {
    assert (before + [o])[..|before|] == before;
  }

  lemma BreachingMore(rule: Rule, bound: Bound, limit: real, readings: seq<Observation>, n: nat)
    requires |readings| == n + 1
    ensures Breaching(Applicable(rule, readings), bound, limit)
            == Breaching(Applicable(rule, readings[..n]), bound, limit)
               + (if Breaches(rule, bound, limit, readings[n]) then [readings[n]] else [])
  {
    ApplicableMore(rule, bound, limit, readings);
  }

  predicate NoneBreaches(rule: Rule, bound: Bound, limit: real, readings: seq<Observation>) {
    forall i :: 0 <= i < |readings| ==> !Breaches(rule, bound, limit, readings[i])
  }

  lemma NoneMore(rule: Rule, bound: Bound, limit: real, readings: seq<Observation>, n: nat)
    requires |readings| == n + 1
    ensures NoneBreaches(rule, bound, limit, readings)
            <==> NoneBreaches(rule, bound, limit, readings[..n]) && !Breaches(rule, bound, limit, readings[n])
    ensures NoneBreaches(rule, bound, limit, readings[..n]) ==>
              forall i :: 0 <= i < n ==> !Breaches(rule, bound, limit, readings[i])
  {
    assert forall i :: 0 <= i < n ==> readings[..n][i] == readings[i];
  }

  lemma OnlyLast(rule: Rule, bound: Bound, limit: real, readings: seq<Observation>, n: nat)
    requires |readings| == n + 1 && Breaches(rule, bound, limit, readings[n])
    requires NoneBreaches(rule, bound, limit, readings[..n])
    ensures WorstAt(rule, bound, limit, readings, n)
  {
    NoneMore(rule, bound, limit, readings, n);
  }

  /** When anything breaches, the reduction ends with the worst. */
  lemma {:induction false} WorstPlace(rule: Rule, bound: Bound, limit: real, readings: seq<Observation>)
    returns (w: nat)
    requires Breaching(Applicable(rule, readings), bound, limit) != []
    ensures WorstAt(rule, bound, limit, readings, w)
    ensures var breaching := Breaching(Applicable(rule, readings), bound, limit);
            WorstOf(breaching, limit, breaching[0]) == readings[w]
  {
    var n := |readings| - 1;
    var before := Breaching(Applicable(rule, readings[..n]), bound, limit);
    BreachingMore(rule, bound, limit, readings, n);
    WorstSnoc(before, readings[n], limit);
    if before == [] {
      w := n;
      NoBreach(rule, bound, limit, readings[..n]);
      OnlyLast(rule, bound, limit, readings, n);
    } else {
      w := WorstPlace(rule, bound, limit, readings[..n]);
      WorstExtends(rule, bound, limit, readings, n, w);
      if Breaches(rule, bound, limit, readings[n]) && Abs(readings[n].value - limit) > Abs(readings[w].value - limit) {
        w := n;
      } else {
        assert before + [] == before;
      }
    }
  }

  lemma WorstExtends(rule: Rule, bound: Bound, limit: real, readings: seq<Observation>, n: nat, w: nat)
    requires |readings| == n + 1 && WorstAt(rule, bound, limit, readings[..n], w)
    ensures if Breaches(rule, bound, limit, readings[n])
            && Abs(readings[n].value - limit) > Abs(readings[w].value - limit)
            then WorstAt(rule, bound, limit, readings, n) else WorstAt(rule, bound, limit, readings, w)
  {
    assert forall i :: 0 <= i < n ==> readings[..n][i] == readings[i];
  }

  lemma {:induction false} NoBreach(rule: Rule, bound: Bound, limit: real, readings: seq<Observation>)
    ensures Breaching(Applicable(rule, readings), bound, limit) == [] <==> NoneBreaches(rule, bound, limit, readings)
  {
    if readings != [] {
      var n := |readings| - 1;
      BreachingMore(rule, bound, limit, readings, n);
      NoBreach(rule, bound, limit, readings[..n]);
      NoneMore(rule, bound, limit, readings, n);
    }
  }

  lemma SuspectSnoc(before: seq<Observation>, o: Observation)
    ensures Suspect(before + [o]) <==> Suspect(before) || o.flagged
  {
    var after := before + [o];
    assert after[|before|] == o;
    assert forall j :: 0 <= j < |before| ==> after[j] == before[j];
  }

  lemma FlaggedMore(rule: Rule, bound: Bound, limit: real, readings: seq<Observation>, n: nat)
    requires |readings| == n + 1
    ensures AnyFlagged(rule, bound, limit, readings)
            <==> AnyFlagged(rule, bound, limit, readings[..n])
                 || (Breaches(rule, bound, limit, readings[n]) && readings[n].flagged)
  {
    assert forall i :: 0 <= i < n ==> readings[..n][i] == readings[i];
  }

  lemma {:induction false} SuspectWhen(rule: Rule, bound: Bound, limit: real, readings: seq<Observation>)
    ensures Suspect(Breaching(Applicable(rule, readings), bound, limit)) <==> AnyFlagged(rule, bound, limit, readings)
  {
    if readings != [] {
      var n := |readings| - 1;
      var before := Breaching(Applicable(rule, readings[..n]), bound, limit);
      BreachingMore(rule, bound, limit, readings, n);
      SuspectWhen(rule, bound, limit, readings[..n]);
      SuspectSnoc(before, readings[n]);
      FlaggedMore(rule, bound, limit, readings, n);
      assert before + [] == before;
    }
  }

  /** A longer stretch holds no fewer watched readings. */
  lemma WatchedGrows(rule: Rule, readings: seq<Observation>, a: nat, b: nat)
    requires a <= b
    ensures WatchedFrom(rule, readings, b) <= WatchedFrom(rule, readings, a)
  {
    var fewer, more := Watched(rule, readings, b), Watched(rule, readings, a);
    assert more == fewer + (more - fewer);
  }

  /** The condition persists exactly when its run is long enough. */
  lemma PersistsWhen(rule: Rule, bound: Bound, readings: seq<Observation>, from: nat)
    requires Limit(rule, bound).Some? && RunFromPlace(rule, bound, Limit(rule, bound).value, readings, from)
    ensures Persists(rule, bound, readings) <==> LongEnough(rule, WatchedFrom(rule, readings, from))
  {
    var limit := Limit(rule, bound).value;
    if Persists(rule, bound, readings) {
      var since: nat :| BreachesSince(rule, bound, limit, readings, since);
      assert since >= from;
      WatchedGrows(rule, readings, from, since);
    } else if LongEnough(rule, WatchedFrom(rule, readings, from)) {
      assert BreachesSince(rule, bound, limit, readings, from);
    }
  }

  /** One bound: nothing, or the one verdict, and exactly when the condition persists. */
  lemma BoundTells(tenant: int, rule: Rule, bound: Bound, readings: seq<Observation>, prefer: string -> nat)
    returns (from: nat, w: nat)
    ensures BoundOps(tenant, rule, bound, readings, prefer) != [] <==> Persists(rule, bound, readings)
    ensures Persists(rule, bound, readings) ==>
              var ops := BoundOps(tenant, rule, bound, readings, prefer);
              && |ops| == 1 && w < |readings| && VerdictIs(ops[0], tenant, rule, bound, readings, from, w)
              && ops[0].prefer == prefer(ops[0].dedupeKey)
  {
    from, w := 0, 0;
    var limit := Limit(rule, bound);
    assert limit == LimitOf(rule, bound);
    if limit.Some? {
      var watched := Applicable(rule, readings);
      from := RunPlace(rule, bound, limit.value, readings);
      PersistsWhen(rule, bound, readings, from);
      LastBreaks(watched, bound, limit.value);
      if Raises(watched, rule.consecutiveSamples, bound, limit.value) {
        w := WorstPlace(rule, bound, limit.value, readings);
        SuspectWhen(rule, bound, limit.value, readings);
        PastIs(bound, limit.value, readings[w].value);
      }
    }
  }

  lemma SelectedWhen(tenant: int, rule: Rule, readings: seq<Observation>)
    ensures Selected(tenant, rule, readings) <==> InForce(tenant, rule, readings)
  {
    if rule.sensorId.Some? && Selected(tenant, rule, readings) {
      var i :| 0 <= i < |readings| && readings[i].sensorId == rule.sensorId.value;
      assert Some(readings[i].sensorId) == rule.sensorId;
    }
  }

  /** The verdict of this rule and bound. */
  ghost predicate Verdict(op: Op, tenant: int, rule: Rule, bound: Bound, readings: seq<Observation>,
                          prefer: string -> nat) {
    && op.Observe? && op.prefer == prefer(op.dedupeKey)
    && exists from: nat, w: nat :: w < |readings| && VerdictIs(op, tenant, rule, bound, readings, from, w)
  }

  /** One rule: a verdict for its lower bound, then one for its upper, each exactly when it raises. */
  lemma RuleTells(tenant: int, rule: Rule, readings: seq<Observation>, prefer: string -> nat)
    ensures var ops := RuleOps(tenant, rule, readings, prefer);
            var lower, upper := Raising(tenant, rule, Lower, readings), Raising(tenant, rule, Upper, readings);
            && |ops| == (if lower then 1 else 0) + (if upper then 1 else 0)
            && (lower ==> Verdict(ops[0], tenant, rule, Lower, readings, prefer))
            && (upper ==> Verdict(ops[|ops| - 1], tenant, rule, Upper, readings, prefer))
  {
    SelectedWhen(tenant, rule, readings);
    var a, b := BoundTells(tenant, rule, Lower, readings, prefer);
    var c, d := BoundTells(tenant, rule, Upper, readings, prefer);
  }

  // ─── A whole batch ─────────────────────────────────────────────────────────────────

  function Flat(parts: seq<seq<Op>>): seq<Op> {
    if parts == [] then [] else Flat(parts[..|parts| - 1]) + parts[|parts| - 1]
  }

  lemma {:induction false} FlatAt(parts: seq<seq<Op>>, r: nat, k: nat) returns (at: nat)
    requires r < |parts| && k < |parts[r]|
    ensures at < |Flat(parts)| && Flat(parts)[at] == parts[r][k]
  {
    var n := |parts| - 1;
    if r < n {
      at := FlatAt(parts[..n], r, k);
    } else {
      at := |Flat(parts[..n])| + k;
    }
  }

  /** What the rules fold, rule by rule. */
  function Parts(tenant: int, rules: seq<Rule>, readings: seq<Observation>,
                 prefer: string -> nat): (parts: seq<seq<Op>>)
    ensures |parts| == |rules|
    ensures forall r :: 0 <= r < |rules| ==> parts[r] == RuleOps(tenant, rules[r], readings, prefer)
  {
    seq(|rules|, r requires 0 <= r < |rules| => RuleOps(tenant, rules[r], readings, prefer))
  }

  lemma {:induction false} BatchIsFlat(tenant: int, rules: seq<Rule>, readings: seq<Observation>, prefer: string -> nat)
    ensures BatchOps(tenant, rules, readings, prefer) == Flat(Parts(tenant, rules, readings, prefer))
  {
    if rules != [] {
      var n := |rules| - 1;
      BatchIsFlat(tenant, rules[..n], readings, prefer);
      assert Parts(tenant, rules, readings, prefer)[..n] == Parts(tenant, rules[..n], readings, prefer);
    }
  }

  /**
   Those of the first `n` places, each taken with both bounds, that are chosen; `false` stands for
   the lower bound.
   */
  ghost function Chosen(n: nat, p: (nat, bool) -> bool): set<(nat, bool)> {
    set r: nat, b: bool | r < n && p(r, b) :: (r, b)
  }

  lemma ChosenMore(n: nat, p: (nat, bool) -> bool)
    ensures |Chosen(n + 1, p)| == |Chosen(n, p)| + (if p(n, false) then 1 else 0) + (if p(n, true) then 1 else 0)
  {
    var lower: set<(nat, bool)> := if p(n, false) then {(n, false)} else {};
    var upper: set<(nat, bool)> := if p(n, true) then {(n, true)} else {};
    assert Chosen(n + 1, p) == Chosen(n, p) + lower + upper;
  }

  ghost function RaisingAt(tenant: int, rules: seq<Rule>, readings: seq<Observation>): (nat, bool) -> bool {
    (r: nat, b: bool) => r < |rules| && Raising(tenant, rules[r], if b then Upper else Lower, readings)
  }

  /** The raising pairs of rule and bound. */
  ghost function RaisingPairs(tenant: int, rules: seq<Rule>, readings: seq<Observation>): set<(nat, bool)> {
    Chosen(|rules|, RaisingAt(tenant, rules, readings))
  }

  lemma {:induction false} FlatCounts(parts: seq<seq<Op>>, n: nat, p: (nat, bool) -> bool)
    requires n <= |parts|
    requires forall r: nat ::
               r < |parts| ==> |parts[r]| == (if p(r, false) then 1 else 0) + (if p(r, true) then 1 else 0)
    ensures |Flat(parts[..n])| == |Chosen(n, p)|
  {
    if n == 0 {
      assert Chosen(0, p) == {};
    } else {
      assert parts[..n][..n - 1] == parts[..n - 1];
      FlatCounts(parts, n - 1, p);
      ChosenMore(n - 1, p);
    }
  }

  /** The whole batch: as many verdicts as there are rules and bounds that raise. */
  lemma BatchCounts(tenant: int, rules: seq<Rule>, readings: seq<Observation>, prefer: string -> nat)
    ensures |BatchOps(tenant, rules, readings, prefer)| == |RaisingPairs(tenant, rules, readings)|
  {
    var parts, p := Parts(tenant, rules, readings, prefer), RaisingAt(tenant, rules, readings);
    BatchIsFlat(tenant, rules, readings, prefer);
    forall r: nat | r < |parts|
      ensures |parts[r]| == (if p(r, false) then 1 else 0) + (if p(r, true) then 1 else 0)
    {
      RuleTells(tenant, rules[r], readings, prefer);
    }
    FlatCounts(parts, |parts|, p);
    assert parts[..|parts|] == parts;
  }

  /** And each such rule and bound has its verdict among them. */
  lemma BatchTells(tenant: int, rules: seq<Rule>, readings: seq<Observation>, prefer: string -> nat, r: nat,
                   bound: Bound)
    returns (at: nat)
    requires r < |rules| && Raising(tenant, rules[r], bound, readings)
    ensures at < |BatchOps(tenant, rules, readings, prefer)|
    ensures Verdict(BatchOps(tenant, rules, readings, prefer)[at], tenant, rules[r], bound, readings, prefer)
  {
    RuleTells(tenant, rules[r], readings, prefer);
    BatchIsFlat(tenant, rules, readings, prefer);
    var k := if bound == Lower then 0 else |RuleOps(tenant, rules[r], readings, prefer)| - 1;
    at := FlatAt(Parts(tenant, rules, readings, prefer), r, k);
  }

  /** Nothing is raised by a batch all of whose readings are inside the limits of the rules that watch them. */
  lemma InsideIsQuiet(tenant: int, rules: seq<Rule>, readings: seq<Observation>, prefer: string -> nat)
    requires forall rule <- rules, o <- readings :: Watches(rule, o) ==>
               && (rule.minValue.Some? ==> rule.minValue.value <= o.value)
               && (rule.maxValue.Some? ==> o.value <= rule.maxValue.value)
    ensures BatchOps(tenant, rules, readings, prefer) == []
  {
    BatchCounts(tenant, rules, readings, prefer);
    forall r: nat, bound | r < |rules| ensures !Raising(tenant, rules[r], bound, readings) {
      assert rules[r] in rules;
      if Raising(tenant, rules[r], bound, readings) {
        BreachExists(rules[r], bound, readings);
      }
    }
    assert forall r: nat, b :: !RaisingAt(tenant, rules, readings)(r, b);
    assert RaisingPairs(tenant, rules, readings) == {};
  }

  lemma BreachExists(rule: Rule, bound: Bound, readings: seq<Observation>)
    requires Persists(rule, bound, readings)
    ensures exists o <- readings :: Breaches(rule, bound, Limit(rule, bound).value, o)
  {
    var limit := Limit(rule, bound).value;
    var from: nat :| BreachesSince(rule, bound, limit, readings, from);
    assert |Watched(rule, readings, from)| > 0;
    var i :| i in Watched(rule, readings, from);
    assert Breaches(rule, bound, limit, readings[i]) && readings[i] in readings;
  }
}
