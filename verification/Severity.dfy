/**
 Severity derived from stated criteria (`severity.ts`), and the judgement of one bound of one
 rule over a batch of readings (the inner part of `evaluateReadings`). Values, limits and
 ratios are real numbers.
 */
module Severity {
  import opened Reals
  import opened Wrappers

  datatype Category = Structural | SensorHealth | Connectivity | DataQuality

  datatype Level = Info | Low | Medium | High | Critical

  function Order(l: Level): nat {
    match l case Info => 0 case Low => 1 case Medium => 2 case High => 3 case Critical => 4
  }

  predicate IsEscalation(current: Level, next: Level) {
    Order(next) > Order(current)
  }

  datatype Inputs = Inputs(category: Category, ratio: real, consecutive: nat, required: int, suspect: bool)

  datatype Verdict = Verdict(severity: Level, confidence: real)

  /** `Number(x.toFixed(2))` for a non-negative x: the nearest hundredth. */
  function Round2(x: real): real {
    (100.0 * x + 0.5).Floor as real / 100.0
  }

  /** Exceedance as a fraction of the limit; a limit of (almost) zero counts as one. */
  function ExceedanceRatio(value: real, min: Option<real>, max: Option<real>): real {
    if max.Some? && value > max.value then (value - max.value) / Scale(max.value)
    else if min.Some? && value < min.value then (min.value - value) / Scale(min.value)
    else 0.0
  }

  function Scale(limit: real): real {
    if Abs(limit) > 0.000000001 then Abs(limit) else 1.0
  }

  /** The share of the required samples that were seen, at most all of them. */
  function Persistence(i: Inputs): real {
    Min(1.0, i.consecutive as real / (if i.required > 1 then i.required else 1) as real)
  }

  /** Confidence before the discount for suspect readings, and before clamping. */
  function RawConfidence(i: Inputs): real {
    var surplus := if i.consecutive > i.required then i.consecutive - i.required else 0;
    0.5 + 0.3 * Persistence(i) + Min(0.2, surplus as real * 0.02)
  }

  function ComputeConfidence(i: Inputs): real {
    Max(0.05, Min(0.99, Round2(if i.suspect then RawConfidence(i) - 0.25 else RawConfidence(i))))
  }

  function Downgrade(l: Level): Level {
    match l
    case Critical => High
    case High => Medium
    case Medium => Low
    case _ => Info
  }

  function BandLevel(i: Inputs): Level {
    var sustained := i.consecutive >= i.required;
    var wellSustained := i.consecutive >= i.required * 2;
    if i.ratio >= 1.0 then (if sustained then Critical else High)
    else if i.ratio >= 0.25 then (if wellSustained then Critical else if sustained then High else Medium)
    else if i.ratio >= 0.05 then (if sustained then Medium else Low)
    else (if sustained then Low else Info)
  }

  function DeriveSeverity(i: Inputs): Verdict {
    var band := BandLevel(i);
    var capped := if (i.category == SensorHealth || i.category == DataQuality) && band == Critical then High else band;
    Verdict(if i.suspect then Downgrade(capped) else capped, ComputeConfidence(i))
  }

  // ─── What the derivation guarantees ────────────────────────────────────────────────

  /** A larger exceedance or a longer run never lowers the severity, the rest being equal. */
  lemma SeverityMonotone(i: Inputs, j: Inputs)
    requires i.category == j.category && i.required == j.required && i.suspect == j.suspect
    requires i.ratio <= j.ratio && i.consecutive <= j.consecutive
    ensures Order(DeriveSeverity(i).severity) <= Order(DeriveSeverity(j).severity)
  {}

  /** Suspect readings cost one level (never below the bottom), and an instrument fault is never critical. */
  lemma SuspectAndCapped(i: Inputs)
    ensures Order(DeriveSeverity(i.(suspect := true)).severity)
            == if DeriveSeverity(i.(suspect := false)).severity == Info then 0
               else Order(DeriveSeverity(i.(suspect := false)).severity) - 1
    ensures i.category in {SensorHealth, DataQuality} ==> DeriveSeverity(i).severity != Critical
  {}

  /** How many of the three bands, from 5 %, 25 % and 100 % past the limit, an exceedance reaches. */
  function Bands(ratio: real): nat {
    (if ratio >= 0.05 then 1 else 0) + (if ratio >= 0.25 then 1 else 0) + (if ratio >= 1.0 then 1 else 0)
  }

  /**
   The level, exactly: one for each band, one more once the breach lasted as long as required, and in
   the second highest band one more for twice as long; an instrument's fault stops short of critical,
   and suspect readings cost one.
   */
  lemma LevelExactly(i: Inputs)
    ensures var level := Bands(i.ratio) + (if i.consecutive >= i.required then 1 else 0)
                         + (if Bands(i.ratio) == 2 && i.consecutive >= 2 * i.required then 1 else 0);
            var capped := if i.category in {SensorHealth, DataQuality} && level == 4 then 3 else level;
            level <= 4
            && Order(DeriveSeverity(i).severity) == if i.suspect && capped > 0 then capped - 1 else capped
  {}

  /** The exceedance in units of the limit, or of one where the limit is all but zero. */
  lemma RatioIs(value: real, limit: real)
    ensures var unit := if -0.000000001 <= limit <= 0.000000001 then 1.0 else if limit > 0.0 then limit else -limit;
            && (value >= limit ==> ExceedanceRatio(value, None, Some(limit)) * unit == value - limit)
            && (value <= limit ==> ExceedanceRatio(value, Some(limit), None) * unit == limit - value)
            && (value <= limit ==> ExceedanceRatio(value, None, Some(limit)) == 0.0)
            && (value >= limit ==> ExceedanceRatio(value, Some(limit), None) == 0.0)
  {}

  /**
   What confidence is the nearest hundredth of: a half, up to three tenths for the samples seen, up
   to two for more.
   */
  function Evidence(seen: nat, required: int, suspect: bool): real
    requires required >= 1
  {
    (if seen < required then 0.5 + 0.3 * (seen as real / required as real)
     else if seen < required + 10 then 0.8 + (seen - required) as real / 50.0
     else 1.0)
    - if suspect then 0.25 else 0.0
  }

  predicate NearestHundredth(c: real, x: real) {
    c * 100.0 == (c * 100.0).Floor as real && -0.5 <= c * 100.0 - x * 100.0 <= 0.5
  }

  lemma RoundNearest(x: real)
    ensures NearestHundredth(Round2(x), x)
  {
    var n := (100.0 * x + 0.5).Floor;
    assert Round2(x) * 100.0 == n as real;
  }

  lemma FractionOf(seen: nat, required: int)
    requires required >= 1
    ensures seen as real / required as real <= 1.0 <==> seen <= required
    ensures seen == required ==> seen as real / required as real == 1.0
  {
    assert (seen as real / required as real) * required as real == seen as real;
  }

  lemma RawIsEvidence(i: Inputs)
    requires i.required >= 1
    ensures (if i.suspect then RawConfidence(i) - 0.25 else RawConfidence(i))
            == Evidence(i.consecutive, i.required, i.suspect)
  {
    FractionOf(i.consecutive, i.required);
  }

  /** Confidence is the nearest hundredth of the evidence, and never total: 0.99 stands for certainty. */
  lemma ConfidenceExactly(i: Inputs)
    requires i.required >= 1
    ensures var x := Evidence(i.consecutive, i.required, i.suspect);
            if x < 0.985 then NearestHundredth(ComputeConfidence(i), x) else ComputeConfidence(i) == 0.99
  {
    RawIsEvidence(i);
    var x := Evidence(i.consecutive, i.required, i.suspect);
    RoundNearest(x);
    EvidenceBounds(i.consecutive, i.required, i.suspect);
    assert Round2(x) * 100.0 == (Round2(x) * 100.0).Floor as real;
  }

  lemma EvidenceBounds(seen: nat, required: int, suspect: bool)
    requires required >= 1
    ensures 0.25 <= Evidence(seen, required, suspect) <= 1.0
  {
    FractionOf(seen, required);
  }

  lemma RoundMonotone(x: real, y: real)
    requires x <= y
    ensures Round2(x) <= Round2(y)
  {
    assert (100.0 * x + 0.5).Floor <= (100.0 * y + 0.5).Floor;
  }

  lemma DivideMonotone(a: real, b: real, c: real)
    requires a <= b && c > 0.0
    ensures a / c <= b / c
  {
    assert b / c - a / c == (b - a) / c;
  }

  lemma PersistenceMonotone(i: Inputs, more: nat)
    ensures Persistence(i) <= Persistence(i.(consecutive := i.consecutive + more))
  {
    DivideMonotone(i.consecutive as real, (i.consecutive + more) as real,
                   (if i.required > 1 then i.required else 1) as real);
  }

  lemma RawMonotone(i: Inputs, more: nat)
    ensures RawConfidence(i) <= RawConfidence(i.(consecutive := i.consecutive + more))
  {
    PersistenceMonotone(i, more);
  }

  /** Confidence is never certainty, never nothing, and only grows with the length of the run. */
  lemma ConfidenceMonotone(i: Inputs, more: nat)
    ensures 0.05 <= ComputeConfidence(i) <= 0.99
    ensures ComputeConfidence(i) <= ComputeConfidence(i.(consecutive := i.consecutive + more))
    ensures ComputeConfidence(i.(suspect := true)) <= ComputeConfidence(i.(suspect := false))
  {
    var a, b := RawConfidence(i), RawConfidence(i.(consecutive := i.consecutive + more));
    RawMonotone(i, more);
    RoundMonotone(a, b);
    RoundMonotone(a - 0.25, b - 0.25);
    RoundMonotone(a - 0.25, a);
    assert RawConfidence(i.(suspect := true)) == RawConfidence(i.(suspect := false)) == a;
  }

  // ─── One bound of one rule over a batch ────────────────────────────────────────────

  datatype Bound = Lower | Upper

  /** `flagged`: the reading carries a flag that makes the number itself untrustworthy. */
  datatype Observation = Observation(sensorId: int, structureId: Option<int>, value: real, flagged: bool, ts: int)

  predicate Breaks(bound: Bound, limit: real, value: real) {
    if bound == Lower then value < limit else value > limit
  }

  function RatioOf(bound: Bound, limit: real, value: real): real {
    ExceedanceRatio(value, if bound == Lower then Some(limit) else None, if bound == Upper then Some(limit) else None)
  }

  function Breaching(batch: seq<Observation>, bound: Bound, limit: real): seq<Observation> {
    if batch == [] then []
    else
      var n := |batch| - 1;
      Breaching(batch[..n], bound, limit) + if Breaks(bound, limit, batch[n].value) then [batch[n]] else []
  }

  /** The length of the longest suffix of the batch in which every reading breaches. */
  ghost predicate BreachingSuffix(batch: seq<Observation>, bound: Bound, limit: real, n: nat) {
    && n <= |batch|
    && (forall i :: |batch| - n <= i < |batch| ==> Breaks(bound, limit, batch[i].value))
    && (n < |batch| ==> !Breaks(bound, limit, batch[|batch| - n - 1].value))
  }

  /** What a batch amounts to for one bound: raise (or fold in) this verdict, about this reading. */
  datatype Judgement = Judgement(worst: Observation, inputs: Inputs, verdict: Verdict)

  /** The worst of the breaching readings, and whether any of them is suspect. */
  method Reduce(breaching: seq<Observation>, limit: real) returns (worst: Observation, suspect: bool)
    requires breaching != []
    ensures worst == WorstOf(breaching, limit, breaching[0]) && suspect == Suspect(breaching)
  {
    worst, suspect := breaching[0], false;
    for k := 0 to |breaching|
      invariant worst == WorstOf(breaching[..k], limit, breaching[0])
      invariant suspect == Suspect(breaching[..k])
    {
      SuspectStep(breaching, k);
      assert breaching[..k + 1][..k] == breaching[..k];
      if Abs(breaching[k].value - limit) > Abs(worst.value - limit) {
        worst := breaching[k];
      }
      suspect := suspect || breaching[k].flagged;
    }
    assert breaching[..|breaching|] == breaching;
  }

  method JudgeBound(batch: seq<Observation>, category: Category, required: int, bound: Bound, limit: real)
    returns (judgement: Option<Judgement>)
    ensures judgement == Judge(batch, category, required, bound, limit)
  {
    var breaching := Breaching(batch, bound, limit);
    if breaching == [] {
      LastBreaks(batch, bound, limit);
      return None;
    }
    var consecutive := 0;
    var i := |batch| - 1;
    assert batch[..i + 1] == batch;
    while i >= 0
      invariant -1 <= i < |batch| && consecutive == |batch| - 1 - i
      invariant forall k :: i < k < |batch| ==> Breaks(bound, limit, batch[k].value)
      invariant Run(batch, bound, limit) == consecutive + Run(batch[..i + 1], bound, limit)
    {
      assert batch[..i + 1][..i] == batch[..i];
      if !Breaks(bound, limit, batch[i].value) {
        break;
      }
      consecutive := consecutive + 1;
      i := i - 1;
    }
    if consecutive == 0 {
      return None;
    }
    var worst, suspect := Reduce(breaching, limit);
    var inputs := Inputs(category, RatioOf(bound, limit, worst.value), consecutive, required, suspect);
    if consecutive < required {
      return None;
    }
    return Some(Judgement(worst, inputs, DeriveSeverity(inputs)));
  }

  function Run(batch: seq<Observation>, bound: Bound, limit: real): nat {
    if batch == [] || !Breaks(bound, limit, batch[|batch| - 1].value) then 0
    else 1 + Run(batch[..|batch| - 1], bound, limit)
  }

  /** The first of the readings farthest from the limit. */
  function WorstOf(readings: seq<Observation>, limit: real, first: Observation): Observation {
    if readings == [] then first
    else
      var n := |readings| - 1;
      var before := WorstOf(readings[..n], limit, first);
      if Abs(readings[n].value - limit) > Abs(before.value - limit) then readings[n] else before
  }

  lemma SuspectStep(readings: seq<Observation>, k: nat)
    requires k < |readings|
    ensures Suspect(readings[..k + 1]) == (Suspect(readings[..k]) || readings[k].flagged)
  {
    var before, after := readings[..k], readings[..k + 1];
    assert forall j :: 0 <= j < k ==> before[j] == after[j];
    assert after[k] == readings[k];
  }

  predicate Suspect(readings: seq<Observation>) {
    exists j :: 0 <= j < |readings| && readings[j].flagged
  }

  /** The trailing run is long enough, and not empty. */
  predicate Raises(batch: seq<Observation>, required: int, bound: Bound, limit: real) {
    Run(batch, bound, limit) > 0 && Run(batch, bound, limit) >= required && Breaching(batch, bound, limit) != []
  }

  function Judge(batch: seq<Observation>, category: Category, required: int, bound: Bound,
                 limit: real): Option<Judgement> {
    if !Raises(batch, required, bound, limit) then None
    else
      var breaching := Breaching(batch, bound, limit);
      var worst := WorstOf(breaching, limit, breaching[0]);
      var inputs :=
        Inputs(category, RatioOf(bound, limit, worst.value), Run(batch, bound, limit), required, Suspect(breaching));
      Some(Judgement(worst, inputs, DeriveSeverity(inputs)))
  }

  lemma LastBreaks(batch: seq<Observation>, bound: Bound, limit: real)
    ensures Breaching(batch, bound, limit) == [] ==> Run(batch, bound, limit) == 0
  {}

  /** The counter is the length of the longest breaching suffix. */
  lemma {:induction false} RunIsSuffix(batch: seq<Observation>, bound: Bound, limit: real)
    ensures BreachingSuffix(batch, bound, limit, Run(batch, bound, limit))
  {
    if batch != [] && Breaks(bound, limit, batch[|batch| - 1].value) {
      RunIsSuffix(batch[..|batch| - 1], bound, limit);
    }
  }

  lemma {:induction false} BreachingBreaks(batch: seq<Observation>, bound: Bound, limit: real)
    ensures var breaching := Breaching(batch, bound, limit);
            forall i :: 0 <= i < |breaching| ==> Breaks(bound, limit, breaching[i].value) && breaching[i] in batch
  {
    if batch != [] {
      var n := |batch| - 1;
      BreachingBreaks(batch[..n], bound, limit);
      assert Breaching(batch[..n], bound, limit) <= Breaching(batch, bound, limit);
      assert forall o <- batch[..n] :: o in batch;
    }
  }

  lemma {:induction false} WorstIsFarthest(readings: seq<Observation>, limit: real, first: Observation)
    ensures var worst := WorstOf(readings, limit, first);
            && (worst == first || worst in readings)
            && Abs(first.value - limit) <= Abs(worst.value - limit)
            && forall i :: 0 <= i < |readings| ==> Abs(readings[i].value - limit) <= Abs(worst.value - limit)
  {
    if readings != [] {
      WorstIsFarthest(readings[..|readings| - 1], limit, first);
    }
  }

  /** Farther from the limit is a larger exceedance. */
  lemma RatioMonotone(bound: Bound, limit: real, a: real, b: real)
    requires Breaks(bound, limit, a) && Breaks(bound, limit, b) && Abs(a - limit) <= Abs(b - limit)
    ensures RatioOf(bound, limit, a) <= RatioOf(bound, limit, b)
  {
    DivideMonotone(Abs(a - limit), Abs(b - limit), Scale(limit));
  }

  /** The severity one breaching reading would have been given, had it been the worst. */
  function LevelOf(o: Observation, j: Judgement, bound: Bound, limit: real): Level {
    DeriveSeverity(j.inputs.(ratio := RatioOf(bound, limit, o.value))).severity
  }

  lemma WorstBreaches(batch: seq<Observation>, bound: Bound, limit: real)
    requires Breaching(batch, bound, limit) != []
    ensures var breaching := Breaching(batch, bound, limit);
            var worst := WorstOf(breaching, limit, breaching[0]);
            && worst in breaching && Breaks(bound, limit, worst.value)
            && forall i ::
                 0 <= i < |breaching| ==>
                   RatioOf(bound, limit, breaching[i].value) <= RatioOf(bound, limit, worst.value)
  {
    var breaching := Breaching(batch, bound, limit);
    var worst := WorstOf(breaching, limit, breaching[0]);
    BreachingBreaks(batch, bound, limit);
    WorstIsFarthest(breaching, limit, breaching[0]);
    assert worst in breaching;
    forall i | 0 <= i < |breaching|
      ensures RatioOf(bound, limit, breaching[i].value) <= RatioOf(bound, limit, worst.value)
    {
      RatioMonotone(bound, limit, breaching[i].value, worst.value);
    }
  }

  /** Worst-then-derive is derive-then-maximum: no breaching reading deserved more, and one deserved this. */
  lemma WorstThenDerive(batch: seq<Observation>, category: Category, required: int, bound: Bound, limit: real)
    requires Judge(batch, category, required, bound, limit).Some?
    ensures var j := Judge(batch, category, required, bound, limit).value;
            var breaching := Breaching(batch, bound, limit);
            && (forall i ::
                  0 <= i < |breaching| ==> Order(LevelOf(breaching[i], j, bound, limit)) <= Order(j.verdict.severity))
            && (exists i :: 0 <= i < |breaching| && LevelOf(breaching[i], j, bound, limit) == j.verdict.severity)
  {
    var j := Judge(batch, category, required, bound, limit).value;
    var breaching := Breaching(batch, bound, limit);
    WorstBreaches(batch, bound, limit);
    var w :| 0 <= w < |breaching| && breaching[w] == j.worst;
    assert LevelOf(breaching[w], j, bound, limit) == j.verdict.severity by {
      assert j.inputs.(ratio := RatioOf(bound, limit, j.worst.value)) == j.inputs;
    }
    forall i | 0 <= i < |breaching|
      ensures Order(LevelOf(breaching[i], j, bound, limit)) <= Order(j.verdict.severity)
    {
      SeverityMonotone(j.inputs.(ratio := RatioOf(bound, limit, breaching[i].value)), j.inputs);
    }
  }

  /** One more breaching reading with no bad flag: the run, the worst ratio and the suspicion that result. */
  lemma OneMoreReading(batch: seq<Observation>, o: Observation, bound: Bound, limit: real)
    requires Breaching(batch, bound, limit) != [] && Breaks(bound, limit, o.value) && !o.flagged
    ensures var breaching, grown := Breaching(batch, bound, limit), Breaching(batch + [o], bound, limit);
            && grown == breaching + [o]
            && Run(batch + [o], bound, limit) == Run(batch, bound, limit) + 1
            && Suspect(grown) == Suspect(breaching)
            && RatioOf(bound, limit, WorstOf(breaching, limit, breaching[0]).value)
               <= RatioOf(bound, limit, WorstOf(grown, limit, grown[0]).value)
  {
    var longer := batch + [o];
    assert longer[..|batch|] == batch;
    var breaching, grown := Breaching(batch, bound, limit), Breaching(longer, bound, limit);
    assert forall i :: 0 <= i < |breaching| ==> grown[i] == breaching[i];
    assert grown[|breaching|] == o;
    WorstBreaches(batch, bound, limit);
    WorstBreaches(longer, bound, limit);
    var worst := WorstOf(breaching, limit, breaching[0]);
    var w :| 0 <= w < |breaching| && breaching[w] == worst;
    assert grown[w] == worst;
  }

  /** One more breaching reading with no bad flag never lowers the severity or the confidence. */
  lemma OneMoreNeverLowers(batch: seq<Observation>, o: Observation, category: Category, required: int, bound: Bound,
                           limit: real)
    requires Judge(batch, category, required, bound, limit).Some?
    requires Breaks(bound, limit, o.value) && !o.flagged
    ensures var before := Judge(batch, category, required, bound, limit).value.verdict;
            var after := Judge(batch + [o], category, required, bound, limit);
            after.Some? && Order(before.severity) <= Order(after.value.verdict.severity)
            && before.confidence <= after.value.verdict.confidence
  {
    OneMoreReading(batch, o, bound, limit);
    var before := Judge(batch, category, required, bound, limit).value.inputs;
    var after := Judge(batch + [o], category, required, bound, limit).value.inputs;
    SeverityMonotone(before, after);
    ConfidenceMonotone(before, 1);
    ConfidenceIgnoresRatio(before.(consecutive := before.consecutive + 1), after.ratio);
  }

  lemma ConfidenceIgnoresRatio(i: Inputs, ratio: real)
    ensures ComputeConfidence(i) == ComputeConfidence(i.(ratio := ratio))
  {}

  ghost predicate BothRaise(batch: seq<Observation>, category: Category, required: int, min: real, max: real) {
    Judge(batch, category, required, Lower, min).Some? && Judge(batch, category, required, Upper, max).Some?
  }

  lemma BatchForBoth(category: Category, required: int, min: real, max: real) returns (batch: seq<Observation>)
    requires max < min
    ensures BothRaise(batch, category, required, min, max)
  {
    var o := Observation(0, None, (min + max) / 2.0, false, 0);
    var n: nat := if required > 1 then required else 1;
    batch := seq(n, _ => o);
    forall i | 0 <= i < n ensures Breaks(Lower, min, batch[i].value) && Breaks(Upper, max, batch[i].value) {
      assert batch[i] == o;
    }
    AllRaise(batch, required, Lower, min);
    AllRaise(batch, required, Upper, max);
  }

  lemma AllRaise(batch: seq<Observation>, required: int, bound: Bound, limit: real)
    requires batch != [] && |batch| >= required
    requires forall i :: 0 <= i < |batch| ==> Breaks(bound, limit, batch[i].value)
    ensures Raises(batch, required, bound, limit)
  {
    AllBreach(batch, bound, limit);
  }

  /**
   With both bounds set, a batch can raise for both at once if and only if the lower limit is
   above the upper one: the last reading would have to lie below the one and above the other.
   */
  lemma AtMostOneBound(category: Category, required: int, min: real, max: real)
    ensures (exists batch :: BothRaise(batch, category, required, min, max)) <==> max < min
  {
    if max < min {
      var batch := BatchForBoth(category, required, min, max);
    }
  }

  lemma {:induction false} AllBreach(batch: seq<Observation>, bound: Bound, limit: real)
    requires forall i :: 0 <= i < |batch| ==> Breaks(bound, limit, batch[i].value)
    ensures Run(batch, bound, limit) == |batch| && Breaching(batch, bound, limit) == batch
  {
    if batch != [] {
      AllBreach(batch[..|batch| - 1], bound, limit);
    }
  }

  // ─── What flags cost ───────────────────────────────────────────────────────────────

  function Clear(o: Observation): Observation {
    o.(flagged := false)
  }

  /** The same readings without a flag. */
  function Cleared(batch: seq<Observation>): (cleared: seq<Observation>)
    ensures |cleared| == |batch|
  {
    seq(|batch|, i requires 0 <= i < |batch| => Clear(batch[i]))
  }

  lemma ClearedMore(batch: seq<Observation>, n: nat)
    requires |batch| == n + 1
    ensures Cleared(batch)[..n] == Cleared(batch[..n]) && Cleared(batch)[n] == Clear(batch[n])
    ensures Cleared(batch) == Cleared(batch[..n]) + [Clear(batch[n])]
  {}

  lemma ClearedConcat(a: seq<Observation>, b: seq<Observation>)
    ensures Cleared(a + b) == Cleared(a) + Cleared(b)
  {}

  lemma {:induction false} ClearedBatch(batch: seq<Observation>, bound: Bound, limit: real)
    ensures Breaching(Cleared(batch), bound, limit) == Cleared(Breaching(batch, bound, limit))
    ensures Run(Cleared(batch), bound, limit) == Run(batch, bound, limit)
  {
    if batch != [] {
      var n := |batch| - 1;
      ClearedMore(batch, n);
      ClearedBatch(batch[..n], bound, limit);
      ClearedConcat(Breaching(batch[..n], bound, limit),
                    if Breaks(bound, limit, batch[n].value) then [batch[n]] else []);
    }
  }

  lemma {:induction false} ClearedWorst(readings: seq<Observation>, limit: real, first: Observation)
    ensures WorstOf(Cleared(readings), limit, Clear(first)) == Clear(WorstOf(readings, limit, first))
  {
    if readings != [] {
      ClearedMore(readings, |readings| - 1);
      ClearedWorst(readings[..|readings| - 1], limit, first);
    }
  }

  /**
   Flags raise and suppress nothing, and change neither the run nor which reading is the worst. A
   flag on any breaching reading costs the alert exactly one level, unless it was at the bottom;
   flags on other readings cost nothing.
   */
  lemma FlagsCostOneLevel(batch: seq<Observation>, category: Category, required: int, bound: Bound, limit: real)
    ensures var judged := Judge(batch, category, required, bound, limit);
            var clear := Judge(Cleared(batch), category, required, bound, limit);
            && (judged.Some? <==> clear.Some?)
            && (judged.Some? ==>
                  && clear.value.worst == Clear(judged.value.worst)
                  && clear.value.inputs == judged.value.inputs.(suspect := false)
                  && Order(judged.value.verdict.severity)
                     == if Suspect(Breaching(batch, bound, limit)) && clear.value.verdict.severity != Info
                        then Order(clear.value.verdict.severity) - 1
                        else Order(clear.value.verdict.severity))
  {
    ClearedBatch(batch, bound, limit);
    if Raises(batch, required, bound, limit) {
      var breaching := Breaching(batch, bound, limit);
      ClearedWorst(breaching, limit, breaching[0]);
      assert !Suspect(Cleared(breaching));
      var j := Judge(batch, category, required, bound, limit).value;
      SuspectAndCapped(j.inputs);
      assert j.inputs == j.inputs.(suspect := Suspect(breaching));
    }
  }
}
