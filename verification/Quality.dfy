/**
 Data quality at ingest: `assessQuality` and the loop of `ingestMeasurements` that feeds it a
 five-value window per sensor, updated in place. The specification has no window: it looks at
 the whole history of the sensor. Values are real numbers or not finite; instants are integer
 milliseconds.
 */
module Quality {
  import opened Wrappers

  datatype Num = Finite(x: real) | NotFinite

  datatype Flag =
    | NOT_FINITE | OUT_OF_RANGE | SATURATED | FLATLINE | OUT_OF_ORDER | FUTURE_TIMESTAMP
    | DELAYED_DELIVERY | SEQUENCE_GAP | UNCALIBRATED | STALE_CALIBRATION | OTHER(name: string)

  const FLATLINE_SAMPLE_COUNT := 5
  const MAX_CLOCK_SKEW_MS := 120 * 1000
  const DELAYED_DELIVERY_MS := 15 * 60 * 1000

  datatype Reading = Reading(sensorId: int, ts: int, rawValue: Num, value: Option<Num>, sequence: Option<int>,
                             extraFlags: seq<Flag>)

  /** What is loaded once per sensor and batch and does not change during it. */
  datatype Sensor = Sensor(rangeMin: Option<real>, rangeMax: Option<real>, calibrationValue: real,
                           hasCalibration: bool, validUntil: Option<int>, latestStoredTs: Option<int>)

  /** What the batch does change: the window, newest first, and the last sequence number. */
  datatype Recent = Recent(values: seq<real>, sequence: Option<int>)

  function Calibrated(r: Reading, s: Sensor): Num {
    match r.value
    case Some(v) => v
    case None => match r.rawValue case Finite(x) => Finite(s.calibrationValue * x) case NotFinite => NotFinite
  }

  predicate AllEqual(values: seq<real>, x: real) {
    forall i :: 0 <= i < |values| ==> values[i] == x
  }

  function When(condition: bool, f: Flag): seq<Flag> {
    if condition then [f] else []
  }

  /** Findings on the number itself. */
  function ValueFlags(x: real, s: Sensor, recent: Recent): seq<Flag> {
    When((s.rangeMin.Some? && x < s.rangeMin.value) || (s.rangeMax.Some? && x > s.rangeMax.value), OUT_OF_RANGE)
    + When(s.rangeMax == Some(x) || s.rangeMin == Some(x), SATURATED)
    + When(|recent.values| >= FLATLINE_SAMPLE_COUNT && AllEqual(recent.values[..FLATLINE_SAMPLE_COUNT], x), FLATLINE)
  }

  /** Findings on when it came and what it can be traced to. */
  function DeliveryFlags(r: Reading, s: Sensor, recent: Recent, receivedAt: int): seq<Flag> {
    When(s.latestStoredTs.Some? && r.ts < s.latestStoredTs.value, OUT_OF_ORDER)
    + When(r.ts - receivedAt > MAX_CLOCK_SKEW_MS, FUTURE_TIMESTAMP)
    + When(receivedAt - r.ts > DELAYED_DELIVERY_MS, DELAYED_DELIVERY)
    + When(r.sequence.Some? && recent.sequence.Some? && r.sequence.value > recent.sequence.value + 1, SEQUENCE_GAP)
    + When(!s.hasCalibration, UNCALIBRATED)
    + When(s.hasCalibration && s.validUntil.Some? && s.validUntil.value < r.ts, STALE_CALIBRATION)
  }

  /** The findings on one reading, in the order they are made. */
  function AssessQuality(r: Reading, s: Sensor, recent: Recent, receivedAt: int): seq<Flag> {
    match Calibrated(r, s)
    case NotFinite => [NOT_FINITE]
    case Finite(x) => ValueFlags(x, s, recent) + DeliveryFlags(r, s, recent, receivedAt)
  }

  /** `[...new Set(flags)]`: first occurrences, in order. */
  function Dedup(flags: seq<Flag>): seq<Flag> {
    if flags == [] then []
    else
      var n := |flags| - 1;
      Dedup(flags[..n]) + if flags[n] in flags[..n] then [] else [flags[n]]
  }

  /** What was assessed here, and what the sender established itself. */
  function Findings(r: Reading, s: Sensor, recent: Recent, receivedAt: int): seq<Flag> {
    Dedup(AssessQuality(r, s, recent, receivedAt) + r.extraFlags)
  }

  lemma FindingsDistinct(r: Reading, s: Sensor, recent: Recent, receivedAt: int)
    ensures Distinct(Findings(r, s, recent, receivedAt))
  {
    DedupDistinct(AssessQuality(r, s, recent, receivedAt) + r.extraFlags);
  }

  predicate IsAnalysisGrade(flags: seq<Flag>) {
    forall f <- flags :: f !in {NOT_FINITE, OUT_OF_RANGE, FLATLINE}
  }

  // ─── Specification: the whole history of a sensor ──────────────────────────────────

  /** The readings of one sensor, in order. */
  function Only(readings: seq<Reading>, sensorId: int): seq<Reading> {
    if readings == [] then []
    else
      var n := |readings| - 1;
      Only(readings[..n], sensorId) + if readings[n].sensorId == sensorId then [readings[n]] else []
  }

  /** Their finite values, newest first. */
  function NewestFirst(readings: seq<Reading>, s: Sensor): seq<real> {
    if readings == [] then []
    else
      var n := |readings| - 1;
      (match Calibrated(readings[n], s) case Finite(x) => [x] case NotFinite => []) + NewestFirst(readings[..n], s)
  }

  function LastSequence(readings: seq<Reading>, initial: Option<int>): Option<int> {
    if readings == [] then initial
    else
      var n := |readings| - 1;
      if readings[n].sequence.Some? then readings[n].sequence else LastSequence(readings[..n], initial)
  }

  function FirstFive(values: seq<real>): seq<real> {
    if |values| > 5 then values[..5] else values
  }

  /** What an unbounded memory of the sensor's earlier readings would show. */
  function Remembered(earlier: seq<Reading>, s: Sensor, initial: Recent): Recent {
    Recent(FirstFive(NewestFirst(earlier, s) + initial.values), LastSequence(earlier, initial.sequence))
  }

  /** The flags a reading deserves, given the earlier readings of its own sensor. */
  function FlagsAfter(earlier: seq<Reading>, r: Reading, s: Sensor, initial: Recent, receivedAt: int): seq<Flag> {
    Findings(r, s, Remembered(earlier, s, initial), receivedAt)
  }

  predicate Loaded(readings: seq<Reading>, sensors: map<int, Sensor>, initial: map<int, Recent>) {
    && (forall i :: 0 <= i < |readings| ==> readings[i].sensorId in sensors && readings[i].sensorId in initial)
    && (forall k <- initial :: |initial[k].values| <= 5)
  }

  /** The flags of the `i`-th reading of a batch, as if its sensor were alone. */
  function FlagsOf(readings: seq<Reading>, i: nat, sensors: map<int, Sensor>, initial: map<int, Recent>,
                   receivedAt: int): seq<Flag>
    requires i < |readings| && Loaded(readings, sensors, initial)
  {
    var id := readings[i].sensorId;
    FlagsAfter(Only(readings[..i], id), readings[i], sensors[id], initial[id], receivedAt)
  }

  function CountWith(rows: seq<seq<Flag>>, f: Flag): nat {
    if rows == [] then 0
    else CountWith(rows[..|rows| - 1], f) + if f in rows[|rows| - 1] then 1 else 0
  }

  function CountFlagged(rows: seq<seq<Flag>>): nat {
    if rows == [] then 0
    else CountFlagged(rows[..|rows| - 1]) + if rows[|rows| - 1] != [] then 1 else 0
  }

  // ─── The loop ──────────────────────────────────────────────────────────────────────

  /** One value pushed in front of a window already cut to five keeps it the first five of everything. */
  lemma Push(window: seq<real>, all: seq<real>, x: real)
    requires window == FirstFive(all)
    ensures FirstFive([x] + window) == FirstFive([x] + all)
  {
    if |all| > 5 {
      assert ([x] + window)[..5] == ([x] + all)[..5];
    }
  }

  lemma RememberOne(earlier: seq<Reading>, r: Reading, s: Sensor, initial: Recent)
    ensures var before, after := Remembered(earlier, s, initial), Remembered(earlier + [r], s, initial);
            && after.values
               == (match Calibrated(r, s)
                   case Finite(x) => FirstFive([x] + before.values)
                   case NotFinite => before.values)
            && after.sequence == if r.sequence.Some? then r.sequence else before.sequence
  {
    assert (earlier + [r])[..|earlier|] == earlier;
    var all := NewestFirst(earlier, s) + initial.values;
    match Calibrated(r, s)
    case Finite(x) =>
      Push(FirstFive(all), all, x);
      assert NewestFirst(earlier + [r], s) + initial.values == [x] + all;
    case NotFinite =>
      assert [] + NewestFirst(earlier, s) == NewestFirst(earlier, s);
  }

  /** What one reading does to its sensor's window and sequence number. */
  predicate Pushed(before: Recent, value: Num, sequence: Option<int>, after: Recent) {
    && after.values == (match value case Finite(x) => FirstFive([x] + before.values) case NotFinite => before.values)
    && after.sequence == if sequence.Some? then sequence else before.sequence
  }

  /** After the first `n` readings every sensor's state is what its own history says. */
  ghost predicate Tracks(readings: seq<Reading>, n: nat, sensors: map<int, Sensor>, initial: map<int, Recent>,
                         recent: map<int, Recent>)
    requires n <= |readings|
  {
    && recent.Keys == initial.Keys
    && forall id <- initial :: id in sensors ==> TracksId(readings, n, id, sensors[id], initial[id], recent[id])
  }

  ghost predicate Tallies(counts: map<Flag, nat>, rows: seq<seq<Flag>>) {
    forall f :: (if f in counts then counts[f] else 0) == CountWith(rows, f)
  }

  lemma TracksNothing(readings: seq<Reading>, sensors: map<int, Sensor>, initial: map<int, Recent>)
    requires Loaded(readings, sensors, initial)
    ensures Tracks(readings, 0, sensors, initial, initial)
  {
    forall id | id in initial && id in sensors
      ensures TracksId(readings, 0, id, sensors[id], initial[id], initial[id])
    {
      assert readings[..0] == [];
      assert [] + initial[id].values == initial[id].values;
    }
  }

  lemma WindowFits(readings: seq<Reading>, n: nat, sensors: map<int, Sensor>, initial: map<int, Recent>,
                   recent: map<int, Recent>, id: int)
    requires n <= |readings| && Tracks(readings, n, sensors, initial, recent) && id in initial && id in sensors
    ensures id in recent && |recent[id].values| <= 5 && TracksId(readings, n, id, sensors[id], initial[id], recent[id])
  {}

  lemma OnlyMore(readings: seq<Reading>, n: nat, id: int)
    requires n < |readings|
    ensures Only(readings[..n + 1], id) == Only(readings[..n], id) + if readings[n].sensorId == id then [readings[n]]
            else []
  {
    assert readings[..n + 1][..n] == readings[..n];
  }

  ghost predicate TracksId(readings: seq<Reading>, n: nat, id: int, s: Sensor, initial: Recent, recent: Recent)
    requires n <= |readings|
  {
    recent == Remembered(Only(readings[..n], id), s, initial)
  }

  lemma TracksSame(readings: seq<Reading>, n: nat, id: int, s: Sensor, initial: Recent, recent: Recent)
    requires n < |readings| && readings[n].sensorId != id && TracksId(readings, n, id, s, initial, recent)
    ensures TracksId(readings, n + 1, id, s, initial, recent)
  {
    OnlyMore(readings, n, id);
    assert Only(readings[..n], id) + [] == Only(readings[..n], id);
  }

  lemma TracksNew(readings: seq<Reading>, n: nat, s: Sensor, initial: Recent, recent: Recent, now: Recent)
    requires n < |readings| && TracksId(readings, n, readings[n].sensorId, s, initial, recent)
    requires Pushed(recent, Calibrated(readings[n], s), readings[n].sequence, now)
    ensures TracksId(readings, n + 1, readings[n].sensorId, s, initial, now)
  {
    var id := readings[n].sensorId;
    OnlyMore(readings, n, id);
    RememberOne(Only(readings[..n], id), readings[n], s, initial);
  }

  lemma TracksOne(readings: seq<Reading>, n: nat, sensors: map<int, Sensor>, initial: map<int, Recent>,
                  recent: map<int, Recent>, now: Recent)
    requires n < |readings| && Loaded(readings, sensors, initial) && Tracks(readings, n, sensors, initial, recent)
    requires Pushed(recent[readings[n].sensorId], Calibrated(readings[n], sensors[readings[n].sensorId]),
                    readings[n].sequence, now)
    ensures Tracks(readings, n + 1, sensors, initial, recent[readings[n].sensorId := now])
  {
    var own := readings[n].sensorId;
    forall id | id in initial && id in sensors
      ensures TracksId(readings, n + 1, id, sensors[id], initial[id], recent[own := now][id])
    {
      assert TracksId(readings, n, id, sensors[id], initial[id], recent[id]);
      if id == own {
        TracksNew(readings, n, sensors[id], initial[id], recent[id], now);
      } else {
        TracksSame(readings, n, id, sensors[id], initial[id], recent[id]);
      }
    }
  }

  /** Every row so far holds what its reading's own history calls for. */
  ghost predicate RowsTrue(readings: seq<Reading>, rows: seq<seq<Flag>>, sensors: map<int, Sensor>,
                           initial: map<int, Recent>, receivedAt: int)
    requires Loaded(readings, sensors, initial)
  {
    |rows| <= |readings| && forall k :: 0 <= k < |rows| ==> RowTrue(readings, rows[k], k, sensors, initial, receivedAt)
  }

  ghost predicate RowTrue(readings: seq<Reading>, row: seq<Flag>, k: nat, sensors: map<int, Sensor>,
                          initial: map<int, Recent>, receivedAt: int)
    requires Loaded(readings, sensors, initial) && k < |readings|
  {
    row == FlagsOf(readings, k, sensors, initial, receivedAt)
  }

  lemma RowsOne(readings: seq<Reading>, rows: seq<seq<Flag>>, flags: seq<Flag>, sensors: map<int, Sensor>,
                initial: map<int, Recent>, receivedAt: int)
    requires Loaded(readings, sensors, initial) && |rows| < |readings|
    requires RowsTrue(readings, rows, sensors, initial, receivedAt)
    requires RowTrue(readings, flags, |rows|, sensors, initial, receivedAt)
    ensures RowsTrue(readings, rows + [flags], sensors, initial, receivedAt)
  {
    forall k | 0 <= k < |rows + [flags]|
      ensures RowTrue(readings, (rows + [flags])[k], k, sensors, initial, receivedAt)
    {
      SnocAt(rows, flags, k);
    }
  }

  lemma SnocAt<T>(xs: seq<T>, x: T, k: nat)
    requires k <= |xs|
    ensures (xs + [x])[k] == if k < |xs| then xs[k] else x
  {}

  lemma FlaggedOne(rows: seq<seq<Flag>>, flags: seq<Flag>)
    ensures CountFlagged(rows + [flags]) == CountFlagged(rows) + if flags != [] then 1 else 0
  {
    assert (rows + [flags])[..|rows|] == rows;
  }

  method AssessBatch(readings: seq<Reading>, sensors: map<int, Sensor>, initial: map<int, Recent>, receivedAt: int)
    returns (rows: seq<seq<Flag>>, recent: map<int, Recent>, flagged: nat, flagCounts: map<Flag, nat>)
    requires Loaded(readings, sensors, initial)
    ensures |rows| == |readings| && RowsTrue(readings, rows, sensors, initial, receivedAt)
    ensures Tracks(readings, |readings|, sensors, initial, recent)
    ensures flagged == CountFlagged(rows) && Tallies(flagCounts, rows)
  {
    rows, recent, flagged, flagCounts := [], initial, 0, map[];
    TracksNothing(readings, sensors, initial);
    for i := 0 to |readings|
      invariant |rows| == i && RowsTrue(readings, rows, sensors, initial, receivedAt)
      invariant Tracks(readings, i, sensors, initial, recent)
      invariant flagged == CountFlagged(rows) && Tallies(flagCounts, rows)
    {
      var r := readings[i];
      WindowFits(readings, i, sensors, initial, recent, r.sensorId);
      var s, now := sensors[r.sensorId], recent[r.sensorId];
      var flags := Findings(r, s, now, receivedAt);
      FindingsDistinct(r, s, now, receivedAt);
      assert now == Remembered(Only(readings[..i], r.sensorId), s, initial[r.sensorId]);
      flagged, flagCounts := CountUp(flags, flagged, flagCounts, rows);
      RowsOne(readings, rows, flags, sensors, initial, receivedAt);
      rows := rows + [flags];
      now := Remember(now, Calibrated(r, s), r.sequence);
      TracksOne(readings, i, sensors, initial, recent, now);
      recent := recent[r.sensorId := now];
    }
  }

  /** The window's in-place update: push in front, cut to five; keep the last sequence number seen. */
  method Remember(before: Recent, value: Num, sequence: Option<int>) returns (after: Recent)
    requires |before.values| <= 5
    ensures Pushed(before, value, sequence, after)
  {
    var values := before.values;
    if value.Finite? {
      values := [value.x] + values;
    }
    values := values[..if |values| < 5 then |values| else 5];
    after := before.(values := values);
    if sequence.Some? {
      after := after.(sequence := sequence);
    }
  }

  ghost predicate Distinct(flags: seq<Flag>) {
    forall j, k :: 0 <= j < k < |flags| ==> flags[j] != flags[k]
  }

  lemma {:induction false} DedupDistinct(flags: seq<Flag>)
    ensures Distinct(Dedup(flags))
    ensures forall f :: f in Dedup(flags) <==> f in flags
  {
    if flags != [] {
      var n := |flags| - 1;
      DedupDistinct(flags[..n]);
      assert flags == flags[..n] + [flags[n]];
    }
  }

  /** A row counts once if it has any flag, and once for each flag it has. */
  method CountUp(flags: seq<Flag>, flagged: nat, counts: map<Flag, nat>, ghost rows: seq<seq<Flag>>)
    returns (flagged': nat, after: map<Flag, nat>)
    requires Distinct(flags) && flagged == CountFlagged(rows) && Tallies(counts, rows)
    ensures flagged' == CountFlagged(rows + [flags]) && Tallies(after, rows + [flags])
  {
    flagged' := flagged;
    if |flags| > 0 {
      flagged' := flagged' + 1;
    }
    FlaggedOne(rows, flags);
    after := counts;
    for k := 0 to |flags|
      invariant Tallies(after, rows + [flags[..k]])
    {
      ghost var before := rows + [flags[..k]];
      ghost var longer := rows + [flags[..k + 1]];
      assert before[..|rows|] == rows && longer[..|rows|] == rows;
      assert flags[k] !in flags[..k];
      var f := flags[k];
      after := after[f := (if f in after then after[f] else 0) + 1];
    }
    assert flags[..|flags|] == flags;
  }

  // ─── What the flags mean ───────────────────────────────────────────────────────────

  /** What is stored of a sensor from earlier batches; a reading that was not finite is a null. */
  datatype Stored = Stored(ts: int, value: Option<real>, sequence: Option<int>)

  function Values(rows: seq<Stored>): seq<real> {
    if rows == [] then [] else (if rows[0].value.Some? then [rows[0].value.value] else []) + Values(rows[1..])
  }

  function LatestSequence(rows: seq<Stored>): Option<int> {
    if rows == [] || rows[0].sequence.Some? then (if rows == [] then None else rows[0].sequence)
      else LatestSequence(rows[1..])
  }

  function LatestFive(stored: seq<Stored>): seq<Stored> {
    if |stored| > 5 then stored[..5] else stored
  }

  /** Loading the window: the five latest rows by timestamp, and of these the ones with a number. */
  function LoadRecent(stored: seq<Stored>): (recent: Recent)
    ensures |recent.values| <= 5
  {
    FewerValues(LatestFive(stored));
    Recent(Values(LatestFive(stored)), LatestSequence(stored))
  }

  lemma {:induction false} FewerValues(rows: seq<Stored>)
    ensures |Values(rows)| <= |rows|
  {
    if rows != [] {
      FewerValues(rows[1..]);
    }
  }

  lemma Regroup<T>(a: seq<T>, b: seq<T>, c: seq<T>)
    ensures a + (b + c) == a + b + c
  {}

  lemma {:induction false} ValuesConcat(a: seq<Stored>, b: seq<Stored>)
    ensures Values(a + b) == Values(a) + Values(b)
  {
    if a == [] {
      assert a + b == b;
    } else {
      assert (a + b)[0] == a[0] && (a + b)[1..] == a[1..] + b;
      ValuesConcat(a[1..], b);
      Regroup(if a[0].value.Some? then [a[0].value.value] else [], Values(a[1..]), Values(b));
    }
  }

  predicate FiveEqual(values: seq<real>, x: real) {
    |values| >= 5 && AllEqual(values[..5], x)
  }

  /**
   For any loaded window: a reading carries FLATLINE exactly when its sender said so, or five values
   of batch and window, newest first, all equal it.
   */
  lemma FlatlineOfWindow(earlier: seq<Reading>, r: Reading, s: Sensor, initial: Recent, receivedAt: int)
    ensures FLATLINE in FlagsAfter(earlier, r, s, initial, receivedAt) <==>
              || FLATLINE in r.extraFlags
              || (Calibrated(r, s).Finite? && FiveEqual(NewestFirst(earlier, s) + initial.values, Calibrated(r, s).x))
  {
    var recent := Remembered(earlier, s, initial);
    DedupDistinct(AssessQuality(r, s, recent, receivedAt) + r.extraFlags);
    FlatlineAssessed(r, s, recent, receivedAt);
    var before := NewestFirst(earlier, s) + initial.values;
    assert recent.values == FirstFive(before);
    assert |before| >= 5 ==> recent.values[..5] == before[..5];
  }

  /** Windows that agree as far as the shorter one goes tell the same, if the shorter one has five values. */
  lemma FiveOfPrefix(recent: seq<real>, window: seq<real>, older: seq<real>, x: real)
    ensures FiveEqual(recent + window, x) <==> FiveEqual(recent + (window + older), x) && |recent| + |window| >= 5
  {
    var a, b := recent + window, recent + (window + older);
    assert b == a + older;
    if |a| >= 5 {
      assert a[..5] == b[..5];
    }
  }

  /**
   Over batches: a reading carries FLATLINE exactly when its sender said so, or when the five finite
   values of the sensor before this one, however old, all equal it, and five of them come from this
   batch and the five latest stored rows. A null among those rows hides a flat line until the batch
   itself supplies enough values.
   */
  lemma FlatlineExactly(stored: seq<Stored>, earlier: seq<Reading>, r: Reading, s: Sensor, receivedAt: int)
    ensures FLATLINE in FlagsAfter(earlier, r, s, LoadRecent(stored), receivedAt) <==>
              || FLATLINE in r.extraFlags
              || (&& Calibrated(r, s).Finite?
                  && FiveEqual(NewestFirst(earlier, s) + Values(stored), Calibrated(r, s).x)
                  && |NewestFirst(earlier, s)| + |Values(LatestFive(stored))| >= 5)
  {
    FlatlineOfWindow(earlier, r, s, LoadRecent(stored), receivedAt);
    if Calibrated(r, s).Finite? {
      var latest, older := LatestFive(stored), stored[|LatestFive(stored)|..];
      assert stored == latest + older;
      ValuesConcat(latest, older);
      FiveOfPrefix(NewestFirst(earlier, s), Values(latest), Values(older), Calibrated(r, s).x);
    }
  }

  lemma {:induction false} AllGiven(rows: seq<Stored>, x: real)
    requires forall i :: 0 <= i < |rows| ==> rows[i].value == Some(x)
    ensures |Values(rows)| == |rows| && AllEqual(Values(rows), x)
  {
    if rows != [] {
      AllGiven(rows[1..], x);
    }
  }

  lemma NullFirst(rows: seq<Stored>)
    requires rows != [] && rows[0].value == None
    ensures Values(rows) == Values(rows[1..])
  {
    assert [] + Values(rows[1..]) == Values(rows[1..]);
  }

  /** A sensor stuck for five stored values, whose latest stored row is a null: the next equal value is not flagged. */
  lemma NullHidesFlatline(rows: seq<Stored>, r: Reading, s: Sensor, x: real, receivedAt: int)
    requires |rows| == 6 && rows[0].value == None && forall i :: 1 <= i < 6 ==> rows[i].value == Some(x)
    requires Calibrated(r, s) == Finite(x) && FLATLINE !in r.extraFlags
    ensures FiveEqual(Values(rows), x) && FLATLINE !in FlagsAfter([], r, s, LoadRecent(rows), receivedAt)
  {
    AllGiven(rows[1..], x);
    NullFirst(rows);
    var latest := LatestFive(rows);
    NullFirst(latest);
    AllGiven(latest[1..], x);
    FlatlineExactly(rows, [], r, s, receivedAt);
  }

  lemma FlatlineAssessed(r: Reading, s: Sensor, recent: Recent, receivedAt: int)
    ensures FLATLINE in AssessQuality(r, s, recent, receivedAt) <==>
              Calibrated(r, s).Finite? && |recent.values| >= 5 && AllEqual(recent.values[..5], Calibrated(r, s).x)
  {
    if Calibrated(r, s).Finite? {
      FlatlineValue(Calibrated(r, s).x, s, recent);
      FlatlineDelivery(r, s, recent, receivedAt);
    }
  }

  lemma FlatlineValue(x: real, s: Sensor, recent: Recent)
    ensures FLATLINE in ValueFlags(x, s, recent) <==> |recent.values| >= 5 && AllEqual(recent.values[..5], x)
  {
    assert FLATLINE in [FLATLINE];
  }

  lemma FlatlineDelivery(r: Reading, s: Sensor, recent: Recent, receivedAt: int)
    ensures FLATLINE !in DeliveryFlags(r, s, recent, receivedAt)
  {}

  lemma {:induction false} GradeOfDedup(flags: seq<Flag>)
    ensures IsAnalysisGrade(Dedup(flags)) <==> IsAnalysisGrade(flags)
  {
    DedupDistinct(flags);
  }

  /** The number a reading is assessed by: the sender's own, or else the raw one calibrated. */
  predicate Reads(r: Reading, s: Sensor, x: real) {
    r.value == Some(Finite(x)) || (r.value == None && r.rawValue.Finite? && x == r.rawValue.x * s.calibrationValue)
  }

  /** The latest sequence number seen before: in this batch, or else among the stored rows, newest first. */
  ghost predicate LastSeen(stored: seq<Stored>, earlier: seq<Reading>, q: int) {
    || (exists k :: 0 <= k < |earlier| && earlier[k].sequence == Some(q) && NoneAfter(earlier, k))
    || (NoneAfter(earlier, -1) && exists k ::
                                    0 <= k < |stored| && stored[k].sequence == Some(q) && NoneNewer(stored, k))
  }

  predicate NoneAfter(earlier: seq<Reading>, k: int)
    requires -1 <= k
  {
    forall l :: k < l < |earlier| ==> earlier[l].sequence == None
  }

  predicate NoneNewer(stored: seq<Stored>, k: nat)
    requires k <= |stored|
  {
    forall l :: 0 <= l < k ==> stored[l].sequence == None
  }

  lemma {:induction false} SequenceSeen(earlier: seq<Reading>, initial: Option<int>)
    ensures NoneAfter(earlier, -1) ==> LastSequence(earlier, initial) == initial
    ensures !NoneAfter(earlier, -1) ==>
              exists k :: 0 <= k < |earlier| && NoneAfter(earlier, k) && earlier[k].sequence.Some?
                          && LastSequence(earlier, initial) == earlier[k].sequence
  {
    if earlier != [] {
      var n := |earlier| - 1;
      var shorter := earlier[..n];
      SequenceSeen(shorter, initial);
      if earlier[n].sequence.Some? {
        assert NoneAfter(earlier, n);
      } else if !NoneAfter(shorter, -1) {
        var k :| 0 <= k < n && NoneAfter(shorter, k) && shorter[k].sequence.Some?
                 && LastSequence(shorter, initial) == shorter[k].sequence;
        NoneAfterMore(earlier, n, k);
        assert earlier[k] == shorter[k];
      } else {
        NoneAfterMore(earlier, n, -1);
      }
    }
  }

  lemma NoneAfterMore(earlier: seq<Reading>, n: nat, k: int)
    requires |earlier| == n + 1 && earlier[n].sequence == None && -1 <= k && NoneAfter(earlier[..n], k)
    ensures NoneAfter(earlier, k)
  {
    forall l | k < l < |earlier| ensures earlier[l].sequence == None {
      assert l < n ==> earlier[..n][l] == earlier[l];
    }
  }

  lemma {:induction false} SequenceStored(stored: seq<Stored>)
    ensures match LatestSequence(stored)
            case None => NoneNewer(stored, |stored|)
            case Some(q) => exists k :: 0 <= k < |stored| && stored[k].sequence == Some(q) && NoneNewer(stored, k)
  {
    if stored != [] && stored[0].sequence.None? {
      SequenceStored(stored[1..]);
      var latest := LatestSequence(stored[1..]);
      if latest.Some? {
        var k :| 0 <= k < |stored[1..]| && stored[1..][k].sequence == latest && NoneNewer(stored[1..], k);
        NewerMore(stored, k);
        assert stored[k + 1].sequence == latest;
      } else {
        NewerMore(stored, |stored| - 1);
      }
    } else if stored != [] {
      assert NoneNewer(stored, 0);
    }
  }

  lemma NewerMore(stored: seq<Stored>, k: nat)
    requires stored != [] && stored[0].sequence == None && k <= |stored| - 1 && NoneNewer(stored[1..], k)
    ensures NoneNewer(stored, k + 1)
  {
    forall l | 0 <= l < k + 1 ensures stored[l].sequence == None {
      assert l > 0 ==> stored[1..][l - 1] == stored[l];
    }
  }

  /** What the window holds as the last sequence number is the latest seen, if any was. */
  lemma LastSeenIs(stored: seq<Stored>, earlier: seq<Reading>, q: int)
    ensures LastSequence(earlier, LatestSequence(stored)) == Some(q) <==> LastSeen(stored, earlier, q)
  {
    SequenceSeen(earlier, LatestSequence(stored));
    SequenceStored(stored);
    if !NoneAfter(earlier, -1) {
      var k :| 0 <= k < |earlier| && NoneAfter(earlier, k) && earlier[k].sequence.Some?
               && LastSequence(earlier, LatestSequence(stored)) == earlier[k].sequence;
      forall l | 0 <= l < |earlier| && earlier[l].sequence.Some? && NoneAfter(earlier, l) ensures l == k {
      }
    }
  }

  /** Whether the reading jumped past the next sequence number. */
  ghost predicate Jumps(stored: seq<Stored>, earlier: seq<Reading>, r: Reading) {
    r.sequence.Some? && exists q :: LastSeen(stored, earlier, q) && r.sequence.value > q + 1
  }

  /** What each flag stands for, in terms of the reading and of what came before it. */
  ghost predicate Deserved(f: Flag, x: real, stored: seq<Stored>, earlier: seq<Reading>, r: Reading, s: Sensor,
                           receivedAt: int) {
    match f
    case NOT_FINITE => false
    case OUT_OF_RANGE => (s.rangeMin.Some? && x < s.rangeMin.value) || (s.rangeMax.Some? && s.rangeMax.value < x)
    case SATURATED => Some(x) in {s.rangeMin, s.rangeMax}
    case FLATLINE => FiveEqual(NewestFirst(earlier, s) + Values(LatestFive(stored)), x)
    case OUT_OF_ORDER => s.latestStoredTs.Some? && s.latestStoredTs.value > r.ts
    case FUTURE_TIMESTAMP => r.ts > receivedAt + 120000
    case DELAYED_DELIVERY => receivedAt > r.ts + 900000
    case SEQUENCE_GAP => Jumps(stored, earlier, r)
    case UNCALIBRATED => !s.hasCalibration
    case STALE_CALIBRATION => s.hasCalibration && s.validUntil.Some? && r.ts > s.validUntil.value
    case OTHER(_) => false
  }

  lemma InWhen(condition: bool, g: Flag, f: Flag)
    ensures f in When(condition, g) <==> condition && f == g
  {}

  lemma ValueDeserved(x: real, stored: seq<Stored>, earlier: seq<Reading>, r: Reading, s: Sensor, receivedAt: int,
                      f: Flag)
    requires f in {OUT_OF_RANGE, SATURATED, FLATLINE}
    ensures f in ValueFlags(x, s, Remembered(earlier, s, LoadRecent(stored)))
            <==> Deserved(f, x, stored, earlier, r, s, receivedAt)
  {
    var recent := Remembered(earlier, s, LoadRecent(stored));
    var before := NewestFirst(earlier, s) + Values(LatestFive(stored));
    assert |before| >= 5 ==> recent.values[..5] == before[..5];
    InWhen((s.rangeMin.Some? && x < s.rangeMin.value) || (s.rangeMax.Some? && x > s.rangeMax.value), OUT_OF_RANGE, f);
    InWhen(s.rangeMax == Some(x) || s.rangeMin == Some(x), SATURATED, f);
  }

  lemma GapDeserved(stored: seq<Stored>, earlier: seq<Reading>, r: Reading, s: Sensor)
    ensures var last := Remembered(earlier, s, LoadRecent(stored)).sequence;
            r.sequence.Some? && last.Some? && r.sequence.value > last.value + 1 <==> Jumps(stored, earlier, r)
  {
    var last := LastSequence(earlier, LatestSequence(stored));
    forall q ensures last == Some(q) <==> LastSeen(stored, earlier, q) {
      LastSeenIs(stored, earlier, q);
    }
  }

  lemma DeliveryDeserved(x: real, stored: seq<Stored>, earlier: seq<Reading>, r: Reading, s: Sensor, receivedAt: int,
                         f: Flag)
    requires f !in {NOT_FINITE, OUT_OF_RANGE, SATURATED, FLATLINE}
    ensures f in DeliveryFlags(r, s, Remembered(earlier, s, LoadRecent(stored)), receivedAt)
            <==> Deserved(f, x, stored, earlier, r, s, receivedAt)
  {
    var last := Remembered(earlier, s, LoadRecent(stored)).sequence;
    GapDeserved(stored, earlier, r, s);
    InWhen(s.latestStoredTs.Some? && r.ts < s.latestStoredTs.value, OUT_OF_ORDER, f);
    InWhen(r.ts - receivedAt > MAX_CLOCK_SKEW_MS, FUTURE_TIMESTAMP, f);
    InWhen(receivedAt - r.ts > DELAYED_DELIVERY_MS, DELAYED_DELIVERY, f);
    InWhen(r.sequence.Some? && last.Some? && r.sequence.value > last.value + 1, SEQUENCE_GAP, f);
    InWhen(!s.hasCalibration, UNCALIBRATED, f);
    InWhen(s.hasCalibration && s.validUntil.Some? && s.validUntil.value < r.ts, STALE_CALIBRATION, f);
  }

  lemma ValueKinds(x: real, s: Sensor, recent: Recent, f: Flag)
    ensures f in ValueFlags(x, s, recent) ==> f in {OUT_OF_RANGE, SATURATED, FLATLINE}
  {}

  lemma DeliveryKinds(r: Reading, s: Sensor, recent: Recent, receivedAt: int, f: Flag)
    ensures f in DeliveryFlags(r, s, recent, receivedAt) ==> f !in {NOT_FINITE, OUT_OF_RANGE, SATURATED, FLATLINE}
  {}

  /** Every flag of a reading with a number, exactly: what its sender said, and what it deserves. */
  lemma FlagsExactly(stored: seq<Stored>, earlier: seq<Reading>, r: Reading, s: Sensor, receivedAt: int, x: real,
                     f: Flag)
    requires Reads(r, s, x)
    ensures f in FlagsAfter(earlier, r, s, LoadRecent(stored), receivedAt)
            <==> f in r.extraFlags || Deserved(f, x, stored, earlier, r, s, receivedAt)
  {
    var recent := Remembered(earlier, s, LoadRecent(stored));
    assert Calibrated(r, s) == Finite(x);
    DedupDistinct(AssessQuality(r, s, recent, receivedAt) + r.extraFlags);
    ValueKinds(x, s, recent, f);
    DeliveryKinds(r, s, recent, receivedAt, f);
    if f in {OUT_OF_RANGE, SATURATED, FLATLINE} {
      ValueDeserved(x, stored, earlier, r, s, receivedAt, f);
    } else if f != NOT_FINITE {
      DeliveryDeserved(x, stored, earlier, r, s, receivedAt, f);
    }
  }

  /** And of a reading without one: it is not finite, and nothing more is said of it here. */
  lemma NotFiniteExactly(initial: Recent, earlier: seq<Reading>, r: Reading, s: Sensor, receivedAt: int, f: Flag)
    requires forall x :: !Reads(r, s, x)
    ensures f in FlagsAfter(earlier, r, s, initial, receivedAt) <==> f in r.extraFlags || f == NOT_FINITE
  {
    var recent := Remembered(earlier, s, initial);
    assert Calibrated(r, s).NotFinite? by {
      if Calibrated(r, s).Finite? {
        assert Reads(r, s, Calibrated(r, s).x);
      }
    }
    DedupDistinct(AssessQuality(r, s, recent, receivedAt) + r.extraFlags);
  }

  function FlaggedRows(rows: seq<seq<Flag>>): set<nat> {
    set i: nat | i < |rows| && rows[i] != []
  }

  function RowsWith(rows: seq<seq<Flag>>, f: Flag): set<nat> {
    set i: nat | i < |rows| && f in rows[i]
  }

  lemma FlaggedRowsMore(rows: seq<seq<Flag>>, n: nat)
    requires |rows| == n + 1
    ensures FlaggedRows(rows) == FlaggedRows(rows[..n]) + (if rows[n] != [] then {n} else {})
  {}

  lemma RowsWithMore(rows: seq<seq<Flag>>, f: Flag, n: nat)
    requires |rows| == n + 1
    ensures RowsWith(rows, f) == RowsWith(rows[..n], f) + (if f in rows[n] then {n} else {})
  {}

  /** The two counts of a batch count rows: those with any flag, and those with this one. */
  lemma {:induction false} CountsRows(rows: seq<seq<Flag>>, f: Flag)
    ensures CountFlagged(rows) == |FlaggedRows(rows)| && CountWith(rows, f) == |RowsWith(rows, f)|
  {
    if rows == [] {
      assert FlaggedRows(rows) == {} && RowsWith(rows, f) == {};
    } else {
      var n := |rows| - 1;
      CountsRows(rows[..n], f);
      FlaggedRowsMore(rows, n);
      RowsWithMore(rows, f, n);
    }
  }

  /**
   A reading may feed a statistic exactly when it is finite, in range, not flat over the batch and
   the loaded window before it, and not disowned by its sender.
   */
  lemma AnalysisGradeExactly(stored: seq<Stored>, earlier: seq<Reading>, r: Reading, s: Sensor, receivedAt: int)
    ensures IsAnalysisGrade(FlagsAfter(earlier, r, s, LoadRecent(stored), receivedAt)) <==>
              && Calibrated(r, s).Finite?
              && (s.rangeMin.Some? ==> s.rangeMin.value <= Calibrated(r, s).x)
              && (s.rangeMax.Some? ==> Calibrated(r, s).x <= s.rangeMax.value)
              && !FiveEqual(NewestFirst(earlier, s) + Values(LatestFive(stored)), Calibrated(r, s).x)
              && IsAnalysisGrade(r.extraFlags)
  {
    var recent := Remembered(earlier, s, LoadRecent(stored));
    var before := NewestFirst(earlier, s) + Values(LatestFive(stored));
    assert |before| >= 5 ==> recent.values[..5] == before[..5];
    GradeOfDedup(AssessQuality(r, s, recent, receivedAt) + r.extraFlags);
    GradeOfBoth(AssessQuality(r, s, recent, receivedAt), r.extraFlags);
    AssessedGrade(r, s, recent, receivedAt);
  }

  lemma GradeOfBoth(a: seq<Flag>, b: seq<Flag>)
    ensures IsAnalysisGrade(a + b) <==> IsAnalysisGrade(a) && IsAnalysisGrade(b)
  {
    assert forall f :: f in a + b <==> f in a || f in b;
  }

  lemma AssessedGrade(r: Reading, s: Sensor, recent: Recent, receivedAt: int)
    ensures IsAnalysisGrade(AssessQuality(r, s, recent, receivedAt)) <==>
              && Calibrated(r, s).Finite?
              && (s.rangeMin.Some? ==> s.rangeMin.value <= Calibrated(r, s).x)
              && (s.rangeMax.Some? ==> Calibrated(r, s).x <= s.rangeMax.value)
              && !(|recent.values| >= 5 && AllEqual(recent.values[..5], Calibrated(r, s).x))
  {
    match Calibrated(r, s)
    case NotFinite =>
      assert NOT_FINITE in AssessQuality(r, s, recent, receivedAt);
    case Finite(x) =>
      ValueGrade(x, s, recent);
      DeliveryGrade(r, s, recent, receivedAt);
      GradeOfBoth(ValueFlags(x, s, recent), DeliveryFlags(r, s, recent, receivedAt));
  }

  lemma GradeOfWhen(condition: bool, f: Flag)
    ensures IsAnalysisGrade(When(condition, f)) <==> !condition || f !in {NOT_FINITE, OUT_OF_RANGE, FLATLINE}
  {
    assert f in [f];
  }

  lemma ValueGrade(x: real, s: Sensor, recent: Recent)
    ensures IsAnalysisGrade(ValueFlags(x, s, recent)) <==>
              && (s.rangeMin.Some? ==> s.rangeMin.value <= x) && (s.rangeMax.Some? ==> x <= s.rangeMax.value)
              && !(|recent.values| >= 5 && AllEqual(recent.values[..5], x))
  {
    var outside := (s.rangeMin.Some? && x < s.rangeMin.value) || (s.rangeMax.Some? && x > s.rangeMax.value);
    var saturated := s.rangeMax == Some(x) || s.rangeMin == Some(x);
    var flat := |recent.values| >= FLATLINE_SAMPLE_COUNT && AllEqual(recent.values[..FLATLINE_SAMPLE_COUNT], x);
    GradeOfWhen(outside, OUT_OF_RANGE);
    GradeOfWhen(saturated, SATURATED);
    GradeOfWhen(flat, FLATLINE);
    GradeOfBoth(When(outside, OUT_OF_RANGE), When(saturated, SATURATED));
    GradeOfBoth(When(outside, OUT_OF_RANGE) + When(saturated, SATURATED), When(flat, FLATLINE));
  }

  lemma DeliveryGrade(r: Reading, s: Sensor, recent: Recent, receivedAt: int)
    ensures IsAnalysisGrade(DeliveryFlags(r, s, recent, receivedAt))
  {}

  lemma {:induction false} OnlyWithin(readings: seq<Reading>, i: nat, id: int)
    requires i < |readings| && readings[i].sensorId == id
    ensures var rank := |Only(readings[..i], id)|;
            && rank < |Only(readings, id)| && Only(readings, id)[rank] == readings[i]
            && Only(readings, id)[..rank] == Only(readings[..i], id)
  {
    var n := |readings| - 1;
    if i < n {
      OnlyWithin(readings[..n], i, id);
      assert readings[..n][..i] == readings[..i];
    }
  }

  lemma {:induction false} OnlyAmong(readings: seq<Reading>, id: int)
    ensures forall r :: r in Only(readings, id) <==> r in readings && r.sensorId == id
  {
    if readings != [] {
      var n := |readings| - 1;
      OnlyAmong(readings[..n], id);
      assert readings == readings[..n] + [readings[n]];
    }
  }

  lemma OnlySnoc(earlier: seq<Reading>, r: Reading, id: int)
    ensures Only(earlier + [r], id) == Only(earlier, id) + if r.sensorId == id then [r] else []
  {
    assert (earlier + [r])[..|earlier|] == earlier;
  }

  lemma {:induction false} OnlyTwice(readings: seq<Reading>, id: int)
    ensures Only(Only(readings, id), id) == Only(readings, id)
  {
    if readings != [] {
      var n := |readings| - 1;
      var shorter := Only(readings[..n], id);
      OnlyTwice(readings[..n], id);
      OnlySnoc(shorter, readings[n], id);
      assert shorter + [] == shorter;
    }
  }

  /** Interleaving sensors changes nothing: each reading is flagged as if its sensor were processed alone. */
  lemma FlaggedAsIfAlone(readings: seq<Reading>, i: nat, sensors: map<int, Sensor>, initial: map<int, Recent>,
                         receivedAt: int)
    requires i < |readings| && Loaded(readings, sensors, initial)
    ensures var id := readings[i].sensorId;
            var alone, rank := Only(readings, id), |Only(readings[..i], id)|;
            && rank < |alone| && Loaded(alone, sensors, initial)
            && FlagsOf(readings, i, sensors, initial, receivedAt) == FlagsOf(alone, rank, sensors, initial, receivedAt)
  {
    var id := readings[i].sensorId;
    OnlyWithin(readings, i, id);
    OnlyTwice(readings[..i], id);
    LoadedAlone(readings, id, sensors, initial);
  }

  lemma LoadedAlone(readings: seq<Reading>, id: int, sensors: map<int, Sensor>, initial: map<int, Recent>)
    requires Loaded(readings, sensors, initial)
    ensures Loaded(Only(readings, id), sensors, initial)
  {
    OnlyAmong(readings, id);
    forall i | 0 <= i < |Only(readings, id)|
      ensures Only(readings, id)[i].sensorId in sensors && Only(readings, id)[i].sensorId in initial
    {
      assert Only(readings, id)[i] in readings;
    }
  }

  /** A stuck channel: the same finite value from one sensor, with no flatline claimed by the sender. */
  predicate Stuck(readings: seq<Reading>, id: int, x: real, s: Sensor) {
    forall i :: 0 <= i < |readings| ==>
      readings[i].sensorId == id && Calibrated(readings[i], s) == Finite(x) && FLATLINE !in readings[i].extraFlags
  }

  lemma {:induction false} StuckHistory(readings: seq<Reading>, id: int, x: real, s: Sensor)
    requires Stuck(readings, id, x, s)
    ensures Only(readings, id) == readings
    ensures |NewestFirst(readings, s)| == |readings| && AllEqual(NewestFirst(readings, s), x)
  {
    if readings != [] {
      StuckHistory(readings[..|readings| - 1], id, x, s);
    }
  }

  lemma StuckLast(earlier: seq<Reading>, r: Reading, id: int, x: real, s: Sensor, initial: Recent, receivedAt: int)
    requires Stuck(earlier, id, x, s) && initial.values == []
    requires Calibrated(r, s) == Finite(x) && FLATLINE !in r.extraFlags
    ensures FLATLINE in FlagsAfter(Only(earlier, id), r, s, initial, receivedAt) <==> |earlier| >= 5
  {
    StuckHistory(earlier, id, x, s);
    FlatlineOfWindow(earlier, r, s, initial, receivedAt);
    assert NewestFirst(earlier, s) + [] == NewestFirst(earlier, s);
  }

  /** From an empty window, n equal values give exactly max(0, n - 5) flatlines. */
  lemma {:induction false} FlatlineCount(readings: seq<Reading>, rows: seq<seq<Flag>>, id: int, x: real,
                                         s: Sensor, initial: Recent, receivedAt: int)
    requires initial.values == [] && Stuck(readings, id, x, s) && |rows| == |readings|
    requires forall i :: 0 <= i < |rows| ==> RowRight(readings, rows, i, id, s, initial, receivedAt)
    ensures CountWith(rows, FLATLINE) == if |readings| > 5 then |readings| - 5 else 0
  {
    if readings != [] {
      var n := |readings| - 1;
      forall i | 0 <= i < n ensures RowRight(readings[..n], rows[..n], i, id, s, initial, receivedAt) {
        assert readings[..n][..i] == readings[..i];
        assert RowRight(readings, rows, i, id, s, initial, receivedAt);
      }
      FlatlineCount(readings[..n], rows[..n], id, x, s, initial, receivedAt);
      StuckLast(readings[..n], readings[n], id, x, s, initial, receivedAt);
      assert RowRight(readings, rows, n, id, s, initial, receivedAt);
    }
  }

  /** Row `i` holds the flags of the `i`-th reading. */
  ghost predicate RowRight(readings: seq<Reading>, rows: seq<seq<Flag>>, i: nat, id: int, s: Sensor, initial: Recent,
                           receivedAt: int)
    requires i < |readings| && |rows| == |readings|
  {
    rows[i] == FlagsAfter(Only(readings[..i], id), readings[i], s, initial, receivedAt)
  }
}
