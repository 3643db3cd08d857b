/**
 Exactly-once ingest: one push of gateway readings feeds three stores from one idempotency key.
 `gateway_readings` and `measurements` have a unique index on (eventId, ts) and skip duplicates;
 `sensor_data` has no key. Hashing the key's material is injective, so the material stands for
 the event id. A push is handled under its gateway's lock, so it is one atomic operation.
 */
module Ingest {
  import opened EventId

  // ─── Stores ────────────────────────────────────────────────────────────────────────

  /**
   A row as it is built: its event id, its instant in milliseconds, the device it resolved to;
   `eligible` says whether there was a collecting project, a valid verdict and a number.
   */
  datatype Row = Row(eventId: string, ts: int, device: int, eligible: bool, payload: int)

  function RowOf(parts: Parts, device: int, eligible: bool, payload: int): Row {
    Row(ReadingEventId(parts), 1000 * parts.ts, device, eligible, payload)
  }

  type Key = (string, int)

  function KeyOf(r: Row): Key {
    (r.eventId, r.ts)
  }

  ghost predicate Built(r: Row) {
    exists parts :: r == RowOf(parts, r.device, r.eligible, r.payload)
  }

  /** The instant is part of the event id, so for rows as they are built the event id alone is the key. */
  lemma EventIdIsKey(r: Row, t: Row)
    requires Built(r) && Built(t)
    ensures r.eventId == t.eventId <==> KeyOf(r) == KeyOf(t)
  {
    if r.eventId == t.eventId {
      var p :| r == RowOf(p, r.device, r.eligible, r.payload);
      var q :| t == RowOf(q, t.device, t.eligible, t.payload);
      SameTail(Lowered(p), Lowered(q));
    }
  }

  /** `createMany` with `skipDuplicates`: the first row of each key wins, against the store and within the batch. */
  function InsertNew(store: map<Key, Row>, rows: seq<Row>): map<Key, Row> {
    if rows == [] then store
    else
      var n := |rows| - 1;
      var before := InsertNew(store, rows[..n]);
      if KeyOf(rows[n]) in before then before else before[KeyOf(rows[n]) := rows[n]]
  }

  function Keys(rows: seq<Row>): set<Key> {
    set r | r in rows :: KeyOf(r)
  }

  datatype State = State(readings: map<Key, Row>, measurements: map<Key, Row>, sensorData: seq<Row>,
                         published: seq<Row>)

  const EMPTY := State(map[], map[], [], [])

  /** `failing`: devices whose measurement pipeline throws; `legacyUp`: whether the sensor_data write succeeds. */
  datatype Push = Push(rows: seq<Row>, failing: set<int>, legacyUp: bool)

  function OfDevice(rows: seq<Row>, device: int): seq<Row> {
    if rows == [] then []
    else
      var n := |rows| - 1;
      OfDevice(rows[..n], device) + if rows[n].device == device then [rows[n]] else []
  }

  /** Devices in order of first appearance. */
  function Devices(rows: seq<Row>): seq<int> {
    if rows == [] then []
    else
      var n := |rows| - 1;
      Devices(rows[..n]) + if rows[n].device in Devices(rows[..n]) then [] else [rows[n].device]
  }

  /** One device's batch: all of it is published if any of it was new. */
  function MeasureOne(s: State, batch: seq<Row>): State {
    var stored := InsertNew(s.measurements, batch);
    s.(measurements := stored, published := s.published + if |stored| > |s.measurements| then batch else [])
  }

  function MeasureAll(s: State, rows: seq<Row>, devices: seq<int>, failing: set<int>): State {
    if devices == [] then s
    else
      var n := |devices| - 1;
      var before := MeasureAll(s, rows, devices[..n], failing);
      if devices[n] in failing then before else MeasureOne(before, OfDevice(rows, devices[n]))
  }

  predicate Seen(readings: map<Key, Row>, id: string) {
    exists k <- readings :: k.0 == id
  }

  /** The eligible rows whose event id was not stored before the push. */
  function FreshEligible(readings: map<Key, Row>, rows: seq<Row>): seq<Row> {
    if rows == [] then []
    else
      var n := |rows| - 1;
      FreshEligible(readings, rows[..n]) + if rows[n].eligible && !Seen(readings, rows[n].eventId) then [rows[n]]
        else []
  }

  function Apply(s: State, p: Push): State {
    var stored := s.(readings := InsertNew(s.readings, p.rows));
    var measured := MeasureAll(stored, p.rows, Devices(p.rows), p.failing);
    measured.(sensorData := s.sensorData + if p.legacyUp then FreshEligible(s.readings, p.rows) else [])
  }

  function After(pushes: seq<Push>): State {
    if pushes == [] then EMPTY else Apply(After(pushes[..|pushes| - 1]), pushes[|pushes| - 1])
  }

  class IngestService {
    var readings: map<Key, Row>
    var measurements: map<Key, Row>
    var sensorData: seq<Row>
    var published: seq<Row>

    ghost function Abstract(): State
      reads this
    {
      State(readings, measurements, sensorData, published)
    }

    constructor ()
      ensures Abstract() == EMPTY
    {
      readings, measurements, sensorData, published := map[], map[], [], [];
    }

    method IngestMeasurements(batch: seq<Row>) returns (accepted: nat, duplicates: nat)
      modifies this`measurements, this`published
      ensures Abstract() == MeasureOne(old(Abstract()), batch)
      ensures accepted + duplicates == |batch| && |measurements| == |old(measurements)| + accepted
    {
      InsertSize(measurements, batch);
      var before := |measurements|;
      measurements := InsertNew(measurements, batch);
      accepted := |measurements| - before;
      duplicates := |batch| - accepted;
      if accepted > 0 {
        published := published + batch;
      }
    }

    /** Each device's batch through the derived pipeline; a device that fails costs only itself. */
    method MeasureDevices(rows: seq<Row>, order: seq<int>, perDevice: map<int, seq<Row>>, failing: set<int>)
      requires Grouped(perDevice, rows)
      modifies this`measurements, this`published
      ensures Abstract() == MeasureAll(old(Abstract()), rows, order, failing)
    {
      for d := 0 to |order|
        invariant Abstract() == MeasureAll(old(Abstract()), rows, order[..d], failing)
      {
        assert order[..d + 1][..d] == order[..d];
        if order[d] !in failing {
          var batch := if order[d] in perDevice then perDevice[order[d]] else [];
          var accepted, skipped := IngestMeasurements(batch);
        }
      }
      assert order[..|order|] == order;
    }

    method HandleSensorData(rows: seq<Row>, failing: set<int>, legacyUp: bool) returns (stored: nat, duplicates: nat)
      modifies this
      ensures Abstract() == Apply(old(Abstract()), Push(rows, failing, legacyUp))
      ensures stored + duplicates == |rows| && |readings| == |old(readings)| + stored
    {
      var order, perDevice, compat := GroupByDevice(rows);
      var before := readings;
      InsertSize(readings, rows);
      readings := InsertNew(readings, rows);
      stored := |readings| - |before|;
      duplicates := |rows| - stored;
      MeasureLeaves(Abstract(), rows, order, failing);
      MeasureDevices(rows, order, perDevice, failing);
      var unseen := Unseen(before, compat);
      UnseenEligible(before, rows);
      if |unseen| > 0 && legacyUp {
        sensorData := sensorData + unseen;
      }
      assert sensorData == old(sensorData) + if legacyUp then FreshEligible(old(readings), rows) else [];
    }
  }

  ghost predicate Grouped(perDevice: map<int, seq<Row>>, rows: seq<Row>) {
    forall d :: (if d in perDevice then perDevice[d] else []) == OfDevice(rows, d)
  }

  lemma GroupedOne(perDevice: map<int, seq<Row>>, rows: seq<Row>, n: nat)
    requires n < |rows| && Grouped(perDevice, rows[..n])
    ensures var device := rows[n].device;
            var list := if device in perDevice then perDevice[device] else [];
            Grouped(perDevice[device := list + [rows[n]]], rows[..n + 1])
  {
    assert rows[..n + 1][..n] == rows[..n];
    var device := rows[n].device;
    var list := if device in perDevice then perDevice[device] else [];
    var after := perDevice[device := list + [rows[n]]];
    forall d ensures (if d in after then after[d] else []) == OfDevice(rows[..n + 1], d) {
      assert OfDevice(rows[..n + 1], d) == OfDevice(rows[..n], d) + if device == d then [rows[n]] else [];
      if d != device {
        assert OfDevice(rows[..n], d) + [] == OfDevice(rows[..n], d);
      }
    }
  }

  /** The first loop of a push: rows by device, and the rows meant for the legacy table. */
  method GroupByDevice(rows: seq<Row>) returns (order: seq<int>, perDevice: map<int, seq<Row>>, compat: seq<Row>)
    ensures order == Devices(rows) && Grouped(perDevice, rows) && compat == Eligible(rows)
  {
    order, perDevice, compat := [], map[], [];
    for i := 0 to |rows|
      invariant order == Devices(rows[..i]) && Grouped(perDevice, rows[..i]) && compat == Eligible(rows[..i])
    {
      assert rows[..i + 1][..i] == rows[..i];
      var row := rows[i];
      if row.device !in order {
        order := order + [row.device];
      }
      var list := if row.device in perDevice then perDevice[row.device] else [];
      GroupedOne(perDevice, rows, i);
      perDevice := perDevice[row.device := list + [row]];
      if row.eligible {
        compat := compat + [row];
      }
    }
    assert rows[..|rows|] == rows;
  }

  function Eligible(rows: seq<Row>): seq<Row> {
    if rows == [] then []
    else
      var n := |rows| - 1;
      Eligible(rows[..n]) + if rows[n].eligible then [rows[n]] else []
  }

  function Unseen(readings: map<Key, Row>, rows: seq<Row>): seq<Row> {
    if rows == [] then []
    else
      var n := |rows| - 1;
      Unseen(readings, rows[..n]) + if Seen(readings, rows[n].eventId) then [] else [rows[n]]
  }

  lemma {:induction false} UnseenEligible(readings: map<Key, Row>, rows: seq<Row>)
    ensures Unseen(readings, Eligible(rows)) == FreshEligible(readings, rows)
  {
    if rows != [] {
      var n := |rows| - 1;
      UnseenEligible(readings, rows[..n]);
      var shorter := Eligible(rows[..n]);
      if rows[n].eligible {
        assert (shorter + [rows[n]])[..|shorter|] == shorter;
      } else {
        assert Eligible(rows) == shorter;
      }
    }
  }

  lemma {:induction false} MeasureLeaves(s: State, rows: seq<Row>, devices: seq<int>, failing: set<int>)
    ensures var m := MeasureAll(s, rows, devices, failing);
            m.readings == s.readings && m.sensorData == s.sensorData
  {
    if devices != [] {
      MeasureLeaves(s, rows, devices[..|devices| - 1], failing);
    }
  }

  // ─── Insertion ─────────────────────────────────────────────────────────────────────

  lemma KeysOneMore(rows: seq<Row>, r: Row)
    ensures Keys(rows + [r]) == Keys(rows) + {KeyOf(r)}
  {
    assert r in rows + [r];
    forall k | k in Keys(rows) ensures k in Keys(rows + [r]) {
      var t :| t in rows && KeyOf(t) == k;
      assert t in rows + [r];
    }
  }

  lemma {:induction false} InsertKeys(store: map<Key, Row>, rows: seq<Row>)
    ensures InsertNew(store, rows).Keys == store.Keys + Keys(rows)
  {
    if rows != [] {
      var n := |rows| - 1;
      InsertKeys(store, rows[..n]);
      KeysOneMore(rows[..n], rows[n]);
      assert rows[..n] + [rows[n]] == rows;
    }
  }

  lemma {:induction false} InsertKeeps(store: map<Key, Row>, rows: seq<Row>)
    ensures forall k <- store :: k in InsertNew(store, rows) && InsertNew(store, rows)[k] == store[k]
  {
    if rows != [] {
      InsertKeeps(store, rows[..|rows| - 1]);
    }
  }

  lemma {:induction false} InsertSize(store: map<Key, Row>, rows: seq<Row>)
    ensures |store| <= |InsertNew(store, rows)| <= |store| + |rows|
  {
    if rows != [] {
      var n := |rows| - 1;
      InsertSize(store, rows[..n]);
      var before := InsertNew(store, rows[..n]);
      if KeyOf(rows[n]) !in before {
        assert before[KeyOf(rows[n]) := rows[n]].Keys == before.Keys + {KeyOf(rows[n])};
      }
    }
  }

  lemma {:induction false} InsertConcat(store: map<Key, Row>, a: seq<Row>, b: seq<Row>)
    ensures InsertNew(store, a + b) == InsertNew(InsertNew(store, a), b)
    decreases |b|
  {
    if b == [] {
      assert a + b == a;
    } else {
      var n := |b| - 1;
      assert (a + b)[..|a| + n] == a + b[..n];
      InsertConcat(store, a, b[..n]);
    }
  }

  lemma {:induction false} InsertNothing(store: map<Key, Row>, rows: seq<Row>)
    requires Keys(rows) <= store.Keys
    ensures InsertNew(store, rows) == store
  {
    if rows != [] {
      var n := |rows| - 1;
      KeysOneMore(rows[..n], rows[n]);
      assert rows[..n] + [rows[n]] == rows;
      InsertNothing(store, rows[..n]);
    }
  }

  lemma InsertOne(store: map<Key, Row>, r: Row)
    ensures InsertNew(store, [r]) == if KeyOf(r) in store then store else store[KeyOf(r) := r]
  {
    assert InsertNew(store, []) == store;
  }

  /**
   What that costs: of two new readings of registered gateways the second is dropped as a duplicate
   exactly when they agree on everything but the device, the payload and the letter case of the key.
   */
  lemma TwinDropped(store: map<Key, Row>, p: Parts, q: Parts, a: Row, b: Row)
    requires IsGatewayKey(p.gateway) && IsGatewayKey(q.gateway)
    requires a == RowOf(p, a.device, a.eligible, a.payload) && b == RowOf(q, b.device, b.eligible, b.payload)
    requires KeyOf(a) !in store && KeyOf(b) !in store
    ensures var stored := InsertNew(store, [a]);
            KeyOf(a) in stored
            && (InsertNew(stored, [b]) == stored
                <==> Lower(p.gateway) == Lower(q.gateway) && p == q.(gateway := p.gateway))
  {
    InsertOne(store, a);
    InsertOne(InsertNew(store, [a]), b);
    SameEventId(p, q);
  }

  // ─── Any sequence of pushes ────────────────────────────────────────────────────────

  function AllRows(pushes: seq<Push>): seq<Row> {
    if pushes == [] then [] else AllRows(pushes[..|pushes| - 1]) + pushes[|pushes| - 1].rows
  }

  /**
   `gateway_readings` is one insertion of everything ever sent: how it was cut into pushes, and what
   failed, is forgotten.
   */
  lemma {:induction false} GroupingForgotten(pushes: seq<Push>)
    ensures After(pushes).readings == InsertNew(map[], AllRows(pushes))
    ensures After(pushes).readings.Keys == Keys(AllRows(pushes))
  {
    if pushes != [] {
      var n := |pushes| - 1;
      var s, p := After(pushes[..n]), pushes[n];
      GroupingForgotten(pushes[..n]);
      InsertConcat(map[], AllRows(pushes[..n]), p.rows);
      MeasureLeaves(s.(readings := InsertNew(s.readings, p.rows)), p.rows, Devices(p.rows), p.failing);
    }
    InsertKeys(map[], AllRows(pushes));
  }

  lemma {:induction false} InsertFrom(store: map<Key, Row>, rows: seq<Row>)
    requires forall k <- store :: KeyOf(store[k]) == k
    ensures forall k <- InsertNew(store, rows) ::
              KeyOf(InsertNew(store, rows)[k]) == k
                && (InsertNew(store, rows)[k] in rows || (k in store && InsertNew(store, rows)[k] == store[k]))
  {
    if rows != [] {
      var n := |rows| - 1;
      InsertFrom(store, rows[..n]);
      assert rows == rows[..n] + [rows[n]];
    }
  }

  /**
   The order of pushes, their grouping and any replays do not matter: two histories of the same
   rows store the same events, and the same rows too if no event was ever sent with two contents.
   */
  lemma OrderFree(a: seq<Push>, b: seq<Push>)
    requires forall r :: r in AllRows(a) <==> r in AllRows(b)
    ensures After(a).readings.Keys == After(b).readings.Keys
    ensures OneContent(AllRows(a)) ==> After(a).readings == After(b).readings
  {
    GroupingForgotten(a);
    GroupingForgotten(b);
    SameKeys(AllRows(a), AllRows(b));
    if OneContent(AllRows(a)) {
      SameContents(AllRows(a), AllRows(b));
    }
  }

  lemma SameKeys(a: seq<Row>, b: seq<Row>)
    requires forall r :: r in a <==> r in b
    ensures Keys(a) == Keys(b)
  {}

  lemma SameContents(a: seq<Row>, b: seq<Row>)
    requires (forall r :: r in a <==> r in b) && OneContent(a)
    ensures InsertNew(map[], a) == InsertNew(map[], b)
  {
    var m, w := InsertNew(map[], a), InsertNew(map[], b);
    SameKeys(a, b);
    InsertKeys(map[], a);
    InsertKeys(map[], b);
    InsertFrom(map[], a);
    InsertFrom(map[], b);
    forall k | k in m ensures m[k] == w[k] {
      assert KeyOf(m[k]) == k && KeyOf(w[k]) == k;
    }
  }

  /** No event was ever sent with two contents. */
  ghost predicate OneContent(rows: seq<Row>) {
    forall r <- rows, t <- rows :: KeyOf(r) == KeyOf(t) ==> r == t
  }

  // ─── Measurements ──────────────────────────────────────────────────────────────────

  /** Keys of the rows whose device's pipeline was up. */
  function Measurable(rows: seq<Row>, failing: set<int>): set<Key> {
    set r | r in rows && r.device !in failing :: KeyOf(r)
  }

  lemma {:induction false} OfDeviceHolds(rows: seq<Row>, device: int)
    ensures forall r :: r in OfDevice(rows, device) <==> r in rows && r.device == device
  {
    if rows != [] {
      var n := |rows| - 1;
      OfDeviceHolds(rows[..n], device);
      assert rows == rows[..n] + [rows[n]];
    }
  }

  lemma {:induction false} DevicesHold(rows: seq<Row>)
    ensures forall r :: r in rows ==> r.device in Devices(rows)
  {
    if rows != [] {
      var n := |rows| - 1;
      DevicesHold(rows[..n]);
      assert rows == rows[..n] + [rows[n]];
    }
  }

  function MeasurableOn(rows: seq<Row>, devices: seq<int>, failing: set<int>): set<Key> {
    if devices == [] then {}
    else
      var n := |devices| - 1;
      MeasurableOn(rows, devices[..n], failing) + if devices[n] in failing then {} else Keys(OfDevice(rows, devices[n]))
  }

  lemma {:induction false} MeasurableSome(rows: seq<Row>, devices: seq<int>, failing: set<int>, r: Row)
    requires r in rows && r.device in devices && r.device !in failing
    ensures KeyOf(r) in MeasurableOn(rows, devices, failing)
  {
    var n := |devices| - 1;
    if devices[n] == r.device {
      OfDeviceHolds(rows, r.device);
    } else {
      assert devices == devices[..n] + [devices[n]];
      MeasurableSome(rows, devices[..n], failing, r);
    }
  }

  lemma {:induction false} MeasureAllKeys(s: State, rows: seq<Row>, devices: seq<int>, failing: set<int>)
    ensures MeasureAll(s, rows, devices, failing).measurements.Keys
            == s.measurements.Keys + MeasurableOn(rows, devices, failing)
  {
    if devices != [] {
      var n := |devices| - 1;
      MeasureAllKeys(s, rows, devices[..n], failing);
      InsertKeys(MeasureAll(s, rows, devices[..n], failing).measurements, OfDevice(rows, devices[n]));
    }
  }

  /** A device whose pipeline is up has all its rows of the push measured. */
  lemma Measured(s: State, rows: seq<Row>, failing: set<int>)
    ensures Measurable(rows, failing) <= MeasureAll(s, rows, Devices(rows), failing).measurements.Keys
    ensures s.measurements.Keys <= MeasureAll(s, rows, Devices(rows), failing).measurements.Keys
  {
    MeasureAllKeys(s, rows, Devices(rows), failing);
    DevicesHold(rows);
    forall k | k in Measurable(rows, failing) ensures k in MeasurableOn(rows, Devices(rows), failing) {
      var r :| r in rows && r.device !in failing && KeyOf(r) == k;
      MeasurableSome(rows, Devices(rows), failing, r);
    }
  }

  /**
   A push changes none of the three stores and publishes nothing exactly when it brings nothing
   new: all its keys are read in, and those of its devices that are up are measured.
   */
  lemma ReplayChangesNothing(s: State, p: Push)
    ensures Apply(s, p) == s
            <==> Keys(p.rows) <= s.readings.Keys && Measurable(p.rows, p.failing) <= s.measurements.Keys
  {
    if Keys(p.rows) <= s.readings.Keys && Measurable(p.rows, p.failing) <= s.measurements.Keys {
      InsertNothing(s.readings, p.rows);
      MeasureNothing(s, p.rows, Devices(p.rows), p.failing);
      NothingFresh(s.readings, p.rows);
      assert s.sensorData + [] == s.sensorData;
    }
    if Apply(s, p) == s {
      var stored := s.(readings := InsertNew(s.readings, p.rows));
      InsertKeys(s.readings, p.rows);
      MeasureLeaves(stored, p.rows, Devices(p.rows), p.failing);
      Measured(stored, p.rows, p.failing);
    }
  }

  lemma {:induction false} MeasureNothing(s: State, rows: seq<Row>, devices: seq<int>, failing: set<int>)
    requires Measurable(rows, failing) <= s.measurements.Keys
    ensures MeasureAll(s, rows, devices, failing) == s
  {
    if devices != [] {
      var n := |devices| - 1;
      MeasureNothing(s, rows, devices[..n], failing);
      if devices[n] !in failing {
        OfDeviceHolds(rows, devices[n]);
        InsertNothing(s.measurements, OfDevice(rows, devices[n]));
        assert s.published + [] == s.published;
      }
    }
  }

  lemma {:induction false} NothingFresh(readings: map<Key, Row>, rows: seq<Row>)
    requires Keys(rows) <= readings.Keys
    ensures FreshEligible(readings, rows) == []
  {
    if rows != [] {
      var n := |rows| - 1;
      KeysOneMore(rows[..n], rows[n]);
      assert rows[..n] + [rows[n]] == rows;
      NothingFresh(readings, rows[..n]);
    }
  }

  lemma {:induction false} EarlierKept(pushes: seq<Push>, i: nat)
    requires i < |pushes|
    ensures Keys(pushes[i].rows) <= After(pushes).readings.Keys
    ensures Measurable(pushes[i].rows, pushes[i].failing) <= After(pushes).measurements.Keys
  {
    var n := |pushes| - 1;
    var s, p := After(pushes[..n]), pushes[n];
    var stored := s.(readings := InsertNew(s.readings, p.rows));
    InsertKeys(s.readings, p.rows);
    MeasureLeaves(stored, p.rows, Devices(p.rows), p.failing);
    Measured(stored, p.rows, p.failing);
    if i < n {
      EarlierKept(pushes[..n], i);
    }
  }

  /** Sending again, at any later time, what an earlier push carried without failure changes nothing at all. */
  lemma FullReplay(pushes: seq<Push>, i: nat, replay: Push)
    requires i < |pushes| && pushes[i].failing == {} && replay.rows == pushes[i].rows
    ensures Apply(After(pushes), replay) == After(pushes)
  {
    EarlierKept(pushes, i);
    ReplayChangesNothing(After(pushes), replay);
  }

  /** What goes out to subscribers is only news exactly when the batch is all news, or none of it. */
  lemma PublishesNewsOnly(s: State, batch: seq<Row>)
    ensures var out := MeasureOne(s, batch).published[|s.published|..];
            (forall r :: r in out ==> KeyOf(r) !in s.measurements)
            <==> Keys(batch) <= s.measurements.Keys || Keys(batch) !! s.measurements.Keys
    ensures MeasureOne(s, batch).published == s.published + (if Keys(batch) <= s.measurements.Keys then [] else batch)
  {
    var stored := InsertNew(s.measurements, batch);
    InsertKeys(s.measurements, batch);
    var out := MeasureOne(s, batch).published[|s.published|..];
    if Keys(batch) <= s.measurements.Keys {
      InsertNothing(s.measurements, batch);
      assert out == [];
    } else {
      var k :| k in Keys(batch) && k !in s.measurements.Keys;
      Larger(s.measurements.Keys, stored.Keys, k);
      assert out == batch;
    }
  }

  lemma {:induction false} OfDeviceCounts(rows: seq<Row>, device: int, r: Row)
    ensures multiset(OfDevice(rows, device))[r] == if r.device == device then multiset(rows)[r] else 0
  {
    if rows != [] {
      var n := |rows| - 1;
      OfDeviceCounts(rows[..n], device, r);
      assert rows == rows[..n] + [rows[n]];
    }
  }

  lemma CountMore(first: seq<Row>, mid: seq<Row>, out: seq<Row>, r: Row)
    requires first <= mid
    ensures first <= mid + out
    ensures multiset((mid + out)[|first|..])[r] == multiset(mid[|first|..])[r] + multiset(out)[r]
  {
    assert (mid + out)[|first|..] == mid[|first|..] + out;
  }

  lemma {:induction false} MeasureAllPublishes(s: State, rows: seq<Row>, devices: seq<int>, failing: set<int>, r: Row)
    requires forall i, j :: 0 <= i < j < |devices| ==> devices[i] != devices[j]
    ensures var published := MeasureAll(s, rows, devices, failing).published;
            && s.published <= published
            && multiset(published[|s.published|..])[r]
               <= if r.device in devices && r.device !in failing then multiset(rows)[r] else 0
  {
    if devices != [] {
      var n := |devices| - 1;
      var before := MeasureAll(s, rows, devices[..n], failing);
      MeasureAllPublishes(s, rows, devices[..n], failing, r);
      assert devices == devices[..n] + [devices[n]];
      if devices[n] !in failing {
        var batch := OfDevice(rows, devices[n]);
        PublishesNewsOnly(before, batch);
        OfDeviceCounts(rows, devices[n], r);
        CountMore(s.published, before.published, if Keys(batch) <= before.measurements.Keys then [] else batch, r);
      }
    }
  }

  lemma {:induction false} DevicesDistinct(rows: seq<Row>)
    ensures forall i, j :: 0 <= i < j < |Devices(rows)| ==> Devices(rows)[i] != Devices(rows)[j]
  {
    if rows != [] {
      DevicesDistinct(rows[..|rows| - 1]);
    }
  }

  /** No push publishes a row more often than it holds it, nor any of a device whose pipeline is down. */
  lemma PublishedOnce(s: State, p: Push, r: Row)
    ensures s.published <= Apply(s, p).published
    ensures multiset(Apply(s, p).published[|s.published|..])[r]
            <= if r.device in p.failing then 0 else multiset(p.rows)[r]
  {
    DevicesDistinct(p.rows);
    DevicesHold(p.rows);
    MeasureAllPublishes(s.(readings := InsertNew(s.readings, p.rows)), p.rows, Devices(p.rows), p.failing, r);
  }

  lemma Larger(a: set<Key>, b: set<Key>, k: Key)
    requires a <= b && k in b && k !in a
    ensures |a| < |b|
  {
    assert |b - a| > 0 by { assert k in b - a; }
    assert b == a + (b - a);
  }

  // ─── The legacy table ──────────────────────────────────────────────────────────────

  function CountId(rows: seq<Row>, id: string): nat {
    if rows == [] then 0
    else CountId(rows[..|rows| - 1], id) + if rows[|rows| - 1].eventId == id then 1 else 0
  }

  predicate Mentions(rows: seq<Row>, id: string) {
    exists r <- rows :: r.eventId == id
  }

  lemma {:induction false} CountConcat(a: seq<Row>, b: seq<Row>, id: string)
    ensures CountId(a + b, id) == CountId(a, id) + CountId(b, id)
    decreases |b|
  {
    if b == [] {
      assert a + b == a;
    } else {
      assert (a + b)[..|a + b| - 1] == a + b[..|b| - 1];
      CountConcat(a, b[..|b| - 1], id);
    }
  }

  lemma CountOneMore(rows: seq<Row>, r: Row, id: string)
    ensures CountId(rows + [r], id) == CountId(rows, id) + if r.eventId == id then 1 else 0
  {
    assert (rows + [r])[..|rows|] == rows;
  }

  lemma {:induction false} CountFresh(readings: map<Key, Row>, rows: seq<Row>, id: string)
    ensures CountId(FreshEligible(readings, rows), id) == if Seen(readings, id) then 0 else CountId(Eligible(rows), id)
  {
    if rows != [] {
      var n := |rows| - 1;
      CountFresh(readings, rows[..n], id);
      var unseen, eligible := FreshEligible(readings, rows[..n]), Eligible(rows[..n]);
      if rows[n].eligible {
        CountOneMore(eligible, rows[n], id);
        if Seen(readings, rows[n].eventId) {
          assert FreshEligible(readings, rows) == unseen;
        } else {
          CountOneMore(unseen, rows[n], id);
        }
      } else {
        assert FreshEligible(readings, rows) == unseen && Eligible(rows) == eligible;
      }
    }
  }

  /** The first push that mentions an event decides: its eligible rows for it, if the legacy table took them. */
  function FromFirstPush(pushes: seq<Push>, id: string): nat {
    if pushes == [] then 0
    else
      var n := |pushes| - 1;
      if Mentions(AllRows(pushes[..n]), id) then FromFirstPush(pushes[..n], id)
      else if pushes[n].legacyUp then CountId(Eligible(pushes[n].rows), id)
      else 0
  }

  /**
   How often an event stands in `sensor_data`, for any run: as often as the first push that
   mentioned it had eligible rows for it. Two equal ids in one push are both written; an event
   whose first write failed is never written.
   */
  lemma {:induction false} SensorDataCount(pushes: seq<Push>, id: string)
    ensures CountId(After(pushes).sensorData, id) == FromFirstPush(pushes, id)
  {
    if pushes != [] {
      var n := |pushes| - 1;
      var s, p := After(pushes[..n]), pushes[n];
      SensorDataCount(pushes[..n], id);
      CountConcat(s.sensorData, if p.legacyUp then FreshEligible(s.readings, p.rows) else [], id);
      CountFresh(s.readings, p.rows, id);
      GroupingForgotten(pushes[..n]);
      MentionedIsStored(AllRows(pushes[..n]), id);
      if !Mentions(AllRows(pushes[..n]), id) {
        NotMentioned(pushes[..n], id);
      }
    }
  }

  lemma MentionedIsStored(rows: seq<Row>, id: string)
    ensures Mentions(rows, id) <==> exists k <- Keys(rows) :: k.0 == id
  {
    if Mentions(rows, id) {
      var r :| r in rows && r.eventId == id;
      assert KeyOf(r) in Keys(rows);
    }
  }

  lemma {:induction false} NotMentioned(pushes: seq<Push>, id: string)
    requires !Mentions(AllRows(pushes), id)
    ensures FromFirstPush(pushes, id) == 0
  {
    if pushes != [] {
      var n := |pushes| - 1;
      var before, last := AllRows(pushes[..n]), pushes[n].rows;
      assert forall r <- before :: r in AllRows(pushes);
      assert forall r <- last :: r in AllRows(pushes);
      EligibleAmong(last, id);
    }
  }

  lemma {:induction false} EligibleAmong(rows: seq<Row>, id: string)
    requires !Mentions(rows, id)
    ensures CountId(Eligible(rows), id) == 0
  {
    if rows != [] {
      var n := |rows| - 1;
      assert rows[n] in rows && forall r <- rows[..n] :: r in rows;
      EligibleAmong(rows[..n], id);
      CountOneMore(Eligible(rows[..n]), rows[n], id);
      assert Eligible(rows[..n]) + [] == Eligible(rows[..n]);
    }
  }

  ghost predicate DistinctIds(rows: seq<Row>) {
    forall i, j :: 0 <= i < j < |rows| ==> rows[i].eventId != rows[j].eventId
  }

  lemma {:induction false} EligibleOnce(rows: seq<Row>, i: nat)
    requires DistinctIds(rows) && i < |rows|
    ensures CountId(Eligible(rows), rows[i].eventId) == if rows[i].eligible then 1 else 0
  {
    var n := |rows| - 1;
    CountOneMore(Eligible(rows[..n]), rows[n], rows[i].eventId);
    assert Eligible(rows[..n]) + [] == Eligible(rows[..n]);
    if i < n {
      EligibleOnce(rows[..n], i);
    } else {
      EligibleAmong(rows[..n], rows[i].eventId);
    }
  }

  /** With distinct ids inside each push and no failed write: once if eligible when first seen, else never. */
  lemma OncePerEligibleEvent(earlier: seq<Push>, first: Push, later: seq<Push>, r: Row)
    requires first.legacyUp && DistinctIds(first.rows)
    requires r in first.rows && !Mentions(AllRows(earlier), r.eventId)
    ensures CountId(After(earlier + [first] + later).sensorData, r.eventId) == if r.eligible then 1 else 0
  {
    SensorDataCount(earlier + [first] + later, r.eventId);
    var i :| 0 <= i < |first.rows| && first.rows[i] == r;
    EligibleOnce(first.rows, i);
    FirstDecides(earlier, first, later, r.eventId);
  }

  lemma {:induction false} FirstDecides(earlier: seq<Push>, first: Push, later: seq<Push>, id: string)
    requires first.legacyUp && Mentions(first.rows, id) && !Mentions(AllRows(earlier), id)
    ensures Mentions(AllRows(earlier + [first] + later), id)
    ensures FromFirstPush(earlier + [first] + later, id) == CountId(Eligible(first.rows), id)
    decreases |later|
  {
    var pushes := earlier + [first] + later;
    if later == [] {
      assert pushes[..|earlier|] == earlier;
      assert forall r <- first.rows :: r in AllRows(pushes);
    } else {
      var n := |later| - 1;
      assert pushes[..|pushes| - 1] == earlier + [first] + later[..n];
      FirstDecides(earlier, first, later[..n], id);
      assert forall r <- AllRows(earlier + [first] + later[..n]) :: r in AllRows(pushes);
    }
  }
}
