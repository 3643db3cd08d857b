/**
 A gateway's sensor file turned into the push it stands for (`csvToEnvelope`): reading columns
 are grouped into sensors and channels in order of first appearance, and every data row becomes
 one telemetry for each sensor. Reading a number and lower-casing are parameters.
 */
module Envelope {
  import opened Wrappers
  import opened JsText
  import opened ReadingHeader
  import Calendar
  import EventId
  import Csv
  import FileName

  type Row = Csv.Row

  datatype Channel = Channel(channelType: string, reading: Option<nat>, raw: Option<nat>, description: Option<nat>,
                             unit: string, rawUnit: string)

  datatype Sensor = Sensor(code: string, channels: seq<Channel>)

  // ─── Columns into channels ─────────────────────────────────────────────────────────

  function IndexOf(keys: seq<string>, key: string): (i: nat)
    ensures i <= |keys| && (i < |keys| ==> keys[i] == key)
    ensures forall k :: 0 <= k < i ==> keys[k] != key
  {
    if keys == [] || keys[0] == key then 0 else 1 + IndexOf(keys[1..], key)
  }

  function Codes(sensors: seq<Sensor>): (codes: seq<string>)
    ensures |codes| == |sensors| && forall i :: 0 <= i < |codes| ==> codes[i] == sensors[i].code
  {
    seq(|sensors|, i requires 0 <= i < |sensors| => sensors[i].code)
  }

  function Types(channels: seq<Channel>): (types: seq<string>)
    ensures |types| == |channels| && forall i :: 0 <= i < |types| ==> types[i] == channels[i].channelType
  {
    seq(|channels|, i requires 0 <= i < |channels| => channels[i].channelType)
  }

  function NewChannel(channelType: string): Channel {
    Channel(channelType, None, None, None, "", "")
  }

  /** A later column of the same kind takes the place of an earlier one. */
  function With(channel: Channel, c: Column, described: bool): Channel {
    match c.kind
    case Reading => channel.(reading := Some(c.index), unit := c.unit)
    case RawReading =>
      channel.(raw := Some(c.index), rawUnit := c.unit,
               description := if described then Some(c.index + 1) else channel.description)
  }

  function AddChannel(channels: seq<Channel>, c: Column, described: bool): seq<Channel> {
    var j := IndexOf(Types(channels), c.channelType);
    if j == |channels| then channels + [With(NewChannel(c.channelType), c, described)]
    else channels[j := With(channels[j], c, described)]
  }

  function AddColumn(sensors: seq<Sensor>, c: Column, described: bool): seq<Sensor> {
    var i := IndexOf(Codes(sensors), c.code);
    if i == |sensors| then sensors + [Sensor(c.code, AddChannel([], c, described))]
    else sensors[i := sensors[i].(channels := AddChannel(sensors[i].channels, c, described))]
  }

  /** Whether the header just after this column is a description's. */
  predicate Described(header: Row, c: Column, lower: string -> string) {
    c.index + 1 < |header| && lower(header[c.index + 1]) == "description"
  }

  function Group(columns: seq<Column>, header: Row, lower: string -> string): seq<Sensor> {
    if columns == [] then []
    else
      var n := |columns| - 1;
      AddColumn(Group(columns[..n], header, lower), columns[n], Described(header, columns[n], lower))
  }

  function ColumnAt(header: Row, n: nat): seq<Column>
    requires n < |header|
  {
    var c := ParseReadingHeader(header[n], n);
    if c.Some? then [c.value] else []
  }

  /** The reading columns of a header; the first column is the date. */
  function Columns(header: Row): seq<Column> {
    if |header| <= 1 then []
    else
      var n := |header| - 1;
      Columns(header[..n]) + ColumnAt(header, n)
  }

  method PlaceColumn(sensors: seq<Sensor>, c: Column, header: Row, lower: string -> string) returns (after: seq<Sensor>)
    ensures after == AddColumn(sensors, c, Described(header, c, lower))
  {
    var i := IndexOf(Codes(sensors), c.code);
    var channels := if i < |sensors| then sensors[i].channels else [];
    var j := IndexOf(Types(channels), c.channelType);
    var channel := if j < |channels| then channels[j] else NewChannel(c.channelType);
    if c.kind == Reading {
      channel := channel.(reading := Some(c.index), unit := c.unit);
    } else {
      channel := channel.(raw := Some(c.index), rawUnit := c.unit);
      if c.index + 1 < |header| && lower(header[c.index + 1]) == "description" {
        channel := channel.(description := Some(c.index + 1));
      }
    }
    channels := if j < |channels| then channels[j := channel] else channels + [channel];
    after := if i < |sensors| then sensors[i := sensors[i].(channels := channels)]
      else sensors + [Sensor(c.code, channels)];
  }

  method GroupColumns(columns: seq<Column>, header: Row, lower: string -> string) returns (sensors: seq<Sensor>)
    ensures sensors == Group(columns, header, lower)
  {
    sensors := [];
    for k := 0 to |columns|
      invariant sensors == Group(columns[..k], header, lower)
    {
      assert columns[..k + 1][..k] == columns[..k];
      sensors := PlaceColumn(sensors, columns[k], header, lower);
    }
    assert columns[..|columns|] == columns;
  }

  // ─── What the grouping amounts to ──────────────────────────────────────────────────

  function Firsts(keys: seq<string>): seq<string> {
    if keys == [] then []
    else
      var n := |keys| - 1;
      Firsts(keys[..n]) + if keys[n] in Firsts(keys[..n]) then [] else [keys[n]]
  }

  function CodesOf(columns: seq<Column>): seq<string> {
    if columns == [] then [] else CodesOf(columns[..|columns| - 1]) + [columns[|columns| - 1].code]
  }

  function TypesOf(columns: seq<Column>, code: string): seq<string> {
    if columns == [] then []
    else
      var n := |columns| - 1;
      TypesOf(columns[..n], code) + if columns[n].code == code then [columns[n].channelType] else []
  }

  /** The last of the columns that is of this sensor, channel type and kind. */
  function LastOf(columns: seq<Column>, code: string, channelType: string, kind: Kind): Option<Column> {
    if columns == [] then None
    else
      var c := columns[|columns| - 1];
      if c.code == code && c.channelType == channelType && c.kind == kind then Some(c)
      else LastOf(columns[..|columns| - 1], code, channelType, kind)
  }

  function LastDescribed(columns: seq<Column>, header: Row, lower: string -> string, code: string,
                         channelType: string): Option<Column> {
    if columns == [] then None
    else
      var c := columns[|columns| - 1];
      if c.code == code && c.channelType == channelType && c.kind == RawReading
        && Described(header, c, lower) then Some(c)
      else LastDescribed(columns[..|columns| - 1], header, lower, code, channelType)
  }

  function IndexIn(c: Option<Column>): Option<nat> {
    if c.Some? then Some(c.value.index) else None
  }

  function UnitIn(c: Option<Column>): string {
    if c.Some? then c.value.unit else ""
  }

  /** The channel a header defines for a sensor code and channel type, stated without the grouping. */
  function Summary(columns: seq<Column>, header: Row, lower: string -> string, code: string,
                   channelType: string): Option<Channel> {
    var reading, raw := LastOf(columns, code, channelType, Reading), LastOf(columns, code, channelType, RawReading);
    var described := LastDescribed(columns, header, lower, code, channelType);
    if reading.None? && raw.None? then None
    else Some(Channel(channelType, IndexIn(reading), IndexIn(raw),
                      if described.Some? then Some(described.value.index + 1) else None,
                      UnitIn(reading), UnitIn(raw)))
  }

  function FindType(channels: seq<Channel>, channelType: string): Option<Channel> {
    var j := IndexOf(Types(channels), channelType);
    if j < |channels| then Some(channels[j]) else None
  }

  function FindChannels(sensors: seq<Sensor>, code: string): seq<Channel> {
    var i := IndexOf(Codes(sensors), code);
    if i < |sensors| then sensors[i].channels else []
  }

  /** Looking a key up depends only on the keys. */
  lemma {:induction false} IndexOfIs(keys: seq<string>, key: string, i: nat)
    requires i <= |keys| && (i < |keys| ==> keys[i] == key) && forall k :: 0 <= k < i ==> keys[k] != key
    ensures IndexOf(keys, key) == i
  {}

  lemma AddChannelTypes(channels: seq<Channel>, c: Column, described: bool)
    ensures Types(AddChannel(channels, c, described))
            == if c.channelType in Types(channels) then Types(channels) else Types(channels) + [c.channelType]
  {}

  lemma AddChannelFinds(channels: seq<Channel>, c: Column, described: bool, channelType: string)
    ensures FindType(AddChannel(channels, c, described), channelType)
            == if channelType == c.channelType
               then Some(With(if FindType(channels, c.channelType).Some? then FindType(channels, c.channelType).value
                              else NewChannel(c.channelType), c, described))
               else FindType(channels, channelType)
  {
    AddChannelTypes(channels, c, described);
    var after := Types(AddChannel(channels, c, described));
    var found := channelType in Types(channels) || channelType == c.channelType;
    IndexOfIs(after, channelType, if found then IndexOf(Types(channels), channelType) else |after|);
  }

  lemma AddColumnFinds(sensors: seq<Sensor>, c: Column, described: bool, code: string)
    ensures FindChannels(AddColumn(sensors, c, described), code)
            == if code == c.code then AddChannel(FindChannels(sensors, code), c, described)
              else FindChannels(sensors, code)
    ensures Codes(AddColumn(sensors, c, described)) == if c.code in Codes(sensors) then Codes(sensors)
            else Codes(sensors) + [c.code]
  {
    var i := IndexOf(Codes(sensors), c.code);
    var after := AddColumn(sensors, c, described);
    var k := IndexOf(Codes(sensors), code);
    if code == c.code {
      IndexOfIs(Codes(after), code, i);
    } else if k < |sensors| {
      IndexOfIs(Codes(after), code, k);
    } else {
      IndexOfIs(Codes(after), code, |after|);
    }
  }

  /** Codes stand in order of first appearance. */
  lemma {:induction false} CodesInOrder(columns: seq<Column>, header: Row, lower: string -> string)
    ensures Codes(Group(columns, header, lower)) == Firsts(CodesOf(columns))
  {
    if columns != [] {
      var n := |columns| - 1;
      CodesInOrder(columns[..n], header, lower);
      AddColumnFinds(Group(columns[..n], header, lower), columns[n], Described(header, columns[n], lower),
                     columns[n].code);
      FirstsMore(CodesOf(columns[..n]), columns[n].code);
    }
  }

  /** Within a code, channel types stand in order of first appearance: their places are the channel ids. */
  lemma {:induction false} TypesInOrder(columns: seq<Column>, header: Row, lower: string -> string, code: string)
    ensures Types(FindChannels(Group(columns, header, lower), code)) == Firsts(TypesOf(columns, code))
  {
    if columns != [] {
      var n := |columns| - 1;
      var c, d := columns[n], Described(header, columns[n], lower);
      var before := Group(columns[..n], header, lower);
      TypesInOrder(columns[..n], header, lower, code);
      AddColumnFinds(before, c, d, code);
      if c.code == code {
        AddChannelTypes(FindChannels(before, code), c, d);
        FirstsMore(TypesOf(columns[..n], code), c.channelType);
      } else {
        assert TypesOf(columns, code) == TypesOf(columns[..n], code);
      }
    }
  }

  lemma SummaryMore(columns: seq<Column>, header: Row, lower: string -> string, code: string, channelType: string)
    requires columns != []
    ensures var n := |columns| - 1;
            var c, before := columns[n], Summary(columns[..n], header, lower, code, channelType);
            Summary(columns, header, lower, code, channelType)
            == if c.code == code && c.channelType == channelType
               then Some(With(if before.Some? then before.value else NewChannel(channelType), c,
                              Described(header, c, lower)))
               else before
  {
    var n := |columns| - 1;
    DescribedIsRaw(columns[..n], header, lower, code, channelType);
  }

  lemma {:induction false} DescribedIsRaw(columns: seq<Column>, header: Row, lower: string -> string, code: string,
                                          channelType: string)
    ensures LastOf(columns, code, channelType, RawReading).None?
            ==> LastDescribed(columns, header, lower, code, channelType).None?
  {
    if columns != [] {
      DescribedIsRaw(columns[..|columns| - 1], header, lower, code, channelType);
    }
  }

  /** A channel takes its reading, raw value and description from the last column that offers one. */
  lemma {:induction false} ChannelIs(columns: seq<Column>, header: Row, lower: string -> string, code: string,
                                     channelType: string)
    ensures FindType(FindChannels(Group(columns, header, lower), code), channelType)
            == Summary(columns, header, lower, code, channelType)
  {
    if columns != [] {
      var n := |columns| - 1;
      var c, d := columns[n], Described(header, columns[n], lower);
      var before := Group(columns[..n], header, lower);
      ChannelIs(columns[..n], header, lower, code, channelType);
      AddColumnFinds(before, c, d, code);
      SummaryMore(columns, header, lower, code, channelType);
      if c.code == code {
        AddChannelFinds(FindChannels(before, code), c, d, channelType);
      }
    }
  }

  lemma FirstsMore(keys: seq<string>, key: string)
    ensures Firsts(keys + [key]) == Firsts(keys) + if key in Firsts(keys) then [] else [key]
  {
    assert (keys + [key])[..|keys|] == keys;
  }

  lemma {:induction false} FirstsGrow(keys: seq<string>, more: seq<string>)
    ensures Firsts(keys) <= Firsts(keys + more)
    decreases |more|
  {
    if more == [] {
      assert keys + more == keys;
    } else {
      var n := |more| - 1;
      assert (keys + more)[..|keys| + n] == keys + more[..n];
      FirstsGrow(keys, more[..n]);
    }
  }

  lemma {:induction false} TypesConcat(a: seq<Column>, b: seq<Column>, code: string)
    ensures TypesOf(a + b, code) == TypesOf(a, code) + TypesOf(b, code)
    decreases |b|
  {
    if b == [] {
      assert a + b == a;
      assert TypesOf(a, code) + [] == TypesOf(a, code);
    } else {
      assert (a + b)[..|a + b| - 1] == a + b[..|b| - 1];
      TypesConcat(a, b[..|b| - 1], code);
    }
  }

  lemma {:induction false} InFirsts(keys: seq<string>, key: string)
    ensures key in Firsts(keys) <==> key in keys
  {
    if keys != [] {
      InFirsts(keys[..|keys| - 1], key);
      assert keys == keys[..|keys| - 1] + [keys[|keys| - 1]];
    }
  }

  lemma PrefixIndex(a: seq<string>, b: seq<string>, key: string)
    requires a <= b && key in a
    ensures IndexOf(b, key) == IndexOf(a, key) < |a|
  {
    IndexOfIs(b, key, IndexOf(a, key));
  }

  /** The id of a channel: its place among the channel types of its sensor. */
  function ChannelId(columns: seq<Column>, code: string, channelType: string): nat {
    IndexOf(Firsts(TypesOf(columns, code)), channelType)
  }

  /** Columns added on the right change no channel's id, so old and new files of a sensor agree on it. */
  lemma ChannelIdsStable(columns: seq<Column>, more: seq<Column>, code: string, channelType: string)
    requires channelType in TypesOf(columns, code)
    ensures ChannelId(columns + more, code, channelType) == ChannelId(columns, code, channelType)
  {
    TypesConcat(columns, more, code);
    FirstsGrow(TypesOf(columns, code), TypesOf(more, code));
    InFirsts(TypesOf(columns, code), channelType);
    PrefixIndex(Firsts(TypesOf(columns, code)), Firsts(TypesOf(columns + more, code)), channelType);
  }

  /** Columns stand in the order of the header, none of them the first. */
  ghost predicate Increasing(columns: seq<Column>, width: nat) {
    && (forall i :: 0 <= i < |columns| ==> 0 < columns[i].index < width)
    && forall i, j :: 0 <= i < j < |columns| ==> columns[i].index < columns[j].index
  }

  lemma IncreasingMore(columns: seq<Column>, width: nat, c: Column)
    requires Increasing(columns, width) && c.index == width > 0
    ensures Increasing(columns, width + 1) && Increasing(columns + [c], width + 1)
  {}

  lemma IndexRead(header: string, index: nat)
    requires ParseReadingHeader(header, index).Some?
    ensures ParseReadingHeader(header, index).value.index == index
  {}

  lemma {:induction false} ColumnsIncrease(header: Row)
    ensures Increasing(Columns(header), |header|)
  {
    if |header| > 1 {
      var n := |header| - 1;
      ColumnsIncrease(header[..n]);
      if ParseReadingHeader(header[n], n).Some? {
        IndexRead(header[n], n);
        IncreasingMore(Columns(header[..n]), n, ParseReadingHeader(header[n], n).value);
      }
    }
  }

  /** A later column would be read instead. */
  predicate Superseded(columns: seq<Column>, k: nat)
    requires k < |columns|
  {
    exists l :: k < l < |columns| && columns[l].code == columns[k].code
      && columns[l].channelType == columns[k].channelType
                && columns[l].kind == columns[k].kind
  }

  lemma {:induction false} LastOfIs(columns: seq<Column>, k: nat)
    requires k < |columns|
    ensures var c := columns[k];
            var last := LastOf(columns, c.code, c.channelType, c.kind);
            last.Some? && exists l ::
                            k <= l < |columns| && last == Some(columns[l]) && (l == k <==> !Superseded(columns, k))
  {
    var n := |columns| - 1;
    var c, shorter := columns[k], columns[..n];
    if columns[n].code == c.code && columns[n].channelType == c.channelType && columns[n].kind == c.kind {
      assert n == k <==> !Superseded(columns, k);
    } else {
      LastOfIs(shorter, k);
      var l :| k <= l < n && LastOf(shorter, c.code, c.channelType, c.kind) == Some(shorter[l])
        && (l == k <==> !Superseded(shorter, k));
      assert Superseded(columns, k) <==> Superseded(shorter, k) by {
        if Superseded(shorter, k) {
          var j :| k < j < n && shorter[j].code == shorter[k].code && shorter[j].channelType == shorter[k].channelType
                   && shorter[j].kind == shorter[k].kind;
          assert columns[j] == shorter[j];
        }
        if Superseded(columns, k) {
          var j :| k < j < |columns| && columns[j].code == c.code && columns[j].channelType == c.channelType
            && columns[j].kind == c.kind;
          assert columns[j] == shorter[j];
        }
      }
      assert columns[l] == shorter[l];
    }
  }

  lemma LastIndex(columns: seq<Column>, width: nat, k: nat)
    requires k < |columns| && Increasing(columns, width)
    ensures var c := columns[k];
            var last := LastOf(columns, c.code, c.channelType, c.kind);
            last.Some? && (last.value.index == c.index <==> !Superseded(columns, k))
  {
    LastOfIs(columns, k);
  }

  function Slot(channel: Channel, kind: Kind): Option<nat> {
    if kind == Reading then channel.reading else channel.raw
  }

  lemma SummarySlot(columns: seq<Column>, header: Row, lower: string -> string, c: Column)
    requires LastOf(columns, c.code, c.channelType, c.kind).Some?
    ensures var channel := Summary(columns, header, lower, c.code, c.channelType);
            channel.Some?
              && Slot(channel.value, c.kind) == Some(LastOf(columns, c.code, c.channelType, c.kind).value.index)
  {}

  lemma KeptColumn(columns: seq<Column>, width: nat, header: Row, lower: string -> string, k: nat)
    requires k < |columns| && Increasing(columns, width)
    ensures var c := columns[k];
            var channel := FindType(FindChannels(Group(columns, header, lower), c.code), c.channelType);
            channel.Some? && (Slot(channel.value, c.kind) == Some(c.index) <==> !Superseded(columns, k))
  {
    LastIndex(columns, width, k);
    SummarySlot(columns, header, lower, columns[k]);
    ChannelIs(columns, header, lower, columns[k].code, columns[k].channelType);
  }

  /** Every reading column has its channel, and is the one read for it unless a later column says the same. */
  lemma ColumnKept(header: Row, lower: string -> string, k: nat)
    requires k < |Columns(header)|
    ensures var c := Columns(header)[k];
            var channel := FindType(FindChannels(Group(Columns(header), header, lower), c.code), c.channelType);
            channel.Some? && (Slot(channel.value, c.kind) == Some(c.index) <==> !Superseded(Columns(header), k))
  {
    ColumnsIncrease(header);
    KeptColumn(Columns(header), |header|, header, lower, k);
  }

  // ─── Rows into telemetries ─────────────────────────────────────────────────────────

  /**
   `number`: what the language reads from a trimmed, non-empty text, when that is finite; `dateOf`:
   the reading of local dates at the file's offset.
   */
  datatype Context = Context(number: string -> Option<real>, indexFor: string -> int, sensorLabel: Option<string>,
                             dateOf: string -> Option<int>)

  datatype Value = Value(channelId: nat, channelType: string, reading: Option<real>, raw: Option<real>,
                         unit: string, rawUnit: string, description: Option<string>)

  datatype Telemetry = Telemetry(ts: int, sensorId: int, code: string, group: string, values: seq<Value>)

  function Num(text: string, ctx: Context): Option<real> {
    if Trim(text) == "" then None else ctx.number(Trim(text))
  }

  function Cell(row: Row, at: Option<nat>, ctx: Context): Option<real> {
    if at.Some? && at.value < |row| then Num(row[at.value], ctx) else None
  }

  function OrElse<T>(a: Option<T>, b: Option<T>): Option<T> {
    if a.Some? then a else b
  }

  function Description(row: Row, at: Option<nat>): Option<string> {
    if at.None? then Some("valid")
    else if at.value >= |row| || Trim(row[at.value]) == "" then None
    else Some(Trim(row[at.value]))
  }

  function ValueOf(channel: Channel, id: nat, row: Row, ctx: Context): Value {
    var reading, raw := Cell(row, channel.reading, ctx), Cell(row, channel.raw, ctx);
    Value(id, channel.channelType, OrElse(reading, raw), OrElse(raw, reading),
          if channel.unit != "" then channel.unit else channel.rawUnit,
          if channel.rawUnit != "" then channel.rawUnit else channel.unit,
          Description(row, channel.description))
  }

  function TelemetryOf(sensor: Sensor, ts: int, row: Row, ctx: Context): Telemetry {
    Telemetry(ts, ctx.indexFor(sensor.code), sensor.code,
              if ctx.sensorLabel.Some? && ctx.sensorLabel.value != sensor.code then ctx.sensorLabel.value else "",
              ValuesOf(sensor.channels, row, ctx))
  }

  function ValuesOf(channels: seq<Channel>, row: Row, ctx: Context): (values: seq<Value>)
    ensures |values| == |channels| && forall id ::
                                        0 <= id < |values| ==> values[id] == ValueOf(channels[id], id, row, ctx)
  {
    seq(|channels|, id requires 0 <= id < |channels| => ValueOf(channels[id], id, row, ctx))
  }

  function Timestamp(row: Row, ctx: Context): Option<int> {
    ctx.dateOf(if row == [] then "" else row[0])
  }

  function OfRow(sensors: seq<Sensor>, row: Row, ctx: Context): (list: seq<Telemetry>)
    ensures |list| == if Timestamp(row, ctx).Some? then |sensors| else 0
    ensures Timestamp(row, ctx).Some? ==>
              forall j :: 0 <= j < |sensors| ==> list[j] == TelemetryOf(sensors[j], Timestamp(row, ctx).value, row, ctx)
  {
    if Timestamp(row, ctx).None? then []
    else seq(|sensors|, j requires 0 <= j < |sensors| => TelemetryOf(sensors[j], Timestamp(row, ctx).value, row, ctx))
  }

  /** What the rows give, one after the other. */
  function RowByRow<T>(read: Row -> seq<T>, data: seq<Row>): seq<T> {
    if data == [] then [] else RowByRow(read, data[..|data| - 1]) + read(data[|data| - 1])
  }

  function Reader(sensors: seq<Sensor>, ctx: Context): Row -> seq<Telemetry> {
    row => OfRow(sensors, row, ctx)
  }

  function Telemetries(sensors: seq<Sensor>, data: seq<Row>, ctx: Context): seq<Telemetry> {
    RowByRow(Reader(sensors, ctx), data)
  }

  /** The line numbers, the header being line 1, of the rows whose date cannot be read. */
  function Skipped(data: seq<Row>, ctx: Context): seq<nat> {
    if data == [] then []
    else
      var n := |data| - 1;
      Skipped(data[..n], ctx) + if Timestamp(data[n], ctx).None? then [n + 2] else []
  }

  method ReadRow(sensors: seq<Sensor>, row: Row, ctx: Context) returns (list: seq<Telemetry>)
    requires Timestamp(row, ctx).Some?
    ensures list == OfRow(sensors, row, ctx)
  {
    var ts := ctx.dateOf(if row == [] then "" else row[0]).value;
    list := [];
    for j := 0 to |sensors|
      invariant |list| == j && forall k :: 0 <= k < j ==> list[k] == TelemetryOf(sensors[k], ts, row, ctx)
    {
      list := list + [TelemetryOf(sensors[j], ts, row, ctx)];
    }
  }

  method ReadRows(sensors: seq<Sensor>, data: seq<Row>, ctx: Context)
    returns (telemetries: seq<Telemetry>, skipped: seq<nat>)
    ensures telemetries == Telemetries(sensors, data, ctx) && skipped == Skipped(data, ctx)
  {
    telemetries, skipped := [], [];
    for i := 0 to |data|
      invariant telemetries == Telemetries(sensors, data[..i], ctx) && skipped == Skipped(data[..i], ctx)
    {
      assert data[..i + 1][..i] == data[..i];
      if ctx.dateOf(if data[i] == [] then "" else data[i][0]).None? {
        skipped := skipped + [i + 2];
        assert OfRow(sensors, data[i], ctx) == [];
      } else {
        var list := ReadRow(sensors, data[i], ctx);
        telemetries := telemetries + list;
      }
    }
    assert data[..|data|] == data;
  }

  /** The skipped lines are exactly those whose date cannot be read. */
  lemma {:induction false} SkippedIs(data: seq<Row>, ctx: Context, i: nat)
    ensures i + 2 in Skipped(data, ctx) <==> i < |data| && Timestamp(data[i], ctx).None?
  {
    if data != [] {
      SkippedIs(data[..|data| - 1], ctx, i);
    }
  }

  /** Every row is either skipped or gives one telemetry for each sensor. */
  lemma {:induction false} RowsAccounted(sensors: seq<Sensor>, data: seq<Row>, ctx: Context)
    ensures |Skipped(data, ctx)| <= |data|
    ensures |Telemetries(sensors, data, ctx)| == |sensors| * (|data| - |Skipped(data, ctx)|)
  {
    if data != [] {
      var n := |data| - 1;
      RowsAccounted(sensors, data[..n], ctx);
      OneMoreRow(|sensors|, n - |Skipped(data[..n], ctx)|);
    }
  }

  lemma OneMoreRow(sensors: nat, rows: nat)
    ensures sensors * (rows + 1) == sensors * rows + sensors
  {}

  /** Where the `j`-th thing that row `i` gives is. */
  lemma {:induction false} RowByRowAt<T>(read: Row -> seq<T>, data: seq<Row>, i: nat, j: nat)
    requires i < |data| && j < |read(data[i])|
    ensures |RowByRow(read, data[..i])| + j < |RowByRow(read, data)|
    ensures RowByRow(read, data)[|RowByRow(read, data[..i])| + j] == read(data[i])[j]
  {
    var n := |data| - 1;
    if i < n {
      assert data[..n][..i] == data[..i];
      RowByRowAt(read, data[..n], i, j);
    }
  }

  lemma TelemetryAt(sensors: seq<Sensor>, data: seq<Row>, ctx: Context, i: nat, j: nat)
    requires i < |data| && j < |sensors| && Timestamp(data[i], ctx).Some?
    ensures var at := |Telemetries(sensors, data[..i], ctx)| + j;
            at < |Telemetries(sensors, data, ctx)|
            && Telemetries(sensors, data, ctx)[at]
               == TelemetryOf(sensors[j], Timestamp(data[i], ctx).value, data[i], ctx)
  {
    assert Reader(sensors, ctx)(data[i]) == OfRow(sensors, data[i], ctx);
    RowByRowAt(Reader(sensors, ctx), data, i, j);
  }

  /** The telemetry says, in its channel `id`, what this number is and where it came from. */
  predicate Says(t: Telemetry, ts: int, index: int, code: string, id: nat, channelType: string, kind: Kind,
                 number: Option<real>) {
    && t.ts == ts && t.sensorId == index && t.code == code && id < |t.values|
    && t.values[id].channelId == id && t.values[id].channelType == channelType
    && (if kind == Reading then t.values[id].reading else t.values[id].raw) == number
  }

  /** Some telemetry of the list says so. */
  predicate Reported(list: seq<Telemetry>, ts: Option<int>, index: int, code: string, id: nat, channelType: string,
                     kind: Kind, number: Option<real>) {
    ts.Some? && exists t <- list :: Says(t, ts.value, index, code, id, channelType, kind, number)
  }

  lemma ValueSaid(sensor: Sensor, ts: int, row: Row, ctx: Context, id: nat, kind: Kind, at: nat)
    requires id < |sensor.channels| && Slot(sensor.channels[id], kind) == Some(at) && at < |row|
             && Num(row[at], ctx).Some?
    ensures Says(TelemetryOf(sensor, ts, row, ctx), ts, ctx.indexFor(sensor.code), sensor.code, id,
                 sensor.channels[id].channelType, kind, Num(row[at], ctx))
  {}

  lemma SlotArrives(sensors: seq<Sensor>, data: seq<Row>, ctx: Context, i: nat, j: nat, id: nat, kind: Kind, at: nat)
    requires i < |data| && Timestamp(data[i], ctx).Some? && j < |sensors| && id < |sensors[j].channels|
    requires Slot(sensors[j].channels[id], kind) == Some(at) && at < |data[i]| && Num(data[i][at], ctx).Some?
    ensures Reported(Telemetries(sensors, data, ctx), Timestamp(data[i], ctx), ctx.indexFor(sensors[j].code),
                     sensors[j].code, id, sensors[j].channels[id].channelType, kind, Num(data[i][at], ctx))
  {
    TelemetryAt(sensors, data, ctx, i, j);
    ValueSaid(sensors[j], Timestamp(data[i], ctx).value, data[i], ctx, id, kind, at);
  }

  /** Where a reading column's channel is. */
  lemma Place(header: Row, lower: string -> string, k: nat)
    requires k < |Columns(header)| && !Superseded(Columns(header), k)
    ensures var c, sensors := Columns(header)[k], Group(Columns(header), header, lower);
            var j, id := IndexOf(Codes(sensors), c.code), ChannelId(Columns(header), c.code, c.channelType);
            j < |sensors| && sensors[j].code == c.code && id < |sensors[j].channels|
            && sensors[j].channels[id].channelType == c.channelType
               && Slot(sensors[j].channels[id], c.kind) == Some(c.index)
  {
    ColumnKept(header, lower, k);
    TypesInOrder(Columns(header), header, lower, Columns(header)[k].code);
  }

  /**
   No number is lost: one that stands in a dated row under a column that no later column supersedes
   arrives in the telemetry of that instant and sensor, in the channel of that type, as a reading
   or a raw value according to the column.
   */
  lemma CellArrives(header: Row, lower: string -> string, data: seq<Row>, ctx: Context, i: nat, k: nat)
    requires i < |data| && Timestamp(data[i], ctx).Some?
    requires k < |Columns(header)| && !Superseded(Columns(header), k)
    requires Columns(header)[k].index < |data[i]| && Num(data[i][Columns(header)[k].index], ctx).Some?
    ensures var c := Columns(header)[k];
            Reported(Telemetries(Group(Columns(header), header, lower), data, ctx), Timestamp(data[i], ctx),
                     ctx.indexFor(c.code), c.code, ChannelId(Columns(header), c.code, c.channelType), c.channelType,
                     c.kind, Num(data[i][c.index], ctx))
  {
    var columns := Columns(header);
    var c, sensors := columns[k], Group(columns, header, lower);
    Place(header, lower, k);
    SlotArrives(sensors, data, ctx, i, IndexOf(Codes(sensors), c.code), ChannelId(columns, c.code, c.channelType),
                c.kind, c.index);
  }

  // ─── Nothing is invented ───────────────────────────────────────────────────────────

  ghost predicate Distinct(keys: seq<string>) {
    forall i, j :: 0 <= i < j < |keys| ==> keys[i] != keys[j]
  }

  lemma {:induction false} FirstsDistinct(keys: seq<string>)
    ensures Distinct(Firsts(keys))
  {
    if keys != [] {
      FirstsDistinct(keys[..|keys| - 1]);
    }
  }

  /** The column that `LastOf` finds is one of the columns, of the right kind, and nothing supersedes it. */
  lemma {:induction false} LastOfFrom(columns: seq<Column>, code: string, channelType: string, kind: Kind)
    returns (k: nat)
    requires LastOf(columns, code, channelType, kind).Some?
    ensures k < |columns| && LastOf(columns, code, channelType, kind) == Some(columns[k])
    ensures columns[k].code == code && columns[k].channelType == channelType && columns[k].kind == kind
    ensures forall l ::
              k < l < |columns| ==>
                !(columns[l].code == code && columns[l].channelType == channelType && columns[l].kind == kind)
  {
    var n := |columns| - 1;
    if columns[n].code == code && columns[n].channelType == channelType && columns[n].kind == kind {
      k := n;
    } else {
      k := LastOfFrom(columns[..n], code, channelType, kind);
    }
  }

  lemma {:induction false} RowByRowFrom<T>(read: Row -> seq<T>, data: seq<Row>, at: nat) returns (i: nat, j: nat)
    requires at < |RowByRow(read, data)|
    ensures i < |data| && j < |read(data[i])| && RowByRow(read, data)[at] == read(data[i])[j]
  {
    var n := |data| - 1;
    var before := RowByRow(read, data[..n]);
    if at < |before| {
      i, j := RowByRowFrom(read, data[..n], at);
    } else {
      i, j := n, at - |before|;
    }
  }

  /** A channel in its place is the one that looking up its code and type finds. */
  lemma FoundInPlace(columns: seq<Column>, header: Row, lower: string -> string, j: nat, id: nat)
    requires var sensors := Group(columns, header, lower); j < |sensors| && id < |sensors[j].channels|
    ensures var sensor := Group(columns, header, lower)[j];
            Summary(columns, header, lower, sensor.code, sensor.channels[id].channelType) == Some(sensor.channels[id])
  {
    var sensors := Group(columns, header, lower);
    var code, channels := sensors[j].code, sensors[j].channels;
    CodesInOrder(columns, header, lower);
    FirstsDistinct(CodesOf(columns));
    IndexOfIs(Codes(sensors), code, j);
    TypesInOrder(columns, header, lower, code);
    FirstsDistinct(TypesOf(columns, code));
    IndexOfIs(Types(channels), channels[id].channelType, id);
    ChannelIs(columns, header, lower, code, channels[id].channelType);
  }

  /** Some dated row has this number under a column of that sensor and type that is not superseded. */
  ghost predicate Sourced(columns: seq<Column>, data: seq<Row>, ctx: Context, ts: int, code: string,
                          channelType: string, number: real) {
    exists i, k :: 0 <= i < |data| && 0 <= k < |columns|
      && SourcedAt(columns, data, ctx, ts, code, channelType, number, i, k)
  }

  ghost predicate SourcedAt(columns: seq<Column>, data: seq<Row>, ctx: Context, ts: int, code: string,
                            channelType: string,
                            number: real, i: nat, k: nat)
    requires i < |data| && k < |columns|
  {
    && Timestamp(data[i], ctx) == Some(ts) && columns[k].code == code && columns[k].channelType == channelType
    && !Superseded(columns, k) && columns[k].index < |data[i]| && Num(data[i][columns[k].index], ctx) == Some(number)
  }

  lemma SlotSourced(columns: seq<Column>, header: Row, lower: string -> string, data: seq<Row>, ctx: Context,
                    i: nat, code: string, channelType: string, kind: Kind)
    requires i < |data| && Timestamp(data[i], ctx).Some?
    requires Cell(data[i], IndexIn(LastOf(columns, code, channelType, kind)), ctx).Some?
    ensures Sourced(columns, data, ctx, Timestamp(data[i], ctx).value, code, channelType,
                    Cell(data[i], IndexIn(LastOf(columns, code, channelType, kind)), ctx).value)
  {
    var k := LastOfFrom(columns, code, channelType, kind);
    assert SourcedAt(columns, data, ctx, Timestamp(data[i], ctx).value, code, channelType,
                     Cell(data[i], IndexIn(LastOf(columns, code, channelType, kind)), ctx).value, i, k);
  }

  /**
   Every number in a telemetry, reading or raw, stands in a row of its instant under a live column
   of its sensor and type.
   */
  lemma NothingInvented(columns: seq<Column>, header: Row, lower: string -> string, data: seq<Row>, ctx: Context,
                        at: nat, id: nat)
    requires at < |Telemetries(Group(columns, header, lower), data, ctx)|
    requires id < |Telemetries(Group(columns, header, lower), data, ctx)[at].values|
    ensures var t := Telemetries(Group(columns, header, lower), data, ctx)[at];
            var v := t.values[id];
            && v.channelId == id
            && (v.reading.Some? ==> Sourced(columns, data, ctx, t.ts, t.code, v.channelType, v.reading.value))
            && (v.raw.Some? ==> Sourced(columns, data, ctx, t.ts, t.code, v.channelType, v.raw.value))
  {
    var sensors := Group(columns, header, lower);
    var i, j := RowByRowFrom(Reader(sensors, ctx), data, at);
    assert Reader(sensors, ctx)(data[i]) == OfRow(sensors, data[i], ctx);
    var code, channel := sensors[j].code, sensors[j].channels[id];
    FoundInPlace(columns, header, lower, j, id);
    if Cell(data[i], channel.reading, ctx).Some? {
      SlotSourced(columns, header, lower, data, ctx, i, code, channel.channelType, Reading);
    }
    if Cell(data[i], channel.raw, ctx).Some? {
      SlotSourced(columns, header, lower, data, ctx, i, code, channel.channelType, RawReading);
    }
  }

  // ─── What a telemetry tells, all of it ─────────────────────────────────────────────

  /** The number a row has under a column, if there is such a column and a number. */
  function NumberUnder(c: Option<Column>, row: Row, number: string -> Option<real>): Option<real> {
    if c.Some? && c.value.index < |row| && Trim(row[c.value.index]) != "" then number(Trim(row[c.value.index]))
      else None
  }

  predicate FirstOf<T(==)>(found: Option<T>, a: Option<T>, b: Option<T>) {
    if a.Some? then found == a else found == b
  }

  predicate FirstText(found: string, a: string, b: string) {
    if a != "" then found == a else found == b
  }

  /** Column `k` is a raw column of this code and type that a description follows. */
  predicate HasDescription(columns: seq<Column>, header: Row, lower: string -> string, code: string,
                           channelType: string,
                           k: nat)
    requires k < |columns|
  {
    var c := columns[k];
    && c.code == code && c.channelType == channelType && c.kind == RawReading
    && |header| > c.index + 1 && lower(header[c.index + 1]) == "description"
  }

  /** And the last such. */
  predicate LastWithDescription(columns: seq<Column>, header: Row, lower: string -> string, code: string,
                                channelType: string, k: nat)
    requires k < |columns|
  {
    && HasDescription(columns, header, lower, code, channelType, k)
    && forall l :: k < l < |columns| ==> !HasDescription(columns, header, lower, code, channelType, l)
  }

  predicate NoDescription(columns: seq<Column>, header: Row, lower: string -> string, code: string,
                          channelType: string) {
    forall k :: 0 <= k < |columns| ==> !HasDescription(columns, header, lower, code, channelType, k)
  }

  lemma {:induction false} LastDescribedIs(columns: seq<Column>, header: Row, lower: string -> string, code: string,
                                           channelType: string)
    ensures match LastDescribed(columns, header, lower, code, channelType)
            case None => NoDescription(columns, header, lower, code, channelType)
            case Some(c) =>
              exists k :: 0 <= k < |columns| && columns[k] == c
                          && LastWithDescription(columns, header, lower, code, channelType, k)
  {
    if columns != [] {
      var n := |columns| - 1;
      var shorter, c := columns[..n], columns[n];
      LastDescribedIs(shorter, header, lower, code, channelType);
      forall k: nat | k < n
        ensures HasDescription(columns, header, lower, code, channelType, k)
                <==> HasDescription(shorter, header, lower, code, channelType, k)
      {
        assert columns[k] == shorter[k];
      }
      if HasDescription(columns, header, lower, code, channelType, n) {
        assert LastWithDescription(columns, header, lower, code, channelType, n);
      } else if LastDescribed(shorter, header, lower, code, channelType).Some? {
        var k :| 0 <= k < n && LastWithDescription(shorter, header, lower, code, channelType, k)
                 && LastDescribed(shorter, header, lower, code, channelType) == Some(shorter[k]);
        assert LastWithDescription(columns, header, lower, code, channelType, k);
      }
    }
  }

  /** A channel without a description column is valid; otherwise its description is what stands there, if anything. */
  predicate DescriptionTells(d: Option<string>, columns: seq<Column>, header: Row, lower: string -> string,
                             code: string,
                             channelType: string, row: Row) {
    && (NoDescription(columns, header, lower, code, channelType) ==> d == Some("valid"))
    && forall k :: 0 <= k < |columns| && LastWithDescription(columns, header, lower, code, channelType, k) ==>
         d == TextIn(row, columns[k].index + 1)
  }

  function TextIn(row: Row, at: nat): Option<string> {
    if at < |row| && Trim(row[at]) != "" then Some(Trim(row[at])) else None
  }

  lemma OneLastDescription(columns: seq<Column>, header: Row, lower: string -> string, code: string,
                           channelType: string,
                           k: nat, l: nat)
    requires k < |columns| && l < |columns|
    requires LastWithDescription(columns, header, lower, code, channelType, k)
    requires LastWithDescription(columns, header, lower, code, channelType, l)
    ensures k == l
  {}

  lemma DescriptionIs(columns: seq<Column>, header: Row, lower: string -> string, code: string, channelType: string,
                      row: Row)
    returns (at: Option<nat>)
    ensures var described := LastDescribed(columns, header, lower, code, channelType);
            at == if described.Some? then Some(described.value.index + 1) else None
    ensures DescriptionTells(Description(row, at), columns, header, lower, code, channelType, row)
  {
    LastDescribedIs(columns, header, lower, code, channelType);
    var described := LastDescribed(columns, header, lower, code, channelType);
    at := if described.Some? then Some(described.value.index + 1) else None;
    if described.Some? {
      var k :| 0 <= k < |columns| && columns[k] == described.value
               && LastWithDescription(columns, header, lower, code, channelType, k);
      forall l | 0 <= l < |columns| && LastWithDescription(columns, header, lower, code, channelType, l)
        ensures l == k {
        OneLastDescription(columns, header, lower, code, channelType, k, l);
      }
    }
  }

  predicate NumbersTell(v: Value, reading: Option<real>, raw: Option<real>) {
    FirstOf(v.reading, reading, raw) && FirstOf(v.raw, raw, reading)
  }

  predicate UnitsTell(v: Value, unit: string, rawUnit: string) {
    FirstText(v.unit, unit, rawUnit) && FirstText(v.rawUnit, rawUnit, unit)
  }

  lemma CellIs(c: Option<Column>, row: Row, ctx: Context)
    ensures Cell(row, IndexIn(c), ctx) == NumberUnder(c, row, ctx.number)
  {}

  /**
   What a value tells, in terms of the last columns of its kind: each of reading and raw value
   stands in for the other.
   */
  predicate ValueTells(v: Value, id: nat, channelType: string, code: string, columns: seq<Column>, header: Row,
                       lower: string -> string, row: Row, ctx: Context) {
    var reading, raw := LastOf(columns, code, channelType, Reading), LastOf(columns, code, channelType, RawReading);
    && v.channelId == id && v.channelType == channelType
    && NumbersTell(v, NumberUnder(reading, row, ctx.number), NumberUnder(raw, row, ctx.number))
    && UnitsTell(v, UnitIn(reading), UnitIn(raw))
    && DescriptionTells(v.description, columns, header, lower, code, channelType, row)
  }

  /** The sensor's group is the label in the file's name, unless that is its own code. */
  predicate GroupTells(group: string, code: string, tag: Option<string>) {
    if tag in {None, Some(code)} then group == "" else Some(group) == tag
  }

  predicate ValuesTell(values: seq<Value>, types: seq<string>, code: string, columns: seq<Column>, header: Row,
                       lower: string -> string, row: Row, ctx: Context) {
    && |values| == |types|
    && forall id :: 0 <= id < |types| ==>
         ValueTells(values[id], id, types[id], code, columns, header, lower, row, ctx)
  }

  /** A telemetry tells of its sensor in this row, channel by channel, in the order of the header. */
  predicate Tells(t: Telemetry, ts: int, columns: seq<Column>, header: Row, lower: string -> string, row: Row,
                  ctx: Context) {
    var types := Firsts(TypesOf(columns, t.code));
    && t.ts == ts && t.sensorId == ctx.indexFor(t.code) && GroupTells(t.group, t.code, ctx.sensorLabel)
    && ValuesTell(t.values, types, t.code, columns, header, lower, row, ctx)
  }

  lemma NumbersOfTell(channel: Channel, id: nat, row: Row, ctx: Context) returns (v: Value)
    ensures v == ValueOf(channel, id, row, ctx)
    ensures NumbersTell(v, Cell(row, channel.reading, ctx), Cell(row, channel.raw, ctx))
    ensures UnitsTell(v, channel.unit, channel.rawUnit) && v.channelId == id && v.channelType == channel.channelType
    ensures v.description == Description(row, channel.description)
  {
    v := ValueOf(channel, id, row, ctx);
  }

  lemma SummaryParts(columns: seq<Column>, header: Row, lower: string -> string, code: string, channel: Channel)
    requires Summary(columns, header, lower, code, channel.channelType) == Some(channel)
    ensures channel.reading == IndexIn(LastOf(columns, code, channel.channelType, Reading))
    ensures channel.raw == IndexIn(LastOf(columns, code, channel.channelType, RawReading))
    ensures channel.unit == UnitIn(LastOf(columns, code, channel.channelType, Reading))
    ensures channel.rawUnit == UnitIn(LastOf(columns, code, channel.channelType, RawReading))
    ensures var described := LastDescribed(columns, header, lower, code, channel.channelType);
            channel.description == if described.Some? then Some(described.value.index + 1) else None
  {}

  /** The parts of a value, put together. */
  lemma ValueBy(v: Value, id: nat, channelType: string, code: string, columns: seq<Column>, header: Row,
                lower: string -> string, row: Row, ctx: Context, reading: Option<Column>, raw: Option<Column>)
    requires reading == LastOf(columns, code, channelType, Reading)
             && raw == LastOf(columns, code, channelType, RawReading)
    requires v.channelId == id && v.channelType == channelType
    requires NumbersTell(v, NumberUnder(reading, row, ctx.number), NumberUnder(raw, row, ctx.number))
    requires UnitsTell(v, UnitIn(reading), UnitIn(raw))
    requires DescriptionTells(v.description, columns, header, lower, code, channelType, row)
    ensures ValueTells(v, id, channelType, code, columns, header, lower, row, ctx)
  {}

  lemma ValueOfTells(channel: Channel, id: nat, code: string, columns: seq<Column>, header: Row,
                     lower: string -> string, row: Row, ctx: Context, reading: Option<Column>, raw: Option<Column>)
    requires reading == LastOf(columns, code, channel.channelType, Reading)
    requires raw == LastOf(columns, code, channel.channelType, RawReading)
    requires channel.reading == IndexIn(reading) && channel.raw == IndexIn(raw)
    requires channel.unit == UnitIn(reading) && channel.rawUnit == UnitIn(raw)
    requires DescriptionTells(Description(row, channel.description), columns, header, lower, code, channel.channelType,
                              row)
    ensures ValueTells(ValueOf(channel, id, row, ctx), id, channel.channelType, code, columns, header, lower, row, ctx)
  {
    var v := NumbersOfTell(channel, id, row, ctx);
    CellIs(reading, row, ctx);
    CellIs(raw, row, ctx);
    ValueBy(v, id, channel.channelType, code, columns, header, lower, row, ctx, reading, raw);
  }

  lemma SummaryTells(channel: Channel, id: nat, code: string, columns: seq<Column>, header: Row,
                     lower: string -> string, row: Row, ctx: Context)
    requires Summary(columns, header, lower, code, channel.channelType) == Some(channel)
    ensures ValueTells(ValueOf(channel, id, row, ctx), id, channel.channelType, code, columns, header, lower, row, ctx)
  {
    var channelType := channel.channelType;
    SummaryParts(columns, header, lower, code, channel);
    var at := DescriptionIs(columns, header, lower, code, channelType, row);
    ValueOfTells(channel, id, code, columns, header, lower, row, ctx, LastOf(columns, code, channelType, Reading),
                 LastOf(columns, code, channelType, RawReading));
  }

  lemma SensorTells(columns: seq<Column>, header: Row, lower: string -> string, j: nat, ts: int, row: Row, ctx: Context)
    returns (t: Telemetry)
    requires j < |Group(columns, header, lower)|
    ensures t == TelemetryOf(Group(columns, header, lower)[j], ts, row, ctx)
    ensures j < |Firsts(CodesOf(columns))| && t.code == Firsts(CodesOf(columns))[j]
    ensures Tells(t, ts, columns, header, lower, row, ctx)
  {
    t := TelemetryOf(Group(columns, header, lower)[j], ts, row, ctx);
    var sensors := Group(columns, header, lower);
    var code, channels := sensors[j].code, sensors[j].channels;
    CodesInOrder(columns, header, lower);
    FirstsDistinct(CodesOf(columns));
    IndexOfIs(Codes(sensors), code, j);
    TypesInOrder(columns, header, lower, code);
    forall id | 0 <= id < |channels|
      ensures ValueTells(ValueOf(channels[id], id, row, ctx), id, channels[id].channelType, code, columns, header,
                         lower,
                         row, ctx)
    {
      FoundInPlace(columns, header, lower, j, id);
      SummaryTells(channels[id], id, code, columns, header, lower, row, ctx);
    }
  }

  /** How many rows before row `i` are dated. */
  function DatedBefore(data: seq<Row>, ctx: Context, i: nat): int
    requires i <= |data|
  {
    i - |Skipped(data[..i], ctx)|
  }

  lemma SensorsBefore(sensors: seq<Sensor>, n: nat, data: seq<Row>, ctx: Context, i: nat)
    requires i <= |data| && |sensors| == n
    ensures |Telemetries(sensors, data[..i], ctx)| == n * DatedBefore(data, ctx, i)
  {
    RowsAccounted(sensors, data[..i], ctx);
  }

  /** The `j`-th code's telemetry of a row stands at `at`, and tells all there is. */
  ghost predicate StandsAt(all: seq<Telemetry>, at: nat, j: nat, ts: int, columns: seq<Column>, header: Row,
                           lower: string -> string, row: Row, ctx: Context) {
    && at < |all| && j < |Firsts(CodesOf(columns))| && all[at].code == Firsts(CodesOf(columns))[j]
    && Tells(all[at], ts, columns, header, lower, row, ctx)
  }

  lemma TelemetryThere(sensors: seq<Sensor>, data: seq<Row>, ctx: Context, i: nat, j: nat, at: nat, t: Telemetry)
    requires i < |data| && Timestamp(data[i], ctx).Some? && j < |sensors|
    requires at == |Telemetries(sensors, data[..i], ctx)| + j
    requires t == TelemetryOf(sensors[j], Timestamp(data[i], ctx).value, data[i], ctx)
    ensures at < |Telemetries(sensors, data, ctx)| && Telemetries(sensors, data, ctx)[at] == t
  {
    TelemetryAt(sensors, data, ctx, i, j);
  }

  lemma StandsThere(all: seq<Telemetry>, at: nat, t: Telemetry, j: nat, ts: int, columns: seq<Column>, header: Row,
                    lower: string -> string, row: Row, ctx: Context)
    requires at < |all| && all[at] == t && j < |Firsts(CodesOf(columns))| && t.code == Firsts(CodesOf(columns))[j]
    requires Tells(t, ts, columns, header, lower, row, ctx)
    ensures StandsAt(all, at, j, ts, columns, header, lower, row, ctx)
  {}

  /**
   Everything a file's rows become: for each dated row, in order, one telemetry for each sensor code,
   in order of first appearance, and what it tells. Nothing else is there (`RowsAccounted`).
   */
  lemma TelemetryTells(columns: seq<Column>, header: Row, lower: string -> string, data: seq<Row>, ctx: Context,
                       i: nat, j: nat) returns (at: nat)
    requires i < |data| && Timestamp(data[i], ctx).Some? && j < |Firsts(CodesOf(columns))|
    ensures at == |Firsts(CodesOf(columns))| * DatedBefore(data, ctx, i) + j
    ensures StandsAt(Telemetries(Group(columns, header, lower), data, ctx), at, j, Timestamp(data[i], ctx).value,
                     columns, header, lower, data[i], ctx)
  {
    var sensors := Group(columns, header, lower);
    CodesInOrder(columns, header, lower);
    SensorsBefore(sensors, |Firsts(CodesOf(columns))|, data, ctx, i);
    at := |Telemetries(sensors, data[..i], ctx)| + j;
    var t := SensorTells(columns, header, lower, j, Timestamp(data[i], ctx).value, data[i], ctx);
    TelemetryThere(sensors, data, ctx, i, j, at, t);
    StandsThere(Telemetries(sensors, data, ctx), at, t, j, Timestamp(data[i], ctx).value, columns, header, lower,
                data[i],
                ctx);
  }

  // ─── The whole file ────────────────────────────────────────────────────────────────

  /** What the caller supplies: known node ids, the zone of headers without one, and the languages' own conversions. */
  datatype Options = Options(known: seq<string>, lower: string -> string, number: string -> Option<real>,
                             indexFor: string -> int, defaultOffset: int)

  /** The ways to throw are kept apart; files of the other types are not part of this model. */
  datatype Conversion =
    | NotAckcio
    | EmptyFile
    | NoReadingColumns
    | AnotherType
    | Converted(name: FileName.Parsed, telemetries: seq<Telemetry>, rowsTotal: nat, skipped: seq<nat>,
                offsetMinutes: int)

  function TrimAll(row: Row): Row {
    seq(|row|, i requires 0 <= i < |row| => Trim(row[i]))
  }

  function OffsetOf(header: Row, opts: Options): int {
    var named := if header == [] then None else Calendar.OffsetFromHeader(header[0]);
    if named.Some? then named.value else opts.defaultOffset
  }

  function ContextOf(name: FileName.Parsed, offset: int, opts: Options): Context {
    Context(opts.number, opts.indexFor, name.sensorLabel, value => Calendar.ParseLocalDateTime(value, offset))
  }

  function ConvertRows(name: FileName.Parsed, rows: Csv.Table, opts: Options): Conversion {
    if rows == [] then EmptyFile
    else if !FileName.IsSensorFile(name.fileType) then AnotherType
    else
      var header := TrimAll(rows[0]);
      var ctx := ContextOf(name, OffsetOf(header, opts), opts);
      if Columns(header) == [] then NoReadingColumns
      else Converted(name, Telemetries(Group(Columns(header), header, opts.lower), rows[1..], ctx), |rows| - 1,
                     Skipped(rows[1..], ctx), OffsetOf(header, opts))
  }

  function Convert(fileName: string, text: string, opts: Options): Conversion {
    match FileName.ParseFileName(fileName, opts.known, opts.lower)
    case None => NotAckcio
    case Some(name) => ConvertRows(name, Csv.Parse(text), opts)
  }

  method CsvToEnvelope(fileName: string, text: string, opts: Options) returns (conversion: Conversion)
    ensures conversion == Convert(fileName, text, opts)
  {
    var name := FileName.ParseFileName(fileName, opts.known, opts.lower);
    if name.None? {
      return NotAckcio;
    }
    var rows := Csv.ParseCsv(text);
    if rows == [] {
      return EmptyFile;
    }
    if !FileName.IsSensorFile(name.value.fileType) {
      return AnotherType;
    }
    var header := TrimAll(rows[0]);
    var offset := OffsetOf(header, opts);
    var columns := Columns(header);
    if columns == [] {
      return NoReadingColumns;
    }
    var sensors := GroupColumns(columns, header, opts.lower);
    var telemetries, skipped := ReadRows(sensors, rows[1..], ContextOf(name.value, offset, opts));
    return Converted(name.value, telemetries, |rows| - 1, skipped, offset);
  }

  /** The header that was read, and the context it was read in. */
  function HeaderOf(text: string): Row {
    if Csv.Parse(text) == [] then [] else TrimAll(Csv.Parse(text)[0])
  }

  function DataOf(text: string): seq<Row> {
    if Csv.Parse(text) == [] then [] else Csv.Parse(text)[1..]
  }

  /**
   What a conversion is, for any file: what was read from its name, its rows counted, the unreadable
   ones skipped, and the zone its dates were read in, which is the caller's where the header names none.
   */
  lemma ConversionIs(fileName: string, text: string, opts: Options)
    requires Convert(fileName, text, opts).Converted?
    ensures var conversion := Convert(fileName, text, opts);
            && FileName.ParseFileName(fileName, opts.known, opts.lower) == Some(conversion.name)
            && Csv.Parse(text) != [] && conversion.rowsTotal == |DataOf(text)|
            && conversion.skipped == Skipped(DataOf(text), ContextOf(conversion.name, conversion.offsetMinutes, opts))
            && conversion.telemetries
               == Telemetries(Group(Columns(HeaderOf(text)), HeaderOf(text), opts.lower), DataOf(text),
                              ContextOf(conversion.name, conversion.offsetMinutes, opts))
    ensures HeaderOf(text) == [] || '(' !in HeaderOf(text)[0] ==>
              Convert(fileName, text, opts).offsetMinutes == opts.defaultOffset
  {
    var header := HeaderOf(text);
    if header != [] && '(' !in header[0] {
      Calendar.NoZoneNamed(header[0]);
    }
  }

  /** And its telemetries: for each dated row and each sensor code, in its place, one that tells all there is. */
  lemma ConversionTells(fileName: string, text: string, opts: Options, i: nat, j: nat) returns (at: nat)
    requires Convert(fileName, text, opts).Converted? && i < |DataOf(text)|
    requires Calendar.ParseLocalDateTime(if DataOf(text)[i] == [] then "" else DataOf(text)[i][0],
                                         Convert(fileName, text, opts).offsetMinutes).Some?
    requires j < |Firsts(CodesOf(Columns(HeaderOf(text))))|
    ensures var conversion, data := Convert(fileName, text, opts), DataOf(text);
            var ctx := ContextOf(conversion.name, conversion.offsetMinutes, opts);
            && at == |Firsts(CodesOf(Columns(HeaderOf(text))))| * DatedBefore(data, ctx, i) + j
            && Timestamp(data[i], ctx).Some?
            && StandsAt(conversion.telemetries, at, j, Timestamp(data[i], ctx).value, Columns(HeaderOf(text)),
                        HeaderOf(text), opts.lower, data[i], ctx)
  {
    var conversion := Convert(fileName, text, opts);
    ConversionIs(fileName, text, opts);
    var ctx := ContextOf(conversion.name, conversion.offsetMinutes, opts);
    at := TelemetryTells(Columns(HeaderOf(text)), HeaderOf(text), opts.lower, DataOf(text), ctx, i, j);
  }

  /** The key parts of the reading a value of a telemetry becomes. */
  function PartsOf(gateway: string, node: string, t: Telemetry, v: Value, isError: bool): EventId.Parts {
    EventId.Parts(gateway, node, t.sensorId, v.channelId, t.ts, isError)
  }

  /**
   Which readings of one file are taken for one another: those of one instant, one channel id and one
   sensor index. So where `indexFor` tells two codes apart their readings never are.
   */
  lemma ReadingsApart(fileName: string, text: string, opts: Options, gateway: string, node: string, isError: bool,
                      a: nat, b: nat, k: nat, l: nat)
    requires Convert(fileName, text, opts).Converted? && EventId.IsGatewayKey(gateway)
    requires var all := Convert(fileName, text, opts).telemetries;
             a < |all| && b < |all| && k < |all[a].values| && l < |all[b].values|
    ensures var t, u := Convert(fileName, text, opts).telemetries[a], Convert(fileName, text, opts).telemetries[b];
            EventId.ReadingEventId(PartsOf(gateway, node, t, t.values[k], isError))
            == EventId.ReadingEventId(PartsOf(gateway, node, u, u.values[l], isError))
            <==> opts.indexFor(t.code) == opts.indexFor(u.code) && k == l && t.ts == u.ts
  {
    var conversion := Convert(fileName, text, opts);
    ConversionIs(fileName, text, opts);
    var ctx := ContextOf(conversion.name, conversion.offsetMinutes, opts);
    var sensors := Group(Columns(HeaderOf(text)), HeaderOf(text), opts.lower);
    IndexAt(sensors, DataOf(text), ctx, a, k);
    IndexAt(sensors, DataOf(text), ctx, b, l);
    var t, u := conversion.telemetries[a], conversion.telemetries[b];
    EventId.SameEventId(PartsOf(gateway, node, t, t.values[k], isError),
                        PartsOf(gateway, node, u, u.values[l], isError));
  }

  lemma IndexAt(sensors: seq<Sensor>, data: seq<Row>, ctx: Context, at: nat, id: nat)
    requires at < |Telemetries(sensors, data, ctx)| && id < |Telemetries(sensors, data, ctx)[at].values|
    ensures var t := Telemetries(sensors, data, ctx)[at];
            t.sensorId == ctx.indexFor(t.code) && t.values[id].channelId == id
  {
    var i, j := RowByRowFrom(Reader(sensors, ctx), data, at);
    assert Reader(sensors, ctx)(data[i]) == OfRow(sensors, data[i], ctx);
  }

  /** A faithful table, once written, is converted as the very table it was. */
  lemma WrittenFileConverts(fileName: string, table: Csv.Table, end: Csv.LineEnd, ended: bool, opts: Options)
    requires Csv.Faithful(table)
    ensures Convert(fileName, Csv.Written(table, end, ended), opts)
            == match FileName.ParseFileName(fileName, opts.known, opts.lower)
               case None => NotAckcio
               case Some(name) => ConvertRows(name, table, opts)
  {
    Csv.FileRoundTrip(table, end, ended);
  }

  // ─── From the gateway's disk to the push ───────────────────────────────────────────

  /** A sensor file as the gateway writes it: dated rows under a header that may name its zone. */
  datatype SensorFile = SensorFile(name: FileName.Parts, before: string, zone: Option<Calendar.Zone>,
                                   style: Calendar.ZoneStyle, after: string,
                                   columns: seq<Column>, dates: seq<string>, cells: seq<seq<string>>,
                                   end: Csv.LineEnd, ended: bool)

  function Headers(first: string, columns: seq<Column>): Row {
    if columns == [] then [first] else Headers(first, columns[..|columns| - 1]) + [PrintHeader(columns[|columns| - 1])]
  }

  predicate FileFits(f: SensorFile) {
    (f.zone.Some? ==> Calendar.ZoneFits(f.zone.value)) && |f.dates| == |f.cells|
  }

  function DataRow(f: SensorFile, i: nat): Row
    requires FileFits(f) && i < |f.dates|
  {
    [f.dates[i]] + f.cells[i]
  }

  function ZoneText(f: SensorFile): string
    requires FileFits(f)
  {
    if f.zone.Some? then Calendar.ZoneHeader(f.before, f.zone.value, f.style, f.after) else f.before
  }

  /** The file's own zone, in minutes east, or else the caller's. */
  function OffsetIn(f: SensorFile, opts: Options): int {
    if f.zone.Some? then Calendar.MinutesEast(f.zone.value) else opts.defaultOffset
  }

  function HeaderRow(f: SensorFile): Row
    requires FileFits(f)
  {
    Headers(ZoneText(f), f.columns)
  }

  function Table(f: SensorFile): Csv.Table
    requires FileFits(f)
  {
    [HeaderRow(f)] + seq(|f.dates|, i requires 0 <= i < |f.dates| => DataRow(f, i))
  }

  function TextOf(f: SensorFile): string
    requires FileFits(f)
  {
    Csv.Written(Table(f), f.end, f.ended)
  }

  predicate SafeInPlace(columns: seq<Column>) {
    forall k :: 0 <= k < |columns| ==> SafeAt(columns[k], k + 1)
  }

  predicate SafeAt(c: Column, at: nat) {
    c.index == at && HeaderSafe(c)
  }

  /**
   What can be checked before writing: every column header is safe and in its place, and the zone
   header needs no trimming.
   */
  predicate HeaderFits(f: SensorFile)
    requires FileFits(f)
  {
    '(' !in f.before && Trimmed(ZoneText(f)) && f.columns != [] && SafeInPlace(f.columns)
  }

  /** And that the name's parts are safe. */
  ghost predicate NameFits(p: FileName.Parts, opts: Options) {
    && FileName.IsSensorFile(p.fileType) && FileName.TellsTypesApart(opts.lower)
    && FileName.NameSafe(p, opts.known, opts.lower)
  }

  ghost predicate FileReady(f: SensorFile, opts: Options) {
    FileFits(f) && HeaderFits(f) && NameFits(f.name, opts) && Csv.Faithful(Table(f))
  }

  /** Cell `k` of row `i` is a number, and no later column supersedes its column. */
  predicate HoldsNumber(f: SensorFile, opts: Options, i: nat, k: nat) {
    && i < |f.cells| && k < |f.columns| && k < |f.cells[i]| && !Superseded(f.columns, k)
    && Trim(f.cells[i][k]) != "" && opts.number(Trim(f.cells[i][k])).Some?
  }

  /** The push holds that number, at this instant, for its sensor, channel, type and kind. */
  predicate Arrives(conversion: Conversion, f: SensorFile, opts: Options, i: nat, k: nat, instant: int)
    requires HoldsNumber(f, opts, i, k)
  {
    var c := f.columns[k];
    && conversion.Converted?
    && Reported(conversion.telemetries, Some(instant), opts.indexFor(c.code), c.code,
                ChannelId(f.columns, c.code, c.channelType), c.channelType, c.kind, opts.number(Trim(f.cells[i][k])))
  }

  lemma OneColumn(header: Row, c: Column)
    requires header != [] && HeaderSafe(c) && c.index == |header|
    ensures ColumnAt(header + [PrintHeader(c)], |header|) == [c]
  {
    HeaderRoundTrip(c);
  }

  lemma ColumnsMore(header: Row, text: string)
    requires header != []
    ensures Columns(header + [text]) == Columns(header) + ColumnAt(header + [text], |header|)
  {
    assert (header + [text])[..|header|] == header;
  }

  lemma HeadersStep(header: Row, columns: seq<Column>, c: Column)
    requires header != [] && Columns(header) == columns && HeaderSafe(c) && c.index == |header|
    ensures Columns(header + [PrintHeader(c)]) == columns + [c]
  {
    OneColumn(header, c);
    ColumnsMore(header, PrintHeader(c));
  }

  lemma SafeInit(columns: seq<Column>)
    requires columns != [] && SafeInPlace(columns)
    ensures var n := |columns| - 1;
            SafeInPlace(columns[..n]) && SafeAt(columns[n], n + 1) && columns == columns[..n] + [columns[n]]
  {}

  lemma {:induction false} HeadersRead(first: string, columns: seq<Column>)
    requires SafeInPlace(columns)
    ensures var header := Headers(first, columns);
            |header| == |columns| + 1 && header[0] == first && Columns(header) == columns
  {
    if columns != [] {
      var n := |columns| - 1;
      SafeInit(columns);
      HeadersRead(first, columns[..n]);
      HeadersStep(Headers(first, columns[..n]), columns[..n], columns[n]);
    }
  }

  predicate RowTrimmed(row: Row) {
    forall k :: 0 <= k < |row| ==> Trim(row[k]) == row[k]
  }

  lemma RowTrimmedSnoc(row: Row, text: string)
    requires RowTrimmed(row) && Trim(text) == text
    ensures RowTrimmed(row + [text])
  {}

  lemma {:induction false} HeadersTrimmed(first: string, columns: seq<Column>)
    requires Trim(first) == first && SafeInPlace(columns)
    ensures RowTrimmed(Headers(first, columns))
  {
    if columns != [] {
      var n := |columns| - 1;
      SafeInit(columns);
      HeadersTrimmed(first, columns[..n]);
      HeaderTrims(columns[n]);
      RowTrimmedSnoc(Headers(first, columns[..n]), PrintHeader(columns[n]));
    }
  }

  lemma TrimAllNothing(row: Row)
    requires RowTrimmed(row)
    ensures TrimAll(row) == row
  {}

  lemma HeaderUntouched(f: SensorFile)
    requires FileFits(f) && HeaderFits(f)
    ensures TrimAll(HeaderRow(f)) == HeaderRow(f)
  {
    TrimNothing(ZoneText(f));
    HeadersTrimmed(ZoneText(f), f.columns);
    TrimAllNothing(HeaderRow(f));
  }

  lemma ZoneOfFile(f: SensorFile, opts: Options)
    requires FileFits(f) && HeaderFits(f)
    ensures OffsetOf(HeaderRow(f), opts) == OffsetIn(f, opts)
  {
    HeadersRead(ZoneText(f), f.columns);
    if f.zone.Some? {
      Calendar.HeaderNamesZone(f.before, f.zone.value, f.style, f.after);
    } else {
      Calendar.NoZoneNamed(f.before);
    }
  }

  /** The telemetries of a file, with everything that was written read back. */
  function TelemetriesOf(f: SensorFile, opts: Options): seq<Telemetry>
    requires FileFits(f)
  {
    var ctx := ContextOf(FileName.Expected(f.name), OffsetIn(f, opts), opts);
    Telemetries(Group(f.columns, HeaderRow(f), opts.lower), Table(f)[1..], ctx)
  }

  lemma FileConverts(f: SensorFile, opts: Options)
    requires FileReady(f, opts)
    ensures var conversion := Convert(FileName.Print(f.name), TextOf(f), opts);
            conversion.Converted? && conversion.name == FileName.Expected(f.name)
            && conversion.telemetries == TelemetriesOf(f, opts) && conversion.rowsTotal == |f.dates|
            && conversion.offsetMinutes == OffsetIn(f, opts)
  {
    WrittenFileConverts(FileName.Print(f.name), Table(f), f.end, f.ended, opts);
    FileName.PrintParse(f.name, opts.known, opts.lower);
    HeaderUntouched(f);
    HeadersRead(ZoneText(f), f.columns);
    ZoneOfFile(f, opts);
  }

  lemma WrittenCell(f: SensorFile, i: nat, k: nat)
    requires FileFits(f) && i < |f.cells| && k < |f.cells[i]|
    ensures i < |Table(f)[1..]| && Table(f)[1..][i] == DataRow(f, i)
    ensures DataRow(f, i)[0] == f.dates[i] && k + 1 < |DataRow(f, i)| && DataRow(f, i)[k + 1] == f.cells[i][k]
  {}

  lemma CellInPlace(header: Row, columns: seq<Column>, lower: string -> string, data: seq<Row>, ctx: Context, i: nat,
                    k: nat, text: string)
    requires columns == Columns(header) && k < |columns| && columns[k].index == k + 1 && !Superseded(columns, k)
    requires i < |data| && k + 1 < |data[i]| && data[i][k + 1] == text && Timestamp(data[i], ctx).Some?
    requires Trim(text) != "" && ctx.number(Trim(text)).Some?
    ensures var c := columns[k];
            Reported(Telemetries(Group(columns, header, lower), data, ctx), Timestamp(data[i], ctx),
                     ctx.indexFor(c.code), c.code, ChannelId(columns, c.code, c.channelType), c.channelType, c.kind,
                     ctx.number(Trim(text)))
  {
    CellArrives(header, lower, data, ctx, i, k);
  }

  /**
   A number under a safe column header that nothing supersedes, in a file whose name comes back and
   whose table is faithful, arrives in the push at the instant its row's date is read as in the
   file's own zone, for its sensor, channel and kind.
   */
  lemma CellOfFile(f: SensorFile, opts: Options, i: nat, k: nat, instant: int)
    requires FileReady(f, opts)
    requires HoldsNumber(f, opts, i, k)
    requires Calendar.ParseLocalDateTime(f.dates[i], OffsetIn(f, opts)) == Some(instant)
    ensures Arrives(Convert(FileName.Print(f.name), TextOf(f), opts), f, opts, i, k, instant)
  {
    FileConverts(f, opts);
    HeadersRead(ZoneText(f), f.columns);
    WrittenCell(f, i, k);
    var ctx := ContextOf(FileName.Expected(f.name), OffsetIn(f, opts), opts);
    assert ctx.dateOf(f.dates[i]) == Some(instant);
    CellInPlace(HeaderRow(f), f.columns, opts.lower, Table(f)[1..], ctx, i, k, f.cells[i][k]);
  }

  lemma DateRead(text: string, t: Calendar.DateTime, offset: int) returns (instant: int)
    requires Calendar.ReadDate(text) == Some(t) && Calendar.Accepted(t)
    ensures instant == Calendar.DateUtcSeconds(t) - 60 * offset
            && Calendar.ParseLocalDateTime(text, offset) == Some(instant)
  {
    Calendar.InstantOf(text, t, offset);
    instant := Calendar.DateUtcSeconds(t) - 60 * offset;
  }

  /** End to end: with a date that is read as `t`, that instant is the UTC instant `t` denotes in the file's zone. */
  lemma NumberArrives(f: SensorFile, opts: Options, i: nat, k: nat, t: Calendar.DateTime) returns (instant: int)
    requires FileReady(f, opts) && HoldsNumber(f, opts, i, k)
    requires Calendar.ReadDate(f.dates[i]) == Some(t) && Calendar.Accepted(t)
    ensures instant == Calendar.DateUtcSeconds(t) - 60 * OffsetIn(f, opts)
    ensures Arrives(Convert(FileName.Print(f.name), TextOf(f), opts), f, opts, i, k, instant)
  {
    instant := DateRead(f.dates[i], t, OffsetIn(f, opts));
    CellOfFile(f, opts, i, k, instant);
  }

  // ─── Which instants are stored ─────────────────────────────────────────────────────

  const MOST_SECONDS := 100000000000

  /**
   What the push handler makes of a telemetry's time: none for instants not after 1970, and large
   ones are taken as milliseconds.
   */
  function ReadEpoch(n: int): Option<int> {
    if n <= 0 then None else if n > MOST_SECONDS then Some(n / 1000) else Some(n)
  }

  lemma ReadEpochKeeps(n: int)
    ensures ReadEpoch(n) == Some(n) <==> 0 < n <= MOST_SECONDS
    ensures ReadEpoch(n).None? <==> n <= 0
    ensures n > MOST_SECONDS ==> 1000 * ReadEpoch(n).value <= n < 1000 * ReadEpoch(n).value + 1000
  {}

  const FIRST_STORED := Calendar.DateTime(1970, 1, 1, 0, 0, 1)
  const LAST_STORED := Calendar.DateTime(5138, 11, 16, 9, 46, 40)

  lemma FirstStored()
    ensures Calendar.Accepted(FIRST_STORED) && Calendar.Rolled(FIRST_STORED) == FIRST_STORED
    ensures Calendar.DateUtcSeconds(FIRST_STORED) == 1
  {}

  /** Ten months of a year that is no leap year. */
  lemma UntilNovember(y: int)
    requires !Calendar.Leap(y)
    ensures Calendar.DaysBefore(y, 11) == 304
  {
    assert Calendar.DaysBefore(y, 3) == 59;
    assert Calendar.DaysBefore(y, 5) == 120;
    assert Calendar.DaysBefore(y, 7) == 181;
    assert Calendar.DaysBefore(y, 9) == 243;
  }

  lemma LastDay()
    ensures Calendar.DayNumber(5138, 11, 16) == 1157407
  {
    UntilNovember(5138);
    assert Calendar.DayFromYear(5138) == 1157088;
  }

  lemma LastStored()
    ensures Calendar.Accepted(LAST_STORED) && Calendar.Rolled(LAST_STORED) == LAST_STORED
    ensures Calendar.DateUtcSeconds(LAST_STORED) == MOST_SECONDS
  {
    LastDay();
  }

  lemma InUtc(t: Calendar.DateTime)
    requires Calendar.Accepted(t)
    ensures Calendar.DateUtcSeconds(t) >= 1 <==> !Calendar.Earlier(Calendar.Rolled(t), FIRST_STORED)
    ensures Calendar.DateUtcSeconds(t) <= MOST_SECONDS <==> !Calendar.Earlier(LAST_STORED, Calendar.Rolled(t))
  {
    FirstStored();
    LastStored();
    Calendar.UtcBetween(t, FIRST_STORED, LAST_STORED, 1, MOST_SECONDS);
  }

  /**
   A converted date is stored as the instant it denotes exactly up to the hundred thousand millionth
   second, and of dates in UTC those from the first second of 1970 to 16 November 5138, 9:46:40, as
   they are read. Up to 1970 a reading is dropped; after 5138 it is stored under a far earlier time.
   */
  lemma StoredAsConverted(t: Calendar.DateTime, offset: int)
    requires Calendar.Accepted(t)
    ensures var instant := Calendar.DateUtcSeconds(t) - 60 * offset;
            && (ReadEpoch(instant) == Some(instant) <==> 0 < instant <= MOST_SECONDS)
            && (ReadEpoch(instant).None? <==> instant <= 0)
            && (instant > MOST_SECONDS
                ==> 1000 * ReadEpoch(instant).value <= instant < 1000 * ReadEpoch(instant).value + 1000)
    ensures ReadEpoch(Calendar.DateUtcSeconds(t)) == Some(Calendar.DateUtcSeconds(t)) <==>
              !Calendar.Earlier(Calendar.Rolled(t), FIRST_STORED) && !Calendar.Earlier(LAST_STORED, Calendar.Rolled(t))
  {
    ReadEpochKeeps(Calendar.DateUtcSeconds(t) - 60 * offset);
    ReadEpochKeeps(Calendar.DateUtcSeconds(t));
    InUtc(t);
  }
}
