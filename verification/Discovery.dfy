/**
 What a push's names resolve to (`ackcio.service.ts`): a node becomes a device of its gateway and
 a channel becomes a sensor, created the first time they report. One push runs at a time per
 gateway, so each resolution is one step; devices may also be registered by hand and retired,
 sensors dropped. Serials carry the schema's unique index and its 255 characters.
 */
module Discovery {
  import opened Wrappers
  import opened Joined

  datatype Gateway = Gateway(tenant: int, key: string)

  /** `gatewayText` is the identifier typed in when the device was registered. */
  datatype Device = Device(tenant: int, serial: string, gateway: Option<int>, gatewayText: string, retired: bool)

  type Channel = (nat, string)

  datatype State = State(lower: string -> string, gateways: map<int, Gateway>, devices: map<nat, Device>,
                         nextDevice: nat,
                         channels: map<Channel, nat>, sensors: set<nat>, nextSensor: nat)

  /** `plainFirst`: which of two matching devices the unordered query returns first. */
  datatype Op =
    | Node(gateway: int, node: string, plainFirst: bool)
    | Register(tenant: int, serial: string, gatewayText: string)
    | Retire(device: nat)
    | Reading(device: nat, sensorIndex: int, channelId: int)
    | DropSensor(sensor: nat)

  const SERIAL_LENGTH := 255

  function Cut(serial: string): (cut: string)
    ensures |cut| <= SERIAL_LENGTH
    ensures |serial| <= SERIAL_LENGTH ==> cut == serial
  {
    if |serial| <= SERIAL_LENGTH then serial else serial[..SERIAL_LENGTH]
  }

  function Prefixed(g: Gateway, node: string): string {
    g.key + ":" + node
  }

  // ─── Specification ─────────────────────────────────────────────────────────────────

  function BySerial(devices: map<nat, Device>, serial: string, n: nat): (found: Option<nat>)
    ensures found.Some? ==> found.value < n && found.value in devices && devices[found.value].serial == serial
    ensures found.None? ==> forall d: nat :: d < n && d in devices ==> devices[d].serial != serial
  {
    if n == 0 then None
    else if n - 1 in devices && devices[n - 1].serial == serial then Some(n - 1)
    else BySerial(devices, serial, n - 1)
  }

  function Holder(s: State, serial: string): Option<nat> {
    BySerial(s.devices, serial, s.nextDevice)
  }

  /** The live device of this gateway that has this serial. */
  function Linked(s: State, gateway: int, serial: string): (found: Option<nat>)
    ensures found.Some? ==> found == Holder(s, serial)
  {
    var d :- Holder(s, serial);
    if s.devices[d].gateway == Some(gateway) && !s.devices[d].retired then Some(d) else None
  }

  /** A live device registered by hand for this gateway and not linked to any. */
  function Orphan(s: State, gateway: int, node: string): (found: Option<nat>)
    requires gateway in s.gateways
    ensures found.Some? ==> found == Holder(s, node)
  {
    var d :- Holder(s, node);
    var device, g := s.devices[d], s.gateways[gateway];
    if device.gateway.None? && !device.retired && device.tenant == g.tenant
      && s.lower(device.gatewayText) == s.lower(g.key)
    then Some(d) else None
  }

  function Known(s: State, gateway: int, node: string, plainFirst: bool): Option<nat>
    requires gateway in s.gateways
  {
    var plain, prefixed := Linked(s, gateway, node), Linked(s, gateway, Prefixed(s.gateways[gateway], node));
    if plain.Some? && (plainFirst || prefixed.None?) then plain else prefixed
  }

  /** The serial a node gets that is new: its own name, or prefixed when that is taken. */
  function NewSerial(s: State, gateway: int, node: string): string
    requires gateway in s.gateways
  {
    Cut(if Holder(s, node).Some? then Prefixed(s.gateways[gateway], node) else node)
  }

  /** The device a node resolves to; none when the unique index refuses the new serial. */
  function ResolveNode(s: State, gateway: int, node: string, plainFirst: bool): (State, Option<nat>) {
    if gateway !in s.gateways then (s, None)
    else if Known(s, gateway, node, plainFirst).Some? then (s, Known(s, gateway, node, plainFirst))
    else if Orphan(s, gateway, node).Some? then
      var d := Orphan(s, gateway, node).value;
      (s.(devices := s.devices[d := s.devices[d].(gateway := Some(gateway))]), Some(d))
    else if Holder(s, NewSerial(s, gateway, node)).Some? then (s, None)
    else
      var g := s.gateways[gateway];
      var device := Device(g.tenant, NewSerial(s, gateway, node), Some(gateway), g.key, false);
      (s.(devices := s.devices[s.nextDevice := device], nextDevice := s.nextDevice + 1), Some(s.nextDevice))
  }

  function ChannelNumber(sensorIndex: int, channelId: int): string {
    Decimal(sensorIndex) + ['.'] + Decimal(channelId)
  }

  function ResolveChannel(s: State, device: nat, sensorIndex: int, channelId: int): (State, nat) {
    var channel := (device, ChannelNumber(sensorIndex, channelId));
    if channel in s.channels && s.channels[channel] in s.sensors then (s, s.channels[channel])
    else (s.(channels := s.channels[channel := s.nextSensor], sensors := s.sensors + {s.nextSensor},
             nextSensor := s.nextSensor + 1),
          s.nextSensor)
  }

  function Apply(s: State, op: Op): State {
    match op
    case Node(gateway, node, plainFirst) => ResolveNode(s, gateway, node, plainFirst).0
    case Register(tenant, serial, text) =>
      if |serial| > SERIAL_LENGTH || Holder(s, serial).Some? then s
      else s.(devices := s.devices[s.nextDevice := Device(tenant, serial, None, text, false)],
              nextDevice := s.nextDevice + 1)
    case Retire(d) => if d in s.devices then s.(devices := s.devices[d := s.devices[d].(retired := true)]) else s
    case Reading(device, sensorIndex, channelId) => ResolveChannel(s, device, sensorIndex, channelId).0
    case DropSensor(sensor) => s.(sensors := s.sensors - {sensor})
  }

  /** What a resolution answers: the id of a device or of a sensor. */
  function Answer(s: State, op: Op): Option<nat> {
    match op
    case Node(gateway, node, plainFirst) => ResolveNode(s, gateway, node, plainFirst).1
    case Reading(device, sensorIndex, channelId) => Some(ResolveChannel(s, device, sensorIndex, channelId).1)
    case _ => None
  }

  function RunFrom(s: State, ops: seq<Op>): State {
    if ops == [] then s else Apply(RunFrom(s, ops[..|ops| - 1]), ops[|ops| - 1])
  }

  function Start(lower: string -> string, gateways: map<int, Gateway>): State {
    State(lower, gateways, map[], 0, map[], {}, 0)
  }

  // ─── The service ───────────────────────────────────────────────────────────────────

  class DiscoveryService {
    const lower: string -> string
    const gateways: map<int, Gateway>
    var devices: map<nat, Device>
    var nextDevice: nat
    var channels: map<Channel, nat>
    var sensors: set<nat>
    var nextSensor: nat

    ghost function Abstract(): State
      reads this
    {
      State(lower, gateways, devices, nextDevice, channels, sensors, nextSensor)
    }

    constructor (lower: string -> string, gateways: map<int, Gateway>)
      ensures Abstract() == Start(lower, gateways)
    {
      this.lower, this.gateways := lower, gateways;
      devices, nextDevice, channels, sensors, nextSensor := map[], 0, map[], {}, 0;
    }

    /** Looked up under this gateway first; then an orphan is adopted; only then a device is created. */
    method ResolveNodeDevice(gateway: int, node: string, plainFirst: bool) returns (device: Option<nat>)
      requires gateway in gateways
      modifies this`devices, this`nextDevice
      ensures (Abstract(), device) == ResolveNode(old(Abstract()), gateway, node, plainFirst)
    {
      var g := gateways[gateway];
      var prefixed := BySerial(devices, g.key + ":" + node, nextDevice);
      var plain := BySerial(devices, node, nextDevice);
      var plainLinked := plain.Some? && devices[plain.value].gateway == Some(gateway) && !devices[plain.value].retired;
      var prefixedLinked := prefixed.Some? && devices[prefixed.value].gateway == Some(gateway)
        && !devices[prefixed.value].retired;
      if plainLinked && (plainFirst || !prefixedLinked) {
        return plain;
      }
      if prefixedLinked {
        return prefixed;
      }
      if plain.Some? {
        var found := devices[plain.value];
        if found.tenant == g.tenant && !found.retired && found.gateway.None?
          && lower(found.gatewayText) == lower(g.key) {
          devices := devices[plain.value := found.(gateway := Some(gateway))];
          return plain;
        }
      }
      var serial := Cut(if plain.Some? then g.key + ":" + node else node);
      if BySerial(devices, serial, nextDevice).Some? {
        return None;  // the unique index
      }
      devices := devices[nextDevice := Device(g.tenant, serial, Some(gateway), g.key, false)];
      device := Some(nextDevice);
      nextDevice := nextDevice + 1;
    }

    method ResolveChannelSensor(device: nat, sensorIndex: int, channelId: int) returns (sensor: nat)
      modifies this`channels, this`sensors, this`nextSensor
      ensures (Abstract(), sensor) == ResolveChannel(old(Abstract()), device, sensorIndex, channelId)
    {
      var channel := (device, ChannelNumber(sensorIndex, channelId));
      if channel in channels {
        if channels[channel] in sensors {
          return channels[channel];
        }
      }
      sensor := nextSensor;
      sensors, nextSensor := sensors + {sensor}, nextSensor + 1;
      channels := channels[channel := sensor];
    }
  }

  // ─── Devices ───────────────────────────────────────────────────────────────────────

  ghost predicate DeviceOk(s: State, d: nat)
    requires d in s.devices
  {
    var device := s.devices[d];
    && d < s.nextDevice && |device.serial| <= SERIAL_LENGTH
    && (device.gateway.Some?
        ==> device.gateway.value in s.gateways && s.gateways[device.gateway.value].tenant == device.tenant)
  }

  ghost predicate SerialsUnique(devices: map<nat, Device>) {
    forall i <- devices, j <- devices :: devices[i].serial == devices[j].serial ==> i == j
  }

  ghost predicate DevicesOk(s: State) {
    (forall d <- s.devices :: DeviceOk(s, d)) && SerialsUnique(s.devices)
  }

  /** What any step may make of a device that exists: link it if nothing held it, or retire it. */
  ghost predicate Keeps(a: Device, b: Device) {
    && b.serial == a.serial && b.tenant == a.tenant && b.gatewayText == a.gatewayText
    && (a.gateway.Some? ==> b.gateway == a.gateway) && (a.retired ==> b.retired)
  }

  lemma StepKeeps(s: State, op: Op, d: nat)
    requires DevicesOk(s) && d in s.devices
    ensures d in Apply(s, op).devices && Keeps(s.devices[d], Apply(s, op).devices[d])
    ensures op != Retire(d) ==> Apply(s, op).devices[d].retired == s.devices[d].retired
    ensures s.devices[d].gateway.None? && Apply(s, op).devices[d].gateway.Some? ==>
              op.Node? && op.gateway in s.gateways && Orphan(s, op.gateway, op.node) == Some(d)
                && Known(s, op.gateway, op.node, op.plainFirst).None?
  {
    match op
    case Node(gateway, node, plainFirst) =>
    case Register(_, _, _) =>
    case Retire(_) =>
    case Reading(_, _, _) =>
    case DropSensor(_) =>
  }

  /** A device that was not there before. */
  lemma StepAdds(s: State, op: Op, d: nat)
    requires DevicesOk(s) && d !in s.devices && d in Apply(s, op).devices
    ensures d == s.nextDevice && Apply(s, op).nextDevice == d + 1
    ensures var device := Apply(s, op).devices[d];
            && Holder(s, device.serial).None? && |device.serial| <= SERIAL_LENGTH && !device.retired
            && (op.Register? || op.Node?)
            && (op.Register? ==> device.gateway.None?)
            && (op.Node? ==> op.gateway in s.gateways && device.gateway == Some(op.gateway)
                             && device.tenant == s.gateways[op.gateway].tenant
                                && device.serial == NewSerial(s, op.gateway, op.node))
  {
    match op
    case Node(gateway, node, plainFirst) =>
    case Register(_, _, _) =>
    case Retire(_) =>
    case Reading(_, _, _) =>
    case DropSensor(_) =>
  }

  lemma StepFrame(s: State, op: Op)
    ensures Apply(s, op).gateways == s.gateways && Apply(s, op).lower == s.lower
            && Apply(s, op).nextDevice >= s.nextDevice
  {}

  lemma DevicesOkStep(s: State, op: Op)
    requires DevicesOk(s)
    ensures DevicesOk(Apply(s, op))
  {
    var s' := Apply(s, op);
    StepFrame(s, op);
    forall d | d in s'.devices ensures DeviceOk(s', d) {
      if d in s.devices {
        StepKeeps(s, op, d);
        assert DeviceOk(s, d);
      } else {
        StepAdds(s, op, d);
      }
    }
    forall i, j | i in s'.devices && j in s'.devices && s'.devices[i].serial == s'.devices[j].serial ensures i == j {
      SerialBefore(s, op, i);
      SerialBefore(s, op, j);
    }
  }

  lemma SerialBefore(s: State, op: Op, d: nat)
    requires DevicesOk(s) && d in Apply(s, op).devices
    ensures d in s.devices ==> Apply(s, op).devices[d].serial == s.devices[d].serial && d < s.nextDevice
    ensures d !in s.devices ==> d == s.nextDevice && Holder(s, Apply(s, op).devices[d].serial).None?
  {
    if d in s.devices {
      StepKeeps(s, op, d);
      assert DeviceOk(s, d);
    } else {
      StepAdds(s, op, d);
    }
  }

  lemma HolderIs(s: State, d: nat)
    requires DevicesOk(s) && d in s.devices
    ensures Holder(s, s.devices[d].serial) == Some(d)
  {
    assert DeviceOk(s, d);
  }

  /** In any run: what a device is, and the gateway it is linked to once it is, never change. */
  lemma {:induction false} DevicesAlways(s: State, ops: seq<Op>)
    requires DevicesOk(s)
    ensures DevicesOk(RunFrom(s, ops)) && RunFrom(s, ops).gateways == s.gateways
    ensures forall d <- s.devices :: d in RunFrom(s, ops).devices && Keeps(s.devices[d], RunFrom(s, ops).devices[d])
  {
    if ops != [] {
      var n := |ops| - 1;
      var mid := RunFrom(s, ops[..n]);
      DevicesAlways(s, ops[..n]);
      DevicesOkStep(mid, ops[n]);
      StepFrame(mid, ops[n]);
      forall d | d in s.devices
        ensures d in RunFrom(s, ops).devices && Keeps(s.devices[d], RunFrom(s, ops).devices[d])
      {
        StepKeeps(mid, ops[n], d);
      }
    }
  }

  /**
   A push is only ever answered with a live device linked to its own gateway and of that gateway's
   organization, and touches no device linked to another: it may adopt one registered for it.
   */
  lemma OwnDevicesOnly(s: State, gateway: int, node: string, plainFirst: bool)
    requires DevicesOk(s)
    ensures var (s', answer) := ResolveNode(s, gateway, node, plainFirst);
            && (answer.Some? ==>
                  && gateway in s.gateways && answer.value in s'.devices
                  && s'.devices[answer.value].gateway == Some(gateway) && !s'.devices[answer.value].retired
                  && s'.devices[answer.value].tenant == s.gateways[gateway].tenant)
            && (forall d <- s.devices ::
                  && d in s'.devices && (s'.devices[d] == s.devices[d] || (answer == Some(d)
                  && s.devices[d].gateway.None?)))
  {
    var (s', answer) := ResolveNode(s, gateway, node, plainFirst);
    DevicesOkStep(s, Node(gateway, node, plainFirst));
    if answer.Some? {
      assert DeviceOk(s', answer.value);
    }
    forall d | d in s.devices
      ensures d in s'.devices && (s'.devices[d] == s.devices[d] || (answer == Some(d) && s.devices[d].gateway.None?))
    {
      assert DeviceOk(s, d);
    }
  }

  // ─── One node, one device ──────────────────────────────────────────────────────────

  /** The serials of the devices a node may be answered with. */
  predicate CanBe(g: Gateway, node: string, serial: string) {
    serial == Cut(node) || (|node| <= SERIAL_LENGTH && serial == Cut(Prefixed(g, node)) && serial != node)
  }

  /** Once `node` has a device, `other` may be answered with it. */
  predicate Captures(g: Gateway, node: string, other: string) {
    CanBe(g, node, other) || CanBe(g, node, Prefixed(g, other))
  }

  lemma AnswerSerial(s: State, op: Op, d: nat)
    requires DevicesOk(s) && op.Node? && Answer(s, op) == Some(d)
    ensures op.gateway in s.gateways && d in Apply(s, op).devices
    ensures var serial, g := Apply(s, op).devices[d].serial, s.gateways[op.gateway];
            CanBe(g, op.node, serial) && (d in s.devices ==> serial == op.node || serial == Prefixed(g, op.node))
  {
    OwnDevicesOnly(s, op.gateway, op.node, op.plainFirst);
    if d in s.devices {
      assert DeviceOk(s, d);
      StepKeeps(s, op, d);
    } else {
      StepAdds(s, op, d);
    }
  }

  /** Steps `i` and `j` resolve `node` and `other` of one gateway to the same device. */
  ghost predicate Shares(s: State, ops: seq<Op>, i: nat, j: nat, gateway: int, node: string, other: string) {
    && i < j < |ops| && ops[i].Node? && ops[j].Node?
    && ops[i].gateway == gateway == ops[j].gateway && ops[i].node == node && ops[j].node == other
    && Answer(RunFrom(s, ops[..i]), ops[i]).Some?
    && Answer(RunFrom(s, ops[..i]), ops[i]) == Answer(RunFrom(s, ops[..j]), ops[j])
  }

  lemma {:induction false} RunConcat(s: State, a: seq<Op>, b: seq<Op>)
    ensures RunFrom(s, a + b) == RunFrom(RunFrom(s, a), b)
    decreases |b|
  {
    if b == [] {
      assert a + b == a;
    } else {
      assert (a + b)[..|a + b| - 1] == a + b[..|b| - 1];
      RunConcat(s, a, b[..|b| - 1]);
    }
  }

  /** The state just after step `i`, and the steps from there to step `j`. */
  lemma Between(s: State, ops: seq<Op>, i: nat, j: nat)
    requires i < j <= |ops|
    ensures RunFrom(s, ops[..i + 1]) == Apply(RunFrom(s, ops[..i]), ops[i])
    ensures RunFrom(s, ops[..j]) == RunFrom(RunFrom(s, ops[..i + 1]), ops[i + 1..j])
  {
    assert ops[..i + 1][..i] == ops[..i];
    assert ops[..j] == ops[..i + 1] + ops[i + 1..j];
    RunConcat(s, ops[..i + 1], ops[i + 1..j]);
  }

  lemma SharingCaptures(s: State, ops: seq<Op>, i: nat, j: nat, gateway: int, node: string, other: string)
    requires DevicesOk(s) && Shares(s, ops, i, j, gateway, node, other)
    ensures gateway in s.gateways && Captures(s.gateways[gateway], node, other)
  {
    DevicesAlways(s, ops[..i]);
    DevicesAlways(s, ops[..j]);
    var before := RunFrom(s, ops[..i]);
    var d := Answer(before, ops[i]).value;
    AnswerSerial(before, ops[i], d);
    DevicesOkStep(before, ops[i]);
    Between(s, ops, i, j);
    DevicesAlways(Apply(before, ops[i]), ops[i + 1..j]);
    AnswerSerial(RunFrom(s, ops[..j]), ops[j], d);
    StepKeeps(RunFrom(s, ops[..j]), ops[j], d);
  }

  /** Where the name itself captures: it is created under it, and the other finds it. */
  lemma CapturePlain(s: State, gateway: int, node: string, other: string)
    requires s.devices == map[] && gateway in s.gateways && s.nextDevice == 0
    requires Cut(node) == other || Cut(node) == Prefixed(s.gateways[gateway], other)
    ensures var first, second := Node(gateway, node, true), Node(gateway, other, true);
            Answer(s, first) == Some(0) && Answer(Apply(s, first), second) == Some(0)
  {
    var g, first := s.gateways[gateway], Node(gateway, node, true);
    var s' := Apply(s, first);
    assert s'.devices == map[0 := Device(g.tenant, Cut(node), Some(gateway), g.key, false)] && s'.nextDevice == 1;
    OnlyOne(s', other);
    OnlyOne(s', Prefixed(g, other));
  }

  lemma OnlyOne(s: State, serial: string)
    requires s.nextDevice == 1 && 0 in s.devices
    ensures Holder(s, serial) == if s.devices[0].serial == serial then Some(0) else None
  {
    assert BySerial(s.devices, serial, 0) == None;
  }

  lemma OnlyTwo(s: State, serial: string)
    requires s.nextDevice == 2 && 0 in s.devices && 1 in s.devices && s.devices[0].serial != s.devices[1].serial
    ensures Holder(s, serial) == if s.devices[0].serial == serial then Some(0)
            else if s.devices[1].serial == serial then Some(1) else None
  {
    assert BySerial(s.devices, serial, 0) == None;
    assert BySerial(s.devices, serial, 1) == if s.devices[0].serial == serial then Some(0) else None;
  }

  /** Where the prefixed name captures: the plain one is taken by another organization first. */
  lemma CapturePrefixed(s: State, gateway: int, node: string, other: string)
    requires s.devices == map[] && gateway in s.gateways && s.nextDevice == 0
    requires var g := s.gateways[gateway];
             var serial := Cut(Prefixed(g, node));
             |node| <= SERIAL_LENGTH && serial != node && (serial == other || serial == Prefixed(g, other))
    ensures var g := s.gateways[gateway];
            var taken := Apply(s, Register(g.tenant + 1, node, ""));
            var first, second := Node(gateway, node, true), Node(gateway, other, true);
            Answer(taken, first) == Some(1) && Answer(Apply(taken, first), second) == Some(1)
  {
    var g, first := s.gateways[gateway], Node(gateway, node, true);
    var taken := Apply(s, Register(g.tenant + 1, node, ""));
    assert taken.devices == map[0 := Device(g.tenant + 1, node, None, "", false)] && taken.nextDevice == 1;
    OnlyOne(taken, node);
    OnlyOne(taken, Prefixed(g, node));
    OnlyOne(taken, Cut(Prefixed(g, node)));
    var s' := Apply(taken, first);
    assert s'.devices[1] == Device(g.tenant, Cut(Prefixed(g, node)), Some(gateway), g.key, false) && s'.nextDevice == 2;
    OnlyTwo(s', other);
    OnlyTwo(s', Prefixed(g, other));
  }

  lemma CaptureRunPlain(s: State, gateway: int, node: string, other: string) returns (ops: seq<Op>)
    requires s.devices == map[] && gateway in s.gateways && s.nextDevice == 0
    requires Cut(node) == other || Cut(node) == Prefixed(s.gateways[gateway], other)
    ensures Shares(s, ops, 0, 1, gateway, node, other)
  {
    CapturePlain(s, gateway, node, other);
    ops := TwoOps(Node(gateway, node, true), Node(gateway, other, true));
    SharesNext(s, ops, s, 0, gateway, node, other);
  }

  lemma CaptureRunPrefixed(s: State, gateway: int, node: string, other: string) returns (ops: seq<Op>)
    requires s.devices == map[] && gateway in s.gateways && s.nextDevice == 0
    requires var serial := Cut(Prefixed(s.gateways[gateway], node));
             |node| <= SERIAL_LENGTH && serial != node
               && (serial == other || serial == Prefixed(s.gateways[gateway], other))
    ensures Shares(s, ops, 1, 2, gateway, node, other)
  {
    var register := Register(s.gateways[gateway].tenant + 1, node, "");
    CapturePrefixed(s, gateway, node, other);
    var rest := TwoOps(Node(gateway, node, true), Node(gateway, other, true));
    ops := [register] + rest;
    assert ops[..1][..0] == ops[..0];
    SharesNext(s, ops, Apply(s, register), 1, gateway, node, other);
  }

  lemma TwoOps(a: Op, b: Op) returns (ops: seq<Op>)
    ensures |ops| == 2 && ops[0] == a && ops[1] == b
  {
    ops := [a, b];
  }

  lemma SharesNext(s: State, ops: seq<Op>, before: State, i: nat, gateway: int, node: string, other: string)
    requires i + 1 < |ops| && ops[i] == Node(gateway, node, true) && ops[i + 1] == Node(gateway, other, true)
    requires RunFrom(s, ops[..i]) == before
    requires Answer(before, ops[i]).Some? && Answer(before, ops[i]) == Answer(Apply(before, ops[i]), ops[i + 1])
    ensures Shares(s, ops, i, i + 1, gateway, node, other)
  {
    assert ops[..i + 1][..i] == ops[..i];
  }

  /**
   Some run resolves two node ids of a gateway to one device, the first one first, exactly when the
   first captures the second.
   */
  lemma NodesShare(lower: string -> string, gateways: map<int, Gateway>, gateway: int, node: string, other: string)
    requires gateway in gateways
    ensures (exists ops, i, j :: Shares(Start(lower, gateways), ops, i, j, gateway, node, other))
            <==> Captures(gateways[gateway], node, other)
  {
    var s := Start(lower, gateways);
    if Cut(node) == other || Cut(node) == Prefixed(gateways[gateway], other) {
      var ops := CaptureRunPlain(s, gateway, node, other);
    } else if Captures(gateways[gateway], node, other) {
      var ops := CaptureRunPrefixed(s, gateway, node, other);
    }
    forall ops, i, j | Shares(s, ops, i, j, gateway, node, other) ensures Captures(gateways[gateway], node, other) {
      SharingCaptures(s, ops, i, j, gateway, node, other);
    }
  }

  /** For names that fit, that is: one id is spelled as the other with the gateway's key and a colon before it. */
  lemma CapturesWhenShort(g: Gateway, node: string, other: string)
    requires |Prefixed(g, node)| <= SERIAL_LENGTH && |Prefixed(g, other)| <= SERIAL_LENGTH && node != other
    ensures Captures(g, node, other) <==> other == Prefixed(g, node) || node == Prefixed(g, other)
  {
    PrefixCancels(g, node, other);
  }

  lemma PrefixCancels(g: Gateway, a: string, b: string)
    ensures Prefixed(g, a) == Prefixed(g, b) ==> a == b
  {
    assert Prefixed(g, a)[|g.key| + 1..] == a;
    assert Prefixed(g, b)[|g.key| + 1..] == b;
  }

  // ─── Always the same device ────────────────────────────────────────────────────────

  ghost predicate Live(s: State, gateway: int, d: nat) {
    d in s.devices && s.devices[d].gateway == Some(gateway) && !s.devices[d].retired
  }

  lemma LinkedIs(s: State, gateway: int, d: nat)
    requires DevicesOk(s) && Live(s, gateway, d)
    ensures Linked(s, gateway, s.devices[d].serial) == Some(d)
  {
    HolderIs(s, d);
  }

  /** The lookup by two serials never finds two devices. */
  ghost predicate Unambiguous(s: State, gateway: int, node: string)
    requires gateway in s.gateways
  {
    Linked(s, gateway, node).None? || Linked(s, gateway, Prefixed(s.gateways[gateway], node)).None?
  }

  /** The step reports another node of the gateway, one that captures this one. */
  predicate Intrudes(g: Gateway, gateway: int, node: string, op: Op) {
    op.Node? && op.gateway == gateway && op.node != node && Captures(g, op.node, node)
  }

  lemma NewlyLive(s: State, op: Op, gateway: int, d: nat)
    requires DevicesOk(s) && Live(Apply(s, op), gateway, d) && !Live(s, gateway, d)
    ensures op.Node? && op.gateway == gateway && gateway in s.gateways && Answer(s, op) == Some(d)
    ensures Known(s, gateway, op.node, op.plainFirst).None?
            && CanBe(s.gateways[gateway], op.node, Apply(s, op).devices[d].serial)
  {
    if d in s.devices {
      StepKeeps(s, op, d);
    } else {
      StepAdds(s, op, d);
    }
    AnswerSerial(s, op, d);
  }

  lemma LiveOfLinked(s: State, gateway: int, serial: string)
    requires Linked(s, gateway, serial).Some?
    ensures Live(s, gateway, Linked(s, gateway, serial).value)
            && s.devices[Linked(s, gateway, serial).value].serial == serial
  {}

  lemma UnambiguousStep(s: State, op: Op, gateway: int, node: string)
    requires DevicesOk(s) && gateway in s.gateways && Unambiguous(s, gateway, node)
    requires !Intrudes(s.gateways[gateway], gateway, node, op)
    ensures gateway in Apply(s, op).gateways && Unambiguous(Apply(s, op), gateway, node)
  {
    StepFrame(s, op);
    var s', prefixed := Apply(s, op), Prefixed(s.gateways[gateway], node);
    if Linked(s', gateway, node).Some? && Linked(s', gateway, prefixed).Some? {
      var a, b := Linked(s', gateway, node).value, Linked(s', gateway, prefixed).value;
      LiveOfLinked(s', gateway, node);
      LiveOfLinked(s', gateway, prefixed);
      LinkedBefore(s, op, gateway, node, a);
      LinkedBefore(s, op, gateway, node, b);
    }
  }

  /**
   A live device under one of the node's serials was found before already, or is what the node was
   just answered with.
   */
  lemma LinkedBefore(s: State, op: Op, gateway: int, node: string, d: nat)
    requires DevicesOk(s) && gateway in s.gateways && Live(Apply(s, op), gateway, d)
    requires !Intrudes(s.gateways[gateway], gateway, node, op)
    requires Apply(s, op).devices[d].serial == node
             || Apply(s, op).devices[d].serial == Prefixed(s.gateways[gateway], node)
    ensures Linked(s, gateway, Apply(s, op).devices[d].serial) == Some(d)
            || (Answer(s, op) == Some(d) && Linked(s, gateway, node).None?
                && Linked(s, gateway, Prefixed(s.gateways[gateway], node)).None?)
  {
    if Live(s, gateway, d) {
      StepKeeps(s, op, d);
      LinkedIs(s, gateway, d);
    } else {
      NewlyLive(s, op, gateway, d);
    }
  }

  /** As long as no node that captures this one reports on the gateway, there never is a second such device. */
  lemma {:induction false} UnambiguousAlways(s: State, ops: seq<Op>, gateway: int, node: string)
    requires DevicesOk(s) && gateway in s.gateways && Unambiguous(s, gateway, node)
    requires forall op <- ops :: !Intrudes(s.gateways[gateway], gateway, node, op)
    ensures RunFrom(s, ops).gateways == s.gateways && Unambiguous(RunFrom(s, ops), gateway, node)
  {
    DevicesAlways(s, ops);
    if ops != [] {
      var n := |ops| - 1;
      assert forall op <- ops[..n] :: op in ops;
      UnambiguousAlways(s, ops[..n], gateway, node);
      DevicesAlways(s, ops[..n]);
      assert ops[n] in ops;
      UnambiguousStep(RunFrom(s, ops[..n]), ops[n], gateway, node);
    }
  }

  lemma {:induction false} LiveAlways(s: State, ops: seq<Op>, gateway: int, d: nat)
    requires DevicesOk(s) && Live(s, gateway, d) && Retire(d) !in ops
    ensures Live(RunFrom(s, ops), gateway, d)
  {
    if ops != [] {
      var n := |ops| - 1;
      assert forall op <- ops[..n] :: op in ops;
      assert ops[n] in ops;
      LiveAlways(s, ops[..n], gateway, d);
      DevicesAlways(s, ops[..n]);
      StepKeeps(RunFrom(s, ops[..n]), ops[n], d);
    }
  }

  /** Whichever row the unordered query prefers, the node is answered with this device. */
  predicate AnsweredWith(s: State, gateway: int, node: string, d: nat) {
    Answer(s, Node(gateway, node, true)) == Some(d) && Answer(s, Node(gateway, node, false)) == Some(d)
  }

  predicate SerialUncut(s: State, gateway: int, node: string, d: nat)
    requires gateway in s.gateways && d in s.devices
  {
    s.devices[d].serial == node || s.devices[d].serial == Prefixed(s.gateways[gateway], node)
  }

  lemma AnsweredUncut(s: State, gateway: int, node: string, d: nat)
    requires DevicesOk(s) && Live(s, gateway, d) && gateway in s.gateways && AnsweredWith(s, gateway, node, d)
    ensures SerialUncut(s, gateway, node, d) && Unambiguous(s, gateway, node)
  {
    AnswerSerial(s, Node(gateway, node, true), d);
    StepKeeps(s, Node(gateway, node, true), d);
    assert Prefixed(s.gateways[gateway], node) != node;
  }

  /**
   A live device of the gateway is the node's answer exactly when it stands under one of its serials
   and no other does.
   */
  lemma AnsweredWhen(s: State, gateway: int, node: string, d: nat)
    requires DevicesOk(s) && Live(s, gateway, d) && gateway in s.gateways
    ensures AnsweredWith(s, gateway, node, d) <==> SerialUncut(s, gateway, node, d) && Unambiguous(s, gateway, node)
  {
    LinkedIs(s, gateway, d);
    if AnsweredWith(s, gateway, node, d) {
      AnsweredUncut(s, gateway, node, d);
    }
  }

  /** From one answer on, as long as nobody retires it, a device stays live on its gateway under the same serial. */
  lemma StillLive(s: State, ops: seq<Op>, i: nat, j: nat, d: nat)
    requires DevicesOk(s) && i < j <= |ops| && ops[i].Node?
    requires Answer(RunFrom(s, ops[..i]), ops[i]) == Some(d) && Retire(d) !in ops[i + 1..j]
    ensures DevicesOk(RunFrom(s, ops[..j])) && RunFrom(s, ops[..j]).gateways == s.gateways
            && ops[i].gateway in s.gateways
    ensures Live(RunFrom(s, ops[..j]), ops[i].gateway, d) && d in Apply(RunFrom(s, ops[..i]), ops[i]).devices
    ensures RunFrom(s, ops[..j]).devices[d].serial == Apply(RunFrom(s, ops[..i]), ops[i]).devices[d].serial
  {
    var before := RunFrom(s, ops[..i]);
    DevicesAlways(s, ops[..i]);
    DevicesAlways(s, ops[..j]);
    OwnDevicesOnly(before, ops[i].gateway, ops[i].node, ops[i].plainFirst);
    DevicesOkStep(before, ops[i]);
    Between(s, ops, i, j);
    DevicesAlways(Apply(before, ops[i]), ops[i + 1..j]);
    LiveAlways(Apply(before, ops[i]), ops[i + 1..j], ops[i].gateway, d);
  }

  /**
   A node keeps its device: as long as nobody retires it, it is answered with the same device
   again, whichever row the unordered query prefers, exactly when that device's serial was not cut
   short and the gateway has no second live device under the node's other serial.
   */
  lemma NodeKeepsDevice(lower: string -> string, gateways: map<int, Gateway>, ops: seq<Op>, i: nat, j: nat, d: nat)
    requires i < j <= |ops| && ops[i].Node?
    requires Answer(RunFrom(Start(lower, gateways), ops[..i]), ops[i]) == Some(d) && Retire(d) !in ops[i + 1..j]
    ensures var later := RunFrom(Start(lower, gateways), ops[..j]);
            && ops[i].gateway in later.gateways && d in later.devices
            && (AnsweredWith(later, ops[i].gateway, ops[i].node, d)
                <==>
                  && SerialUncut(later, ops[i].gateway, ops[i].node, d)
                  && Unambiguous(later, ops[i].gateway, ops[i].node))
  {
    var s := Start(lower, gateways);
    StillLive(s, ops, i, j, d);
    AnsweredWhen(RunFrom(s, ops[..j]), ops[i].gateway, ops[i].node, d);
  }

  // ─── Adoption and creation ─────────────────────────────────────────────────────────

  /** Registered by hand for this gateway, under the node's own serial, and not linked to any. */
  predicate MeantFor(s: State, d: nat, gateway: int, node: string)
    requires d in s.devices && gateway in s.gateways
  {
    var device, g := s.devices[d], s.gateways[gateway];
    && device.serial == node && device.gateway == None && !device.retired
    && device.tenant == g.tenant && s.lower(g.key) == s.lower(device.gatewayText)
  }

  /** An unlinked device is adopted exactly when it was meant for this gateway and the node has no device yet. */
  lemma AdoptedWhen(s: State, gateway: int, node: string, plainFirst: bool, d: nat)
    requires DevicesOk(s) && gateway in s.gateways && d in s.devices && s.devices[d].gateway == None
    ensures ResolveNode(s, gateway, node, plainFirst).1 == Some(d)
            <==> Known(s, gateway, node, plainFirst).None? && MeantFor(s, d, gateway, node)
    ensures ResolveNode(s, gateway, node, plainFirst).1 == Some(d) ==>
              ResolveNode(s, gateway, node, plainFirst).0.devices
              == s.devices[d := s.devices[d].(gateway := Some(gateway))]
  {
    HolderIs(s, d);
    assert DeviceOk(s, d);
  }

  /** What the column can hold of a serial: its first 255 characters. */
  lemma CutIs(serial: string)
    ensures Cut(serial) == serial <==> |serial| <= 255
    ensures Cut(serial) <= serial && (|serial| > 255 ==> |Cut(serial)| == 255)
  {}

  predicate TakenSerial(s: State, serial: string) {
    exists d <- s.devices :: s.devices[d].serial == serial
  }

  lemma HolderWhen(s: State, serial: string)
    requires DevicesOk(s)
    ensures Holder(s, serial).Some? <==> TakenSerial(s, serial)
  {
    if TakenSerial(s, serial) {
      var d :| d in s.devices && s.devices[d].serial == serial;
      HolderIs(s, d);
    }
  }

  /** A node that has no device and none to adopt gets one of its own, under its own serial if that is free. */
  lemma CreatedWhen(s: State, gateway: int, node: string, plainFirst: bool)
    requires DevicesOk(s) && gateway in s.gateways
    requires Known(s, gateway, node, plainFirst).None? && forall d <- s.devices :: !MeantFor(s, d, gateway, node)
    ensures var (after, answer) := ResolveNode(s, gateway, node, plainFirst);
            var g := s.gateways[gateway];
            var serial := Cut(if TakenSerial(s, node) then g.key + ":" + node else node);
            if TakenSerial(s, serial) then answer == None && after == s
            else
              && answer == Some(s.nextDevice) && s.nextDevice !in s.devices && s.nextDevice in after.devices
              && after.devices[s.nextDevice] == Device(g.tenant, serial, Some(gateway), g.key, false)
              && after.devices == s.devices[s.nextDevice := after.devices[s.nextDevice]]
  {
    HolderWhen(s, node);
    HolderWhen(s, NewSerial(s, gateway, node));
    assert Orphan(s, gateway, node).None? by {
      if Holder(s, node).Some? {
        assert !MeantFor(s, Holder(s, node).value, gateway, node);
      }
    }
    assert s.nextDevice in s.devices ==> DeviceOk(s, s.nextDevice);
  }

  // ─── Channels ──────────────────────────────────────────────────────────────────────

  lemma ChannelNumbersDiffer(a: int, b: int, c: int, d: int)
    ensures ChannelNumber(a, b) == ChannelNumber(c, d) ==> a == c && b == d
  {
    DecimalAvoids(a, '.');
    DecimalAvoids(b, '.');
    DecimalAvoids(c, '.');
    DecimalAvoids(d, '.');
    NumberSplits(Decimal(a), Decimal(b));
    NumberSplits(Decimal(c), Decimal(d));
    DecimalReads(a);
    DecimalReads(b);
    DecimalReads(c);
    DecimalReads(d);
  }

  lemma NumberSplits(a: string, b: string)
    requires '.' !in a && '.' !in b
    ensures var parts := Split(a + ['.'] + b, '.'); |parts| == 2 && parts[0] == a && parts[1] == b
  {
    SplitConcat(a, b, '.');
    SplitAtomic(a, '.');
    SplitAtomic(b, '.');
  }

  function ChannelOf(op: Op): Channel
    requires op.Reading?
  {
    (op.device, ChannelNumber(op.sensorIndex, op.channelId))
  }

  ghost predicate ChannelsOk(s: State) {
    && (forall k <- s.channels :: s.channels[k] < s.nextSensor)
    && (forall v <- s.sensors :: v < s.nextSensor)
    && (forall k <- s.channels, l <- s.channels :: s.channels[k] == s.channels[l] ==> k == l)
  }

  /** A step touches channels and sensors only to give a channel a sensor never used before, or to drop one. */
  lemma ChannelsChange(s: State, op: Op)
    ensures var s' := Apply(s, op);
            if op.Reading?
              && (s'.channels != s.channels || s'.sensors != s.sensors || s'.nextSensor != s.nextSensor) then
              && s'.channels == s.channels[ChannelOf(op) := s.nextSensor] && s'.sensors == s.sensors + {s.nextSensor}
              && s'.nextSensor == s.nextSensor + 1
              && !(ChannelOf(op) in s.channels && s.channels[ChannelOf(op)] in s.sensors)
            else
              && s'.channels == s.channels && s'.nextSensor == s.nextSensor
              && s'.sensors == if op.DropSensor? then s.sensors - {op.sensor} else s.sensors
  {}

  lemma {:induction false} ChannelsAlways(s: State, ops: seq<Op>)
    requires ChannelsOk(s)
    ensures ChannelsOk(RunFrom(s, ops))
  {
    if ops != [] {
      var n := |ops| - 1;
      ChannelsAlways(s, ops[..n]);
      ChannelsChange(RunFrom(s, ops[..n]), ops[n]);
    }
  }

  /** Sensor `v` was made for channel `k`; `alive`: it has not been dropped since. */
  ghost predicate MadeFor(s: State, k: Channel, v: nat, alive: bool) {
    && v < s.nextSensor && (forall l <- s.channels :: s.channels[l] == v ==> l == k)
    && (if alive then k in s.channels && s.channels[k] == v && v in s.sensors else v !in s.sensors)
  }

  lemma {:induction false} MadeForAlways(s: State, ops: seq<Op>, k: Channel, v: nat)
    requires MadeFor(s, k, v, true)
    ensures MadeFor(RunFrom(s, ops), k, v, DropSensor(v) !in ops)
  {
    if ops != [] {
      var n := |ops| - 1;
      MadeForAlways(s, ops[..n], k, v);
      ChannelsChange(RunFrom(s, ops[..n]), ops[n]);
      assert ops == ops[..n] + [ops[n]];
    }
  }

  /**
   Two readings, at any two times, are recorded for one sensor exactly when they name the same
   channel of the same device and the sensor was not dropped between.
   */
  lemma SameSensor(lower: string -> string, gateways: map<int, Gateway>, ops: seq<Op>, i: nat, j: nat)
    requires i < j < |ops| && ops[i].Reading? && ops[j].Reading?
    ensures var s := Start(lower, gateways);
            var sensor := Answer(RunFrom(s, ops[..i]), ops[i]);
            sensor == Answer(RunFrom(s, ops[..j]), ops[j])
            <==> ops[i] == ops[j] && DropSensor(sensor.value) !in ops[i + 1..j]
  {
    var s := Start(lower, gateways);
    var before, later := RunFrom(s, ops[..i]), RunFrom(s, ops[..j]);
    ChannelsAlways(s, ops[..i]);
    ChannelsAlways(s, ops[..j]);
    Between(s, ops, i, j);
    MadeForAlways(Apply(before, ops[i]), ops[i + 1..j], ChannelOf(ops[i]), Answer(before, ops[i]).value);
    ChannelNumbersDiffer(ops[i].sensorIndex, ops[i].channelId, ops[j].sensorIndex, ops[j].channelId);
    assert ChannelOf(ops[i]) == ChannelOf(ops[j]) ==> ops[i] == ops[j];
  }
}
