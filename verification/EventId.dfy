/**
 `readingEventId`: the idempotency key of one channel reading. Hashing the joined material is
 injective, so the material stands for the event id.
 */
module EventId {
  import opened Joined

  /** `ts` is the node's timestamp in seconds. */
  datatype Parts = Parts(gateway: string, node: string, sensorIndex: int, channelId: int, ts: int, isError: bool)

  function MaterialParts(p: Parts): seq<string> {
    [p.gateway, p.node, Decimal(p.sensorIndex), Decimal(p.channelId), Decimal(p.ts), if p.isError then "e" else "v"]
  }

  function Material(p: Parts): string {
    Join(MaterialParts(p), '|')
  }

  function LowerChar(c: char): char {
    if 'A' <= c <= 'Z' then c + ('a' - 'A') else c
  }

  /** Lower-casing, for the characters a registered gateway key may have. */
  function Lower(text: string): (lower: string)
    ensures |lower| == |text| && forall i :: 0 <= i < |text| ==> lower[i] == LowerChar(text[i])
  {
    seq(|text|, i requires 0 <= i < |text| => LowerChar(text[i]))
  }

  function Lowered(p: Parts): Parts {
    p.(gateway := Lower(p.gateway))
  }

  /** The event id of a reading of the gateway registered as `p.gateway`: its key goes in lower-cased. */
  function ReadingEventId(p: Parts): string {
    Material(Lowered(p))
  }

  function Tail(p: Parts): seq<string> {
    [Decimal(p.sensorIndex), Decimal(p.channelId), Decimal(p.ts), if p.isError then "e" else "v"]
  }

  lemma TailSplits(p: Parts)
    ensures Split(Join(Tail(p), '|'), '|') == Tail(p)
  {
    var a, b, c, d := Decimal(p.sensorIndex), Decimal(p.channelId), Decimal(p.ts), if p.isError then "e" else "v";
    DecimalAvoids(p.sensorIndex, '|');
    DecimalAvoids(p.channelId, '|');
    DecimalAvoids(p.ts, '|');
    SplitJoinFour(a, b, c, d);
  }

  lemma SplitJoinFour(a: string, b: string, c: string, d: string)
    requires '|' !in a && '|' !in b && '|' !in c && '|' !in d
    ensures Split(Join([a, b, c, d], '|'), '|') == [a, b, c, d]
  {
    SplitJoin([a, b, c, d], '|');
  }

  lemma TailReads(p: Parts, q: Parts)
    requires Tail(p) == Tail(q)
    ensures p == q.(gateway := p.gateway, node := p.node)
  {
    var a, b := Tail(p), Tail(q);
    assert IntValue(a[0]) == p.sensorIndex && IntValue(a[1]) == p.channelId && IntValue(a[2]) == p.ts by {
      DecimalReads(p.sensorIndex);
      DecimalReads(p.channelId);
      DecimalReads(p.ts);
    }
    assert IntValue(b[0]) == q.sensorIndex && IntValue(b[1]) == q.channelId && IntValue(b[2]) == q.ts by {
      DecimalReads(q.sensorIndex);
      DecimalReads(q.channelId);
      DecimalReads(q.ts);
    }
    assert a[3][0] == (if p.isError then 'e' else 'v') && b[3][0] == (if q.isError then 'e' else 'v');
  }

  lemma MaterialText(p: Parts)
    ensures Material(p) == p.gateway + ['|'] + (p.node + ['|'] + Join(Tail(p), '|'))
  {
    assert MaterialParts(p) == [p.gateway] + ([p.node] + Tail(p));
    JoinConcat([p.node], Tail(p), '|');
    JoinConcat([p.gateway], [p.node] + Tail(p), '|');
  }

  lemma SplitMaterial(p: Parts)
    ensures Split(Material(p), '|') == Split(p.gateway, '|') + Split(p.node, '|') + Tail(p)
  {
    MaterialText(p);
    var rest := Join(Tail(p), '|');
    SplitConcat(p.node, rest, '|');
    SplitConcat(p.gateway, p.node + ['|'] + rest, '|');
    TailSplits(p);
  }

  /** Whatever the keys contain, the same material means the same sensor, channel, time and kind. */
  lemma SameTail(p: Parts, q: Parts)
    requires Material(p) == Material(q)
    ensures p == q.(gateway := p.gateway, node := p.node)
    ensures Split(p.gateway, '|') + Split(p.node, '|') == Split(q.gateway, '|') + Split(q.node, '|')
  {
    SplitMaterial(p);
    SplitMaterial(q);
    var a, b := Split(p.gateway, '|') + Split(p.node, '|'), Split(q.gateway, '|') + Split(q.node, '|');
    assert (a + Tail(p))[..|a|] == a && (b + Tail(q))[..|b|] == b;
    assert (a + Tail(p))[|a|..] == Tail(p) && (b + Tail(q))[|b|..] == Tail(q);
    TailReads(p, q);
  }

  /** Two different readings, one under each key, with the same material; node ids are never empty. */
  predicate CollideAs(p: Parts, q: Parts, g: string, h: string) {
    p.gateway == g && q.gateway == h && p.node != "" && q.node != "" && p != q && Material(p) == Material(q)
  }

  ghost predicate Collide(g: string, h: string) {
    exists p, q :: CollideAs(p, q, g, h)
  }

  /** The longer key is the shorter one followed by a separator and more. */
  predicate Extends(longer: string, shorter: string) {
    shorter + ['|'] <= longer
  }

  lemma Regroup(g: string, n: string, rest: string)
    ensures g + ['|'] + (n + ['|'] + rest) == g + (['|'] + n) + (['|'] + rest)
  {}

  /** The material, with what follows the two keys set apart. */
  lemma MaterialHead(p: Parts) returns (rest: string)
    ensures rest == Join(Tail(p), '|') && Material(p) == p.gateway + (['|'] + p.node) + (['|'] + rest)
  {
    rest := Join(Tail(p), '|');
    MaterialText(p);
    Regroup(p.gateway, p.node, rest);
  }

  lemma SameHead(p: Parts, q: Parts)
    requires Material(p) == Material(q) && Tail(p) == Tail(q)
    ensures p.gateway + (['|'] + p.node) == q.gateway + (['|'] + q.node)
  {
    var rest := MaterialHead(p);
    var same := MaterialHead(q);
    CancelRight(p.gateway + (['|'] + p.node), q.gateway + (['|'] + q.node), ['|'] + rest);
  }

  lemma CancelRight(a: string, b: string, c: string)
    requires a + c == b + c
    ensures a == b
  {
    assert |a| == |b|;
    assert (a + c)[..|a|] == a && (b + c)[..|a|] == b;
  }

  lemma HeadsApart(g: string, m: string, h: string, n: string)
    requires g + (['|'] + m) == h + (['|'] + n) && |g| <= |h|
    ensures (g == h && m == n) || Extends(h, g)
  {
    var a, b := g + (['|'] + m), h + (['|'] + n);
    assert a[..|g|] == g && b[..|h|] == h;
    if |g| == |h| {
      assert a[|g| + 1..] == m && b[|h| + 1..] == n;
    } else {
      assert a[..|g| + 1] == g + ['|'];
      assert b[..|g| + 1] == h[..|g| + 1];
    }
  }

  lemma CollidingKeys(p: Parts, q: Parts)
    requires Material(p) == Material(q) && |p.gateway| <= |q.gateway|
    ensures p == q || Extends(q.gateway, p.gateway)
  {
    SameTail(p, q);
    SameHead(p, q);
    HeadsApart(p.gateway, p.node, q.gateway, q.node);
  }

  /** A reading under a key and one under an extension of it, with the same material. */
  lemma ExtensionCollides(g: string, h: string)
    requires Extends(h, g)
    ensures Collide(g, h) && Collide(h, g)
  {
    var more := h[|g| + 1..];
    var p := Parts(g, more + (['|'] + "n"), 0, 0, 0, false);
    var q := Parts(h, "n", 0, 0, 0, false);
    assert h == g + ['|'] + more;
    MaterialText(p);
    MaterialText(q);
    var rest := Join(Tail(p), '|');
    assert Tail(p) == Tail(q);
    assert g + ['|'] + ((more + (['|'] + "n")) + ['|'] + rest) == h + ['|'] + ("n" + ['|'] + rest);
    assert CollideAs(p, q, g, h) && CollideAs(q, p, h, g);
  }

  /**
   Which gateway keys have readings that collide: exactly those of which one is the other followed
   by the separator and more. Readings of one gateway never do.
   */
  lemma KeysCollide(g: string, h: string)
    ensures Collide(g, h) <==> Extends(g, h) || Extends(h, g)
  {
    if Extends(h, g) {
      ExtensionCollides(g, h);
    }
    if Extends(g, h) {
      ExtensionCollides(h, g);
    }
    if Collide(g, h) {
      var p, q :| CollideAs(p, q, g, h);
      if |g| <= |h| {
        CollidingKeys(p, q);
      } else {
        CollidingKeys(q, p);
      }
    }
  }

  /** So a separator in no gateway key is enough for the key to be injective in all six parts; node ids may hold any. */
  lemma MaterialInjective(p: Parts, q: Parts)
    requires !Extends(p.gateway, q.gateway) && !Extends(q.gateway, p.gateway)
    ensures Material(p) == Material(q) ==> p == q
  {
    if Material(p) == Material(q) {
      if |p.gateway| <= |q.gateway| {
        CollidingKeys(p, q);
      } else {
        CollidingKeys(q, p);
      }
    }
  }

  /** A key without the separator extends no key. */
  lemma PlainKeysExtendNothing(g: string, h: string)
    ensures Extends(h, g) ==> '|' in h
  {
    assert (g + ['|'])[|g|] == '|';
  }

  // ─── Registered gateways ───────────────────────────────────────────────────────────

  predicate KeyChar(c: char) {
    'A' <= c <= 'Z' || 'a' <= c <= 'z' || '0' <= c <= '9' || c in {'.', '_', ':', '-'}
  }

  predicate IsGatewayKey(key: string) {
    3 <= |key| <= 128 && forall c <- key :: KeyChar(c)
  }

  /** Registering a gateway: the key must fit, and no gateway may have it already, letter case and all. */
  function Register(keys: set<string>, key: string): set<string> {
    if IsGatewayKey(key) && key !in keys then keys + {key} else keys
  }

  lemma LowerIsPlain(key: string)
    requires IsGatewayKey(key)
    ensures '|' !in Lower(key)
  {
    forall i | 0 <= i < |key| ensures Lower(key)[i] != '|' {
      assert key[i] in key;
    }
  }

  /**
   Which readings of registered gateways share an event id: exactly those that agree on node,
   sensor, channel, time and kind, and on the gateway's key up to letter case.
   */
  lemma SameEventId(p: Parts, q: Parts)
    requires IsGatewayKey(p.gateway) && IsGatewayKey(q.gateway)
    ensures ReadingEventId(p) == ReadingEventId(q)
            <==> Lower(p.gateway) == Lower(q.gateway) && p == q.(gateway := p.gateway)
  {
    LowerIsPlain(p.gateway);
    LowerIsPlain(q.gateway);
    PlainKeysExtendNothing(Lower(p.gateway), Lower(q.gateway));
    PlainKeysExtendNothing(Lower(q.gateway), Lower(p.gateway));
    MaterialInjective(Lowered(p), Lowered(q));
  }

  /** Two different readings, one of each gateway, with one event id. */
  predicate ShareAs(p: Parts, q: Parts, g: string, h: string) {
    p.gateway == g && q.gateway == h && p.node != "" && q.node != "" && p != q && ReadingEventId(p) == ReadingEventId(q)
  }

  ghost predicate ShareEventIds(g: string, h: string) {
    exists p, q :: ShareAs(p, q, g, h)
  }

  /**
   Two registered gateways have readings that share an event id if and only if their keys differ in
   letter case only.
   */
  lemma GatewaysShare(g: string, h: string)
    requires IsGatewayKey(g) && IsGatewayKey(h)
    ensures ShareEventIds(g, h) <==> g != h && Lower(g) == Lower(h)
  {
    if g != h && Lower(g) == Lower(h) {
      assert ShareAs(Parts(g, "n", 0, 0, 0, false), Parts(h, "n", 0, 0, 0, false), g, h);
    }
    if ShareEventIds(g, h) {
      var p, q :| ShareAs(p, q, g, h);
      SameEventId(p, q);
    }
  }

  /** And there are such gateways: registration compares keys as they are spelled. */
  lemma CaseTwins()
    ensures var g, h := "GW1", "gw1";
            Register(Register({}, g), h) == {g, h} && ShareEventIds(g, h)
  {
    var g, h := "GW1", "gw1";
    assert g[0] != h[0];
    assert Lower(g) == Lower(h);
    GatewaysShare(g, h);
  }
}
