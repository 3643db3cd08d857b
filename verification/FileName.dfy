/**
 The gateway's file names (`parseFileName`): segments joined by underscores, which are also
 legal inside a project name, so the parse is anchored at the node id. The lower-casing of the
 language is a parameter: everything holds for any of them.
 */
module FileName {
  import opened Wrappers
  import opened JsText
  import opened Joined

  datatype FileType = SensorData | ErrorSensorData | NodeData | NetworkData | HeartbeatData

  function TypeName(t: FileType): string {
    match t
    case SensorData => "SensorData"
    case ErrorSensorData => "ErrorSensorData"
    case NodeData => "NodeData"
    case NetworkData => "NetworkData"
    case HeartbeatData => "HeartbeatData"
  }

  const TYPES := [SensorData, ErrorSensorData, NodeData, NetworkData, HeartbeatData]

  datatype Parsed = Parsed(fileType: FileType, gateway: string, node: Option<string>, project: Option<string>,
                           nodeName: Option<string>, sensorLabel: Option<string>)

  type Lower = string -> string

  // ─── Pieces ────────────────────────────────────────────────────────────────────────

  predicate IsSeparator(c: char) {
    c == '/' || c == '\\'
  }

  /** The length of the longest match of `^.*[\\/]`, where the dot matches no line end. */
  function PathLength(name: string): nat {
    if name == "" || name[0] in {'\n', '\r', '\U{2028}', '\U{2029}'} then 0
    else if PathLength(name[1..]) > 0 then PathLength(name[1..]) + 1
    else if IsSeparator(name[0]) then 1
    else 0
  }

  lemma {:induction false} PathLengthBound(name: string)
    ensures PathLength(name) <= |name|
    ensures PathLength(name) > 0 ==> IsSeparator(name[PathLength(name) - 1])
  {
    if name != "" {
      PathLengthBound(name[1..]);
    }
  }

  /** `.csv` at the very end, in any case, is cut off once. */
  function WithoutCsv(name: string): string {
    var n := |name| - 4;
    if n >= 0 && name[n] == '.' && name[n + 1] in {'c', 'C'} && name[n + 2] in {'s', 'S'} && name[n + 3] in {'v', 'V'}
    then name[..n] else name
  }

  function BaseName(fileName: string): string {
    PathLengthBound(fileName);
    WithoutCsv(fileName[PathLength(fileName)..])
  }

  predicate IsLetter(c: char, last: char) {
    'a' <= c <= last || ('A' <= c && c as int + 32 <= last as int)
  }

  predicate HexId(seg: string) {
    4 <= |seg| <= 12 && forall i :: 0 <= i < |seg| ==> IsDigit(seg[i]) || IsLetter(seg[i], 'f')
  }

  predicate ShortId(seg: string) {
    && 3 <= |seg| <= 12
    && (forall i :: 0 <= i < |seg| ==> IsDigit(seg[i]) || IsLetter(seg[i], 'z'))
    && exists i :: 0 <= i < |seg| && IsDigit(seg[i])
  }

  predicate Known(known: seq<string>, seg: string, lower: Lower) {
    exists i :: 0 <= i < |known| && lower(known[i]) == lower(seg)
  }

  /** The first position in `from..last` whose segment passes the test. */
  function Pick(rest: seq<string>, from: nat, last: int, test: string -> bool): Option<nat>
    requires last < |rest|
    decreases last + 1 - from
  {
    if from > last then None else if test(rest[from]) then Some(from) else Pick(rest, from + 1, last, test)
  }

  /** Where the node id is: a known node, else a hexadecimal id, else a short id, else the second segment. */
  function NodeIndex(rest: seq<string>, last: int, known: seq<string>, lower: Lower): int
    requires last < |rest|
  {
    var byKnown := Pick(rest, 1, last, (seg: string) => Known(known, seg, lower));
    var byHex := Pick(rest, 1, last, (seg: string) => HexId(seg));
    var byShort := Pick(rest, 1, last, (seg: string) => ShortId(seg));
    if byKnown.Some? then byKnown.value
    else if byHex.Some? then byHex.value
    else if byShort.Some? then byShort.value
    else if last < 1 then last else 1
  }

  function FindType(name: string, lower: Lower, from: nat): Option<FileType>
    decreases |TYPES| - from
  {
    if from >= |TYPES| then None
    else if lower(TypeName(TYPES[from])) == lower(name) then Some(TYPES[from])
    else FindType(name, lower, from + 1)
  }

  predicate IsSensorFile(t: FileType) {
    t == SensorData || t == ErrorSensorData
  }

  function OrNull(text: string): Option<string> {
    if text == "" then None else Some(text)
  }

  /** The segments after the gateway's, cut at position `at`. */
  function Cut(fileType: FileType, gateway: string, rest: seq<string>, at: nat): Option<Parsed>
    requires at < |rest|
  {
    var project, tail := OrNull(Join(rest[..at], '_')), rest[at + 1..];
    if !IsSensorFile(fileType)
      then Some(Parsed(fileType, gateway, Some(rest[at]), project, OrNull(Join(tail, '_')), None))
    else if |tail| < 2 then None
    else Some(Parsed(fileType, gateway, Some(rest[at]), project, Some(tail[0]), Some(Join(tail[1..], '_'))))
  }

  /** Everything after the gateway segment, cut at the node id. */
  function ParseRest(fileType: FileType, gateway: string, rest: seq<string>, known: seq<string>,
                     lower: Lower): Option<Parsed> {
    if |rest| < 2 then None
    else
      var last := |rest| - (if IsSensorFile(fileType) then 2 else 1);
      var at := NodeIndex(rest, last, known, lower);
      if at < 1 then None
      else
        NodeIndexBound(rest, last, known, lower);
        Cut(fileType, gateway, rest, at)
  }

  function ParseFileName(fileName: string, known: seq<string>, lower: Lower): Option<Parsed> {
    var parts := Split(BaseName(fileName), '_');
    if |parts| < 2 then None
    else
      var fileType :- FindType(parts[0], lower, 0);
      var gateway := Trim(parts[1]);
      if gateway == "" then None
      else if fileType == HeartbeatData then Some(Parsed(fileType, gateway, None, None, None, None))
      else ParseRest(fileType, gateway, parts[2..], known, lower)
  }

  lemma {:induction false} PickBound(rest: seq<string>, from: nat, last: int, test: string -> bool)
    requires last < |rest|
    ensures match Pick(rest, from, last, test)
            case Some(k) => from <= k <= last && test(rest[k]) && forall i :: from <= i < k ==> !test(rest[i])
            case None => forall i :: from <= i <= last ==> !test(rest[i])
    decreases last + 1 - from
  {
    if from <= last && !test(rest[from]) {
      PickBound(rest, from + 1, last, test);
    }
  }

  lemma NodeIndexBound(rest: seq<string>, last: int, known: seq<string>, lower: Lower)
    requires last < |rest|
    ensures NodeIndex(rest, last, known, lower) <= last
  {
    PickBound(rest, 1, last, (seg: string) => Known(known, seg, lower));
    PickBound(rest, 1, last, (seg: string) => HexId(seg));
    PickBound(rest, 1, last, (seg: string) => ShortId(seg));
  }

  // ─── Nothing is lost ───────────────────────────────────────────────────────────────

  function OrEmpty(text: Option<string>): string {
    match text case None => "" case Some(t) => t
  }

  /** Four segments and the underscores between them. */
  function Joined4(a: string, b: string, c: string, d: string): string {
    a + "_" + (b + "_" + (c + "_" + d))
  }

  lemma CutKeeps(fileType: FileType, gateway: string, rest: seq<string>, at: nat)
    requires 0 < at < |rest| && IsSensorFile(fileType) && Cut(fileType, gateway, rest, at).Some?
    ensures var p := Cut(fileType, gateway, rest, at).value;
            && p.fileType == fileType && p.gateway == gateway && p.node.Some? && p.nodeName.Some? && p.sensorLabel.Some?
            && Joined4(OrEmpty(p.project), p.node.value, p.nodeName.value, p.sensorLabel.value) == Join(rest, '_')
  {
    Pieces(rest, at);
    JoinPieces(rest[..at], rest[at], rest[at + 1], rest[at + 2..]);
  }

  lemma Pieces<T>(xs: seq<T>, at: nat)
    requires at + 2 < |xs|
    ensures xs == xs[..at] + ([xs[at]] + ([xs[at + 1]] + xs[at + 2..]))
    ensures xs[at + 1..][0] == xs[at + 1] && xs[at + 1..][1..] == xs[at + 2..]
  {}

  lemma JoinPieces(front: seq<string>, a: string, b: string, back: seq<string>)
    requires front != [] && back != []
    ensures Join(front + ([a] + ([b] + back)), '_') == Joined4(Join(front, '_'), a, b, Join(back, '_'))
  {
    JoinConcat(front, [a] + ([b] + back), '_');
    JoinConcat([a], [b] + back, '_');
    JoinConcat([b], back, '_');
  }

  lemma ParseRestKeeps(fileType: FileType, gateway: string, rest: seq<string>, known: seq<string>, lower: Lower)
    requires IsSensorFile(fileType) && ParseRest(fileType, gateway, rest, known, lower).Some?
    ensures var p := ParseRest(fileType, gateway, rest, known, lower).value;
            && p.fileType == fileType && p.gateway == gateway && p.node.Some? && p.nodeName.Some? && p.sensorLabel.Some?
            && Joined4(OrEmpty(p.project), p.node.value, p.nodeName.value, p.sensorLabel.value) == Join(rest, '_')
  {
    NodeIndexBound(rest, |rest| - 2, known, lower);
    CutKeeps(fileType, gateway, rest, NodeIndex(rest, |rest| - 2, known, lower));
  }

  /**
   When a sensor file's name parses, the name is its type and gateway segments followed by the
   project, node, node name and label rejoined: every character of it is accounted for.
   */
  lemma NothingLost(fileName: string, known: seq<string>, lower: Lower)
    requires ParseFileName(fileName, known, lower).Some?
             && IsSensorFile(ParseFileName(fileName, known, lower).value.fileType)
    ensures var p := ParseFileName(fileName, known, lower).value;
            var parts := Split(BaseName(fileName), '_');
            && |parts| >= 2 && lower(parts[0]) == lower(TypeName(p.fileType)) && Trim(parts[1]) == p.gateway
            && p.node.Some? && p.nodeName.Some? && p.sensorLabel.Some?
            && BaseName(fileName) == parts[0] + "_" + (parts[1] + "_"
                 + Joined4(OrEmpty(p.project), p.node.value, p.nodeName.value, p.sensorLabel.value))
  {
    var parts := Split(BaseName(fileName), '_');
    var p := ParseFileName(fileName, known, lower).value;
    FindTypeFinds(parts[0], lower, 0);
    ParseRestKeeps(p.fileType, p.gateway, parts[2..], known, lower);
    FirstTwo(BaseName(fileName));
  }

  lemma FirstTwo(name: string)
    requires |Split(name, '_')| > 2
    ensures var parts := Split(name, '_'); name == parts[0] + "_" + (parts[1] + "_" + Join(parts[2..], '_'))
  {
    var parts := Split(name, '_');
    JoinSplit(name, '_');
    assert parts == [parts[0]] + ([parts[1]] + parts[2..]);
    JoinConcat([parts[0]], [parts[1]] + parts[2..], '_');
    JoinConcat([parts[1]], parts[2..], '_');
  }

  lemma {:induction false} FindTypeFinds(name: string, lower: Lower, from: nat)
    ensures match FindType(name, lower, from)
            case Some(t) => lower(TypeName(t)) == lower(name)
            case None => forall i :: from <= i < |TYPES| ==> lower(TypeName(TYPES[i])) != lower(name)
    decreases |TYPES| - from
  {
    if from < |TYPES| && lower(TypeName(TYPES[from])) != lower(name) {
      FindTypeFinds(name, lower, from + 1);
    }
  }

  // ─── Printing and parsing back ─────────────────────────────────────────────────────

  /** A sensor file's name in its parts, as the gateway writes it. */
  datatype Parts = Parts(fileType: FileType, gateway: string, project: string, node: string, nodeName: string,
                         sensorLabel: string)

  function Segments(p: Parts): seq<string> {
    [TypeName(p.fileType), p.gateway, p.project, p.node, p.nodeName, p.sensorLabel]
  }

  function Print(p: Parts): string {
    Join(Segments(p), '_') + ".csv"
  }

  /** What parsing should give back. */
  function Expected(p: Parts): Parsed {
    Parsed(p.fileType, p.gateway, Some(p.node), Some(p.project), Some(p.nodeName), Some(p.sensorLabel))
  }

  predicate NoSeparator(text: string) {
    forall i :: 0 <= i < |text| ==> !IsSeparator(text[i])
  }

  /** The lower-casing tells the five type names apart. */
  predicate TellsTypesApart(lower: Lower) {
    forall i, j :: 0 <= i < j < |TYPES| ==> lower(TypeName(TYPES[i])) != lower(TypeName(TYPES[j]))
  }

  function SplitAll(parts: seq<string>): seq<string> {
    if parts == [] then [] else Split(parts[0], '_') + SplitAll(parts[1..])
  }

  lemma {:induction false} SplitOfJoin(parts: seq<string>)
    requires parts != []
    ensures Split(Join(parts, '_'), '_') == SplitAll(parts)
  {
    if |parts| == 1 {
      assert SplitAll(parts[1..]) == [];
    } else {
      SplitOfJoin(parts[1..]);
      SplitConcat(parts[0], Join(parts[1..], '_'), '_');
    }
  }

  /** A separator on the first line of the name: whatever is before the last of them is taken for a path. */
  predicate HasPath(name: string) {
    exists i :: 0 <= i < |name| && IsSeparator(name[i]) && OneLine(name, i)
  }

  predicate OneLine(name: string, n: nat)
    requires n <= |name|
  {
    forall i :: 0 <= i < n ==> name[i] !in {'\n', '\r', '\U{2028}', '\U{2029}'}
  }

  lemma {:induction false} PathLengthIs(name: string)
    ensures PathLength(name) > 0 <==> HasPath(name)
  {
    if name != "" && name[0] !in {'\n', '\r', '\U{2028}', '\U{2029}'} {
      PathLengthIs(name[1..]);
      if HasPath(name[1..]) {
        var i :| 0 <= i < |name[1..]| && IsSeparator(name[1..][i]) && OneLine(name[1..], i);
        assert IsSeparator(name[i + 1]);
        assert forall j :: 0 < j < i + 1 ==> name[j] == name[1..][j - 1];
      } else if IsSeparator(name[0]) {
        assert OneLine(name, 0);
      } else if HasPath(name) {
        var i :| 0 <= i < |name| && IsSeparator(name[i]) && OneLine(name, i);
        assert IsSeparator(name[1..][i - 1]) && OneLine(name[1..], i - 1);
      }
    }
  }

  lemma CutCsv(base: string)
    ensures WithoutCsv(base + ".csv") == base
  {}

  lemma PrintedBase(p: Parts)
    requires PathLength(Print(p)) == 0
    ensures BaseName(Print(p)) == Join(Segments(p), '_')
  {
    assert Print(p)[0..] == Print(p);
    CutCsv(Join(Segments(p), '_'));
  }

  lemma TypeSegment(t: FileType)
    ensures '_' !in TypeName(t) && NoSeparator(TypeName(t))
  {}

  function TypeNumber(t: FileType): nat {
    match t
    case SensorData => 0
    case ErrorSensorData => 1
    case NodeData => 2
    case NetworkData => 3
    case HeartbeatData => 4
  }

  lemma TypeFound(t: FileType, lower: Lower)
    requires TellsTypesApart(lower)
    ensures FindType(TypeName(t), lower, 0) == Some(t)
  {
    var k := TypeNumber(t);
    assert TYPES[k] == t;
    FindTypeFinds(TypeName(t), lower, 0);
    if FindType(TypeName(t), lower, 0).Some? {
      var u := FindType(TypeName(t), lower, 0).value;
      var j := TypeNumber(u);
      assert TYPES[j] == u;
    }
  }

  function RestOf(p: Parts): seq<string> {
    Split(p.project, '_') + Split(p.node, '_') + Split(p.nodeName, '_') + Split(p.sensorLabel, '_')
  }

  lemma SplitAllOne(a: string, rest: seq<string>)
    ensures SplitAll([a] + rest) == Split(a, '_') + SplitAll(rest)
  {
    assert ([a] + rest)[1..] == rest;
  }

  lemma {:induction false} SplitAllConcat(a: seq<string>, b: seq<string>)
    ensures SplitAll(a + b) == SplitAll(a) + SplitAll(b)
  {
    if a == [] {
      assert a + b == b;
    } else {
      assert (a + b)[1..] == a[1..] + b;
      SplitAllConcat(a[1..], b);
    }
  }

  lemma SplitAllFour(a: string, b: string, c: string, d: string)
    ensures SplitAll([a] + [b] + [c] + [d]) == Split(a, '_') + Split(b, '_') + Split(c, '_') + Split(d, '_')
  {
    SplitAllConcat([a] + [b] + [c], [d]);
    SplitAllConcat([a] + [b], [c]);
    SplitAllConcat([a], [b]);
    SplitAllAtom(a);
    SplitAllAtom(b);
    SplitAllAtom(c);
    SplitAllAtom(d);
  }

  lemma SplitAllAtom(a: string)
    ensures SplitAll([a]) == Split(a, '_')
  {
    assert [a][1..] == [] && Split(a, '_') + [] == Split(a, '_');
  }

  function FourOf(p: Parts): seq<string> {
    [p.project] + [p.node] + [p.nodeName] + [p.sensorLabel]
  }

  /** A name whose first segment is `first`, split again. */
  lemma SplitPrinted(first: string, p: Parts)
    requires '_' !in first && '_' !in p.gateway
    ensures Split(Join([first] + ([p.gateway] + FourOf(p)), '_'), '_') == [first] + ([p.gateway] + RestOf(p))
  {
    SplitOfJoin([first] + ([p.gateway] + FourOf(p)));
    SplitAllFour(p.project, p.node, p.nodeName, p.sensorLabel);
    SplitAllOne(p.gateway, FourOf(p));
    SplitAllOne(first, [p.gateway] + FourOf(p));
    SplitAtomic(first, '_');
    SplitAtomic(p.gateway, '_');
  }

  /** The parse of a printed name, once the type and the gateway are out of the way. */
  lemma ParsePrinted(p: Parts, known: seq<string>, lower: Lower)
    requires IsSensorFile(p.fileType) && TellsTypesApart(lower)
    requires PathLength(Print(p)) == 0 && '_' !in p.gateway
    ensures ParseFileName(Print(p), known, lower)
            == if Trim(p.gateway) == "" then None else ParseRest(p.fileType, Trim(p.gateway), RestOf(p), known, lower)
  {
    TypeSegment(p.fileType);
    PrintedBase(p);
    var first := TypeName(p.fileType);
    assert Segments(p) == [first] + ([p.gateway] + FourOf(p));
    SplitPrinted(first, p);
    var parts := [first] + ([p.gateway] + RestOf(p));
    assert parts[0] == first && parts[1] == p.gateway && parts[2..] == RestOf(p);
    TypeFound(p.fileType, lower);
  }

  /** Cutting the printed segments where the project ends gives the printed parts. */
  lemma CutThere(p: Parts)
    requires IsSensorFile(p.fileType) && p.project != "" && '_' !in p.node && '_' !in p.nodeName
    ensures var rest, at := RestOf(p), |Split(p.project, '_')|;
            at < |rest| - 2 && Cut(p.fileType, p.gateway, rest, at) == Some(Expected(p))
  {
    var rest, project, label' := RestOf(p), Split(p.project, '_'), Split(p.sensorLabel, '_');
    JoinSplit(p.project, '_');
    JoinSplit(p.sensorLabel, '_');
    SplitAtomic(p.node, '_');
    SplitAtomic(p.nodeName, '_');
    Sliced(project, p.node, p.nodeName, label');
  }

  lemma Sliced<T>(a: seq<T>, x: T, y: T, b: seq<T>)
    ensures var all := a + [x] + [y] + b;
            && all[..|a|] == a && all[|a|] == x && all[|a| + 1..] == [y] + b
            && all[|a| + 1..][0] == y && all[|a| + 1..][1..] == b
  {}

  /** And cutting anywhere else, or inside a node id or node name with an underscore, does not. */
  lemma CutElsewhere(p: Parts, at: nat)
    requires IsSensorFile(p.fileType) && 0 < at < |RestOf(p)|
    requires Cut(p.fileType, p.gateway, RestOf(p), at) == Some(Expected(p))
    ensures p.project != "" && '_' !in p.node && '_' !in p.nodeName && at == |Split(p.project, '_')|
  {
    var rest := RestOf(p);
    RestAtomic(p);
    assert rest[at] == p.node && rest[at + 1..][0] == rest[at + 1] == p.nodeName;
    assert Join(rest[..at], '_') == p.project;
    assert forall i :: 0 <= i < at ==> rest[..at][i] == rest[i];
    SplitJoin(rest[..at], '_');
  }

  lemma RestAtomic(p: Parts)
    ensures forall i :: 0 <= i < |RestOf(p)| ==> '_' !in RestOf(p)[i]
  {
    SplitParts(p.project, '_');
    SplitParts(p.node, '_');
    SplitParts(p.nodeName, '_');
    SplitParts(p.sensorLabel, '_');
  }

  lemma {:induction false} PathCut(dir: string, sep: char, name: string)
    requires sep in {'/', '\\'} && OneLine(dir, |dir|) && '/' !in name && '\\' !in name
    ensures PathLength(dir + ([sep] + name)) == |dir| + 1
    decreases |dir|
  {
    var text := dir + ([sep] + name);
    if dir == "" {
      assert text[1..] == name;
      NoPath(name);
    } else {
      assert text[0] == dir[0] && text[1..] == dir[1..] + ([sep] + name);
      assert forall i :: 0 <= i < |dir[1..]| ==> dir[1..][i] == dir[i + 1];
      PathCut(dir[1..], sep, name);
    }
  }

  lemma {:induction false} NoPath(name: string)
    requires '/' !in name && '\\' !in name
    ensures PathLength(name) == 0
  {
    if name != "" {
      assert forall c <- name[1..] :: c in name;
      NoPath(name[1..]);
    }
  }

  /**
   The base name: without the directories before it, in either notation, and without the extension,
   in either case.
   */
  lemma BaseNameIs(dir: string, sep: char, name: string, c: char, s: char, v: char)
    requires sep in {'/', '\\'} && OneLine(dir, |dir|) && '/' !in name && '\\' !in name
    requires c in {'c', 'C'} && s in {'s', 'S'} && v in {'v', 'V'}
    ensures BaseName(dir + ([sep] + (name + ['.', c, s, v]))) == name
    ensures BaseName(name + ['.', c, s, v]) == name
  {
    var file := name + ['.', c, s, v];
    PathCut(dir, sep, file);
    NoPath(file);
    assert (dir + ([sep] + file))[|dir| + 1..] == file;
    assert file[..|name|] == name;
  }

  /** Files of the other types have no label: what follows the node is its name, underscores and all. */
  lemma OtherFiles(fileType: FileType, gateway: string, rest: seq<string>, known: seq<string>, lower: Lower, k: int)
    requires fileType in {NodeData, NetworkData}
    requires |rest| >= 2 && Anchors(rest, |rest| - 1, k, known, lower)
    ensures ParseRest(fileType, gateway, rest, known, lower)
            == Some(Parsed(fileType, gateway, Some(rest[k]), OrNull(Join(rest[..k], '_')),
                           OrNull(Join(rest[k + 1..], '_')), None))
  {
    NodeIndexIs(rest, |rest| - 1, k, known, lower);
  }

  /** How sure a segment is to be the node's: known, or written like an id, in hexadecimal or short, or neither. */
  function Rank(seg: string, known: seq<string>, lower: Lower): nat {
    if exists i :: 0 <= i < |known| && lower(known[i]) == lower(seg) then 3
    else if 4 <= |seg| <= 12 && forall c <- seg :: c in "0123456789abcdefABCDEF" then 2
    else if 3 <= |seg| <= 12 && (forall c <- seg :: Alphanumeric(c)) && exists c <- seg :: c in "0123456789" then 1
    else 0
  }

  predicate Alphanumeric(c: char) {
    '0' <= c <= '9' || 'a' <= c <= 'z' || 'A' <= c <= 'Z'
  }

  lemma HexIdIs(seg: string)
    ensures HexId(seg) <==> 4 <= |seg| <= 12 && forall c <- seg :: c in "0123456789abcdefABCDEF"
  {
    forall i | 0 <= i < |seg|
      ensures IsDigit(seg[i]) || IsLetter(seg[i], 'f') <==> seg[i] in "0123456789abcdefABCDEF"
    {
      HexChar(seg[i]);
    }
  }

  lemma HexChar(c: char)
    ensures IsDigit(c) || IsLetter(c, 'f') <==> c in "0123456789abcdefABCDEF"
  {}

  lemma ShortIdIs(seg: string)
    ensures ShortId(seg)
            <==> 3 <= |seg| <= 12 && (forall c <- seg :: Alphanumeric(c)) && exists c <- seg :: c in "0123456789"
  {
    forall i | 0 <= i < |seg|
      ensures IsDigit(seg[i]) || IsLetter(seg[i], 'z') <==> Alphanumeric(seg[i])
      ensures IsDigit(seg[i]) <==> seg[i] in "0123456789"
    {
      DigitChar(seg[i]);
    }
  }

  lemma DigitChar(c: char)
    ensures IsDigit(c) <==> c in "0123456789"
  {}

  lemma RankIs(seg: string, known: seq<string>, lower: Lower)
    ensures Rank(seg, known, lower) == 3 <==> Known(known, seg, lower)
    ensures Rank(seg, known, lower) == 2 <==> !Known(known, seg, lower) && HexId(seg)
    ensures Rank(seg, known, lower) == 1 <==> !Known(known, seg, lower) && !HexId(seg) && ShortId(seg)
    ensures Rank(seg, known, lower) <= 3
  {
    HexIdIs(seg);
    ShortIdIs(seg);
  }

  /** Segment `k` is the surest of those from the second to `last`, and the first such. */
  ghost predicate Anchors(rest: seq<string>, last: int, k: int, known: seq<string>, lower: Lower)
    requires last < |rest|
  {
    && 1 <= k <= last
    && forall i :: 1 <= i <= last ==> !Outranks(rest[i], rest[k], i < k, known, lower)
  }

  predicate Outranks(seg: string, node: string, earlier: bool, known: seq<string>, lower: Lower) {
    var a, b := Rank(seg, known, lower), Rank(node, known, lower);
    if earlier then a >= b else a > b
  }

  lemma OneAnchor(rest: seq<string>, last: int, a: int, b: int, known: seq<string>, lower: Lower)
    requires last < |rest| && Anchors(rest, last, a, known, lower) && Anchors(rest, last, b, known, lower)
    ensures a == b
  {
    assert !Outranks(rest[a], rest[b], a < b, known, lower) && !Outranks(rest[b], rest[a], b < a, known, lower);
  }

  /** The cut falls on the surest segment, the first among equals. */
  lemma NodeIndexIs(rest: seq<string>, last: int, k: int, known: seq<string>, lower: Lower)
    requires last < |rest|
    ensures NodeIndex(rest, last, known, lower) == k && k >= 1 <==> Anchors(rest, last, k, known, lower)
  {
    if last >= 1 {
      var at := NodeIndex(rest, last, known, lower);
      RanksBelow(rest, last, at, known, lower);
      if Anchors(rest, last, k, known, lower) {
        OneAnchor(rest, last, at, k, known, lower);
      }
    } else {
      NodeIndexBound(rest, last, known, lower);
    }
  }

  lemma RanksBelow(rest: seq<string>, last: int, at: int, known: seq<string>, lower: Lower)
    requires 1 <= last < |rest| && at == NodeIndex(rest, last, known, lower)
    ensures Anchors(rest, last, at, known, lower)
  {
    PickBound(rest, 1, last, (seg: string) => Known(known, seg, lower));
    PickBound(rest, 1, last, (seg: string) => HexId(seg));
    PickBound(rest, 1, last, (seg: string) => ShortId(seg));
    forall i | 1 <= i <= last ensures !Outranks(rest[i], rest[at], i < at, known, lower) {
      RankIs(rest[i], known, lower);
      RankIs(rest[at], known, lower);
    }
  }

  /** The node is the surest segment after the project's first, short of the label's end. */
  ghost predicate Anchored(p: Parts, known: seq<string>, lower: Lower) {
    Anchors(RestOf(p), |RestOf(p)| - 2, |Split(p.project, '_')|, known, lower)
  }

  lemma NodeAnchored(p: Parts, known: seq<string>, lower: Lower)
    ensures NodeIndex(RestOf(p), |RestOf(p)| - 2, known, lower) == |Split(p.project, '_')|
            <==> Anchored(p, known, lower)
  {
    SplitParts(p.project, '_');
    NodeIndexIs(RestOf(p), |RestOf(p)| - 2, |Split(p.project, '_')|, known, lower);
  }

  /** No segment of the project after its first is itself a known node. */
  ghost predicate NoDecoy(p: Parts, known: seq<string>, lower: Lower) {
    forall i :: 1 <= i < |Split(p.project, '_')| ==> !Known(known, Split(p.project, '_')[i], lower)
  }

  /** A known node is sure enough unless a project segment is a known one too. */
  lemma KnownNodeIndex(p: Parts, known: seq<string>, lower: Lower)
    requires '_' !in p.node && Known(known, p.node, lower)
    ensures NodeIndex(RestOf(p), |RestOf(p)| - 2, known, lower) == |Split(p.project, '_')| <==> NoDecoy(p, known, lower)
    ensures Anchored(p, known, lower) <==> NoDecoy(p, known, lower)
  {
    var rest, k := RestOf(p), |Split(p.project, '_')|;
    SplitAtomic(p.node, '_');
    assert rest[k] == p.node && k <= |rest| - 2;
    assert forall i :: 0 <= i < k ==> rest[i] == Split(p.project, '_')[i];
    PickBound(rest, 1, |rest| - 2, (seg: string) => Known(known, seg, lower));
    NodeAnchored(p, known, lower);
  }

  lemma {:induction false} TrimInside(text: string, c: char)
    requires c !in text
    ensures c !in TrimStart(text) && c !in TrimEnd(text)
  {
    if text != "" {
      TrimInside(text[1..], c);
      TrimInside(text[..|text| - 1], c);
    }
  }

  /** A gateway key is read from one segment, trimmed. */
  lemma GatewaySegment(fileName: string, known: seq<string>, lower: Lower)
    requires ParseFileName(fileName, known, lower).Some?
    ensures var g := ParseFileName(fileName, known, lower).value.gateway;
            '_' !in g && g != ""
  {
    var parts := Split(BaseName(fileName), '_');
    SplitParts(BaseName(fileName), '_');
    TrimInside(parts[1], '_');
    TrimInside(TrimStart(parts[1]), '_');
  }

  /** What can be checked of a name's parts before it is printed. */
  ghost predicate NameSafe(p: Parts, known: seq<string>, lower: Lower) {
    && !HasPath(Print(p))
    && p.gateway != "" && Trim(p.gateway) == p.gateway && '_' !in p.gateway
    && p.project != "" && '_' !in p.node && '_' !in p.nodeName && Anchored(p, known, lower)
  }

  /**
   A printed sensor file name parses back to its parts if and only if no path separator stands on
   its first line, the gateway key is a non-empty trimmed segment, the project is not empty, neither
   node id nor node name holds an underscore, and the node is the surest segment: known before
   hexadecimal before short before anything else, the first among equals.
   */
  lemma PrintParse(p: Parts, known: seq<string>, lower: Lower)
    requires p.fileType in {SensorData, ErrorSensorData} && TellsTypesApart(lower)
    ensures ParseFileName(Print(p), known, lower) == Some(Expected(p)) <==> NameSafe(p, known, lower)
  {
    PathLengthIs(Print(p));
    if HasPath(Print(p)) {
      PathLost(p, known, lower);
    } else if '_' in p.gateway || Trim(p.gateway) != p.gateway {
      GatewayLost(p, known, lower);
    } else {
      ParsePrinted(p, known, lower);
      RestPrintParse(p, known, lower);
    }
  }

  /** A gateway key that is not one trimmed segment cannot come back. */
  lemma GatewayLost(p: Parts, known: seq<string>, lower: Lower)
    requires IsSensorFile(p.fileType) && TellsTypesApart(lower) && PathLength(Print(p)) == 0
    requires '_' in p.gateway || Trim(p.gateway) != p.gateway
    ensures ParseFileName(Print(p), known, lower) != Some(Expected(p))
  {
    if ParseFileName(Print(p), known, lower).Some? {
      if '_' in p.gateway {
        GatewaySegment(Print(p), known, lower);
      } else {
        ParsePrinted(p, known, lower);
        ParseRestKeeps(p.fileType, Trim(p.gateway), RestOf(p), known, lower);
      }
    }
  }

  /** What follows the last separator on the first line of a printed name. */
  lemma AfterPath(full: string, k: nat)
    requires k <= |full + ".csv"| && k > 0 && IsSeparator((full + ".csv")[k - 1])
    ensures k <= |full| && IsSeparator(full[k - 1]) && WithoutCsv((full + ".csv")[k..]) == full[k..]
  {
    assert !IsSeparator('.') && !IsSeparator('c') && !IsSeparator('s') && !IsSeparator('v');
    assert (full + ".csv")[k..] == full[k..] + ".csv";
    CutCsv(full[k..]);
  }

  lemma SameTailCut(head: string, other: string, tail: string, k: nat)
    requires k <= |head + tail| && (head + tail)[k..] == other + tail
    ensures k <= |head| && head[k..] == other
  {
    assert |head| - k == |other|;
    assert (head + tail)[k..][..|other|] == head[k..];
    assert (other + tail)[..|other|] == other;
  }

  /** Text with a single underscore, cut at `k`: the cut falls before the underscore if one is left. */
  lemma CutBeforeUnderscore(a: string, b: string, c: string, d: string, k: nat)
    requires '_' !in a && '_' !in b && k <= |a + "_" + b| && (a + "_" + b)[k..] == c + "_" + d
    ensures k <= |a|
  {
    var text := a + "_" + b;
    assert text[k..][|c|] == (c + "_" + d)[|c|] == '_';
    assert text[k + |c|] == '_';
    assert forall i :: |a| < i < |text| ==> text[i] == b[i - |a| - 1];
  }

  lemma PrintedShape(p: Parts)
    ensures Join(Segments(p), '_')
            == (TypeName(p.fileType) + "_" + p.gateway) + ("_" + Joined4(p.project, p.node, p.nodeName, p.sensorLabel))
  {
    assert Segments(p) == [TypeName(p.fileType)] + ([p.gateway] + FourOf(p));
    JoinConcat([TypeName(p.fileType)], [p.gateway] + FourOf(p), '_');
    JoinConcat([p.gateway], FourOf(p), '_');
    JoinFour(p.project, p.node, p.nodeName, p.sensorLabel);
    Regroup(TypeName(p.fileType), p.gateway, Joined4(p.project, p.node, p.nodeName, p.sensorLabel));
  }

  lemma Regroup(a: string, b: string, c: string)
    ensures a + "_" + (b + "_" + c) == (a + "_" + b) + ("_" + c)
  {}

  lemma JoinFour(a: string, b: string, c: string, d: string)
    ensures Join([a] + [b] + [c] + [d], '_') == Joined4(a, b, c, d)
  {
    assert [a] + [b] + [c] + [d] == [a] + ([b] + ([c] + [d]));
    JoinConcat([a], [b] + ([c] + [d]), '_');
    JoinConcat([b], [c] + [d], '_');
    JoinConcat([c], [d], '_');
  }

  /** A path in the name cuts into the type, so the parts do not come back. */
  lemma PathLost(p: Parts, known: seq<string>, lower: Lower)
    requires IsSensorFile(p.fileType) && PathLength(Print(p)) > 0
    ensures ParseFileName(Print(p), known, lower) != Some(Expected(p))
  {
    if ParseFileName(Print(p), known, lower) == Some(Expected(p)) {
      var name, full, k := Print(p), Join(Segments(p), '_'), PathLength(Print(p));
      var first, rest := TypeName(p.fileType), Joined4(p.project, p.node, p.nodeName, p.sensorLabel);
      PathLengthBound(name);
      AfterPath(full, k);
      NothingLost(name, known, lower);
      var parts := Split(BaseName(name), '_');
      Regroup(parts[0], parts[1], rest);
      PrintedShape(p);
      SameTailCut(first + "_" + p.gateway, parts[0] + "_" + parts[1], "_" + rest, k);
      GatewaySegment(name, known, lower);
      TypeSegment(p.fileType);
      CutBeforeUnderscore(first, p.gateway, parts[0], parts[1], k);
    }
  }

  ghost predicate RestSafe(p: Parts, known: seq<string>, lower: Lower) {
    p.project != "" && '_' !in p.node && '_' !in p.nodeName && Anchored(p, known, lower)
  }

  lemma RestCutThere(p: Parts, known: seq<string>, lower: Lower)
    requires IsSensorFile(p.fileType) && p.project != "" && '_' !in p.node && '_' !in p.nodeName
    requires NodeIndex(RestOf(p), |RestOf(p)| - 2, known, lower) == |Split(p.project, '_')|
    ensures ParseRest(p.fileType, p.gateway, RestOf(p), known, lower) == Some(Expected(p))
  {
    SplitParts(p.project, '_');
    CutThere(p);
  }

  lemma RestBack(p: Parts, known: seq<string>, lower: Lower)
    requires IsSensorFile(p.fileType) && RestSafe(p, known, lower)
    ensures ParseRest(p.fileType, p.gateway, RestOf(p), known, lower) == Some(Expected(p))
  {
    NodeAnchored(p, known, lower);
    RestCutThere(p, known, lower);
  }

  lemma RestOnly(p: Parts, known: seq<string>, lower: Lower)
    requires IsSensorFile(p.fileType)
    requires ParseRest(p.fileType, p.gateway, RestOf(p), known, lower) == Some(Expected(p))
    ensures RestSafe(p, known, lower)
  {
    var rest := RestOf(p);
    NodeIndexBound(rest, |rest| - 2, known, lower);
    CutElsewhere(p, NodeIndex(rest, |rest| - 2, known, lower));
    NodeAnchored(p, known, lower);
  }

  /** The rest comes back exactly when it is cut where the project ends. */
  lemma RestPrintParse(p: Parts, known: seq<string>, lower: Lower)
    requires IsSensorFile(p.fileType)
    ensures ParseRest(p.fileType, p.gateway, RestOf(p), known, lower) == Some(Expected(p))
            <==> RestSafe(p, known, lower)
  {
    if RestSafe(p, known, lower) {
      RestBack(p, known, lower);
    }
    if ParseRest(p.fileType, p.gateway, RestOf(p), known, lower) == Some(Expected(p)) {
      RestOnly(p, known, lower);
    }
  }
}
