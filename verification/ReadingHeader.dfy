/**
 The header of a reading column (`parseReadingHeader`): a sensor code, one of two marks, a
 channel type and a unit in parentheses. Codes may contain dashes, so the last mark decides.
 */
module ReadingHeader {
  import opened Wrappers
  import opened JsText

  datatype Kind = Reading | RawReading

  datatype Column = Column(index: nat, code: string, kind: Kind, channelType: string, unit: string)

  function Mark(kind: Kind): string {
    if kind == Reading then "-Reading-" else "-RawReading-"
  }

  predicate StartsAt(text: string, mark: string, i: int) {
    0 <= i <= |text| - |mark| && text[i..i + |mark|] == mark
  }

  /** The last place below `n` where the mark starts; -1 if there is none. */
  function LastAt(text: string, mark: string, n: nat): (i: int)
    ensures -1 <= i < n && (i >= 0 ==> StartsAt(text, mark, i))
    ensures forall k :: i < k < n ==> !StartsAt(text, mark, k)
  {
    if n == 0 then -1 else if StartsAt(text, mark, n - 1) then n - 1 else LastAt(text, mark, n - 1)
  }

  predicate OneLine(text: string) {
    forall i :: 0 <= i < |text| ==> text[i] !in {'\n', '\r', '\U{2028}', '\U{2029}'}
  }

  function SpaceRun(text: string): (n: nat)
    ensures n <= |text| && (n < |text| ==> !IsSpace(text[n]))
    ensures forall i :: 0 <= i < n ==> IsSpace(text[i])
  {
    if text != "" && IsSpace(text[0]) then 1 + SpaceRun(text[1..]) else 0
  }

  /** `^(.*?)\s*\((.*)\)\s*$` with the first group `n` characters long. */
  function UnitSplit(text: string, n: nat): Option<(string, string)>
    requires n <= |text|
  {
    var open := n + SpaceRun(text[n..]);
    var close := |TrimEnd(text)| - 1;
    TrimEndEdge(text);
    if open < close && text[open] == '(' && text[close] == ')' && OneLine(text[..n]) && OneLine(text[open + 1..close])
    then Some((text[..n], text[open + 1..close]))
    else None
  }

  function UnitFrom(text: string, from: nat): (n: Option<nat>)
    requires from <= |text|
    ensures n.None? ==> forall k :: from <= k <= |text| ==> UnitSplit(text, k).None?
    ensures n.Some? ==> from <= n.value <= |text| && UnitSplit(text, n.value).Some?
                        && forall k :: from <= k < n.value ==> UnitSplit(text, k).None?
    decreases |text| - from
  {
    if UnitSplit(text, from).Some? then Some(from)
    else if from == |text| then None
    else UnitFrom(text, from + 1)
  }

  /** The first group is lazy: the shortest that lets the rest match. */
  function UnitMatch(text: string): Option<(string, string)> {
    var n :- UnitFrom(text, 0);
    UnitSplit(text, n)
  }

  function MarkAt(text: string): int {
    var raw, reading := LastAt(text, Mark(RawReading), |text|), LastAt(text, Mark(Reading), |text|);
    if raw > reading then raw else reading
  }

  /** Channel type and unit, from what follows the mark. */
  function ReadLabel(index: nat, code: string, kind: Kind, tail: string): Option<Column> {
    var m := UnitMatch(tail);
    var channelType := Trim(if m.Some? then m.value.0 else tail);
    if channelType == "" then None
      else Some(Column(index, code, kind, channelType, if m.Some? then Trim(m.value.1) else ""))
  }

  function KindAt(text: string, at: int): (kind: Kind)
    requires StartsAt(text, Mark(Reading), at) || StartsAt(text, Mark(RawReading), at)
    ensures StartsAt(text, Mark(kind), at)
  {
    if StartsAt(text, Mark(RawReading), at) then RawReading else Reading
  }

  function ParseTrimmed(h: string, index: nat): Option<Column> {
    var at := MarkAt(h);
    if at <= 0 then None
    else
      var kind := KindAt(h, at);
      ReadLabel(index, h[..at], kind, h[at + |Mark(kind)|..])
  }

  function ParseReadingHeader(header: string, index: nat): Option<Column> {
    ParseTrimmed(Trim(header), index)
  }

  // ─── Writing and reading back ──────────────────────────────────────────────────────

  function PrintLabel(channelType: string, unit: string): string {
    channelType + (" (" + (unit + ")"))
  }

  function PrintHeader(c: Column): string {
    c.code + (Mark(c.kind) + PrintLabel(c.channelType, c.unit))
  }

  /** The label part survives: the type has no parenthesis of its own, and nothing is trimmed or broken over lines. */
  predicate LabelSafe(channelType: string, unit: string) {
    && channelType != "" && Trimmed(channelType) && '(' !in channelType && OneLine(channelType)
    && Trimmed(unit) && OneLine(unit)
  }

  /** What a caller can check before writing: no mark starts later than the one written. */
  predicate HeaderSafe(c: Column) {
    && c.code != "" && !IsSpace(c.code[0]) && LabelSafe(c.channelType, c.unit)
    && NoMarkAfter(PrintHeader(c), |c.code|)
  }

  /** Neither mark starts after place `at`. */
  predicate NoMarkAfter(text: string, at: int) {
    forall i :: at < i < |text| ==> !StartsAt(text, "-Reading-", i) && !StartsAt(text, "-RawReading-", i)
  }

  /** Where a header is cut: at the last mark of either kind. */
  lemma MarkIs(text: string, at: nat)
    ensures MarkAt(text) == at
            <==> (StartsAt(text, "-Reading-", at) || StartsAt(text, "-RawReading-", at)) && NoMarkAfter(text, at)
  {}

  lemma PrintedMark(c: Column)
    ensures MarkAt(PrintHeader(c)) == |c.code| <==> NoMarkAfter(PrintHeader(c), |c.code|)
  {
    HeaderShape(c);
    MarkIs(PrintHeader(c), |c.code|);
  }

  lemma MarkFourth(text: string, kind: Kind, i: int)
    ensures StartsAt(text, Mark(kind), i) ==> text[i + 3] == if kind == Reading then 'a' else 'w'
  {
    if StartsAt(text, Mark(kind), i) {
      assert text[i + 3] == text[i..i + |Mark(kind)|][3];
    }
  }

  lemma MarksDiffer(text: string, i: int)
    ensures !(StartsAt(text, Mark(Reading), i) && StartsAt(text, Mark(RawReading), i))
  {
    MarkFourth(text, Reading, i);
    MarkFourth(text, RawReading, i);
  }

  /** Where the pieces of a label are. */
  lemma LabelShape(channelType: string, unit: string)
    ensures var tail, n := PrintLabel(channelType, unit), |channelType|;
            && |tail| == n + |unit| + 3 && tail[..n] == channelType
            && tail[n] == ' ' && tail[n + 1] == '(' && tail[|tail| - 1] == ')'
            && tail[n + 2..|tail| - 1] == unit && TrimEnd(tail) == tail
  {
    assert !IsSpace(')');
    TrimEndNothing(PrintLabel(channelType, unit));
  }

  lemma SplitEarly(channelType: string, unit: string, n: nat)
    requires LabelSafe(channelType, unit) && n < |channelType|
    ensures UnitSplit(PrintLabel(channelType, unit), n).None?
  {
    var tail := PrintLabel(channelType, unit);
    LabelShape(channelType, unit);
    assert forall i :: 0 <= i < |channelType| ==> tail[i] == channelType[i];
    assert tail[n..][|channelType| - 1 - n] == channelType[|channelType| - 1];
    assert n + SpaceRun(tail[n..]) < |channelType|;
  }

  lemma SplitThere(channelType: string, unit: string)
    requires LabelSafe(channelType, unit)
    ensures UnitSplit(PrintLabel(channelType, unit), |channelType|) == Some((channelType, unit))
  {
    var tail, n := PrintLabel(channelType, unit), |channelType|;
    LabelShape(channelType, unit);
    assert IsSpace(' ') && !IsSpace('(');
    assert tail[n..][0] == ' ' && tail[n..][1] == '(';
    assert tail[n..][1..][0] == '(';
    assert SpaceRun(tail[n..][1..]) == 0;
  }

  lemma LabelReads(channelType: string, unit: string)
    requires LabelSafe(channelType, unit)
    ensures UnitMatch(PrintLabel(channelType, unit)) == Some((channelType, unit))
  {
    SplitThere(channelType, unit);
    forall k | 0 <= k < |channelType| ensures UnitSplit(PrintLabel(channelType, unit), k).None? {
      SplitEarly(channelType, unit, k);
    }
    LabelShape(channelType, unit);
  }

  lemma SplitIs(text: string, n: nat) returns (open: nat)
    requires n <= |text| && UnitSplit(text, n).Some? && TrimEnd(text) == text
    ensures n <= open < |text| - 1
    ensures var m := UnitSplit(text, n).value;
            m.0 == text[..n] && m.1 == text[open + 1..|text| - 1] && OneLine(m.0) && OneLine(m.1)
  {
    open := n + SpaceRun(text[n..]);
  }

  /** A split that gives the type back, up to trimming, leaves room for the unit and nothing else. */
  lemma SplitPlaces(channelType: string, unit: string, n: nat)
    requires n <= |PrintLabel(channelType, unit)| && UnitSplit(PrintLabel(channelType, unit), n).Some?
    requires var m := UnitSplit(PrintLabel(channelType, unit), n).value;
             Trim(m.0) == channelType != "" && Trim(m.1) == unit
    ensures |channelType| <= n && Trimmed(channelType) && Trimmed(unit) && OneLine(channelType) && OneLine(unit)
  {
    var tail := PrintLabel(channelType, unit);
    LabelShape(channelType, unit);
    var open := SplitIs(tail, n);
    var m := UnitSplit(tail, n).value;
    TrimIsTrimmed(m.0);
    TrimIsTrimmed(m.1);
    Inside(tail, channelType, unit, m.0, m.1, n, open);
  }

  lemma Inside(tail: string, channelType: string, unit: string, a: string, b: string, n: nat, open: nat)
    requires |channelType| <= n <= open < |tail| - 1 && |tail| == |channelType| + |unit| + 3 && |unit| <= |b|
    requires tail[..|channelType|] == channelType && tail[|channelType| + 2..|tail| - 1] == unit
    requires tail[..n] == a && tail[open + 1..|tail| - 1] == b && OneLine(a) && OneLine(b)
    ensures OneLine(channelType) && OneLine(unit)
  {
    Shifted(tail, channelType, 0, a, 0);
    Shifted(tail, unit, |channelType| + 2, b, open + 1);
  }

  /** A stretch of the text is on one line if a longer stretch around it is. */
  lemma Shifted(text: string, inner: string, at: nat, outer: string, from: nat)
    requires from <= at && at + |inner| <= from + |outer| <= |text|
    requires text[at..at + |inner|] == inner && text[from..from + |outer|] == outer && OneLine(outer)
    ensures OneLine(inner)
  {
    forall i | 0 <= i < |inner| ensures inner[i] !in {'\n', '\r', '\U{2028}', '\U{2029}'} {
      assert inner[i] == text[at + i] == outer[at - from + i];
    }
  }

  /** A parenthesis in the type would be taken for the start of the unit. */
  lemma SplitAtParenthesis(channelType: string, unit: string, k: nat)
    requires OneLine(channelType) && OneLine(unit) && k < |channelType| && channelType[k] == '('
    ensures UnitSplit(PrintLabel(channelType, unit), k).Some?
  {
    var tail := PrintLabel(channelType, unit);
    LabelShape(channelType, unit);
    assert tail[k..][0] == tail[k] == tail[..|channelType|][k];
    assert !IsSpace('(');
    assert SpaceRun(tail[k..]) == 0;
    forall i | 0 <= i < |tail| ensures tail[i] !in {'\n', '\r', '\U{2028}', '\U{2029}'} {
      if i < |channelType| {
        assert tail[i] == channelType[i];
      } else if |channelType| + 2 <= i < |tail| - 1 {
        assert tail[|channelType| + 2..|tail| - 1][i - |channelType| - 2] == tail[i];
      }
    }
  }

  lemma LabelIsNoType(channelType: string, unit: string)
    requires channelType != ""
    ensures Trim(PrintLabel(channelType, unit)) != channelType
  {
    var tail := PrintLabel(channelType, unit);
    TrimIsTrimmed(tail);
    LabelShape(channelType, unit);
    if Trimmed(channelType) {
      assert tail[0] == tail[..|channelType|][0];
      assert !IsSpace(')');
      TrimNothing(tail);
    }
  }

  lemma SplitOnlySafe(channelType: string, unit: string, n: nat)
    requires n <= |PrintLabel(channelType, unit)| && UnitSplit(PrintLabel(channelType, unit), n).Some?
    requires forall k :: 0 <= k < n ==> UnitSplit(PrintLabel(channelType, unit), k).None?
    requires var m := UnitSplit(PrintLabel(channelType, unit), n).value;
             Trim(m.0) == channelType != "" && Trim(m.1) == unit
    ensures LabelSafe(channelType, unit)
  {
    SplitPlaces(channelType, unit, n);
    forall k | 0 <= k < |channelType| ensures channelType[k] != '(' {
      if channelType[k] == '(' {
        SplitAtParenthesis(channelType, unit, k);
      }
    }
  }

  lemma LabelReadsOnlySafe(channelType: string, unit: string)
    requires var m := UnitMatch(PrintLabel(channelType, unit));
             channelType != "" && channelType == Trim(if m.Some? then m.value.0 else PrintLabel(channelType, unit))
             && unit == if m.Some? then Trim(m.value.1) else ""
    ensures LabelSafe(channelType, unit)
  {
    var tail := PrintLabel(channelType, unit);
    var m := UnitMatch(tail);
    LabelIsNoType(channelType, unit);
    SplitOnlySafe(channelType, unit, UnitFrom(tail, 0).value);
  }

  lemma HeaderShape(c: Column)
    ensures var text := PrintHeader(c);
            && text[..|c.code|] == c.code && text[|c.code| + |Mark(c.kind)|..] == PrintLabel(c.channelType, c.unit)
            && StartsAt(text, Mark(c.kind), |c.code|) && !IsSpace(text[|text| - 1])
  {
    var text, mark, tail := PrintHeader(c), Mark(c.kind), PrintLabel(c.channelType, c.unit);
    LabelShape(c.channelType, c.unit);
    assert text[|text| - 1] == tail[|tail| - 1] == ')';
    assert text[|c.code|..|c.code| + |mark|] == mark;
  }

  lemma KindFound(text: string, kind: Kind, at: nat)
    requires StartsAt(text, Mark(kind), at)
    ensures KindAt(text, at) == kind
  {
    MarksDiffer(text, at);
  }

  /** What a trimmed text is read as, once the place of the mark is known. */
  lemma ReadsAt(text: string, c: Column, tail: string)
    requires MarkAt(text) == |c.code| > 0 && StartsAt(text, Mark(c.kind), |c.code|)
    requires text[..|c.code|] == c.code && text[|c.code| + |Mark(c.kind)|..] == tail
    ensures ParseTrimmed(text, c.index) == ReadLabel(c.index, c.code, c.kind, tail)
  {
    KindFound(text, c.kind, |c.code|);
  }

  lemma HeaderTrims(c: Column)
    requires c.code != "" && !IsSpace(c.code[0])
    ensures Trim(PrintHeader(c)) == PrintHeader(c)
  {
    HeaderShape(c);
    assert PrintHeader(c)[0] == PrintHeader(c)[..|c.code|][0];
    TrimNothing(PrintHeader(c));
  }

  lemma SafeReads(c: Column)
    requires HeaderSafe(c)
    ensures ParseReadingHeader(PrintHeader(c), c.index) == Some(c)
  {
    PrintedMark(c);
    HeaderTrims(c);
    HeaderShape(c);
    ReadsAt(PrintHeader(c), c, PrintLabel(c.channelType, c.unit));
    LabelReads(c.channelType, c.unit);
    TrimNothing(c.channelType);
    TrimNothing(c.unit);
  }

  /** Whatever is read starts with a character that is no space, and its code ends at the mark. */
  lemma CodeRead(text: string, index: nat)
    requires ParseReadingHeader(text, index).Some?
    ensures var c := ParseReadingHeader(text, index).value;
            c.code != "" && !IsSpace(c.code[0]) && |c.code| == MarkAt(Trim(text)) && c.channelType != ""
  {
    TrimIsTrimmed(text);
  }

  /** What is read back has its mark in place, and its label is read back too. */
  lemma LabelReadBack(c: Column)
    requires ParseReadingHeader(PrintHeader(c), c.index) == Some(c)
    ensures c.code != "" && !IsSpace(c.code[0]) && MarkAt(PrintHeader(c)) == |c.code|
    ensures ReadLabel(c.index, c.code, c.kind, PrintLabel(c.channelType, c.unit)) == Some(c)
  {
    CodeRead(PrintHeader(c), c.index);
    HeaderTrims(c);
    HeaderShape(c);
    ReadsAt(PrintHeader(c), c, PrintLabel(c.channelType, c.unit));
  }

  lemma OnlySafeLabel(c: Column)
    requires ReadLabel(c.index, c.code, c.kind, PrintLabel(c.channelType, c.unit)) == Some(c)
    ensures LabelSafe(c.channelType, c.unit)
  {
    LabelReadsOnlySafe(c.channelType, c.unit);
  }

  lemma OnlySafeReads(c: Column)
    requires ParseReadingHeader(PrintHeader(c), c.index) == Some(c)
    ensures HeaderSafe(c)
  {
    LabelReadBack(c);
    OnlySafeLabel(c);
    PrintedMark(c);
  }

  /** A header is read back as it was written exactly when it is safe. */
  lemma HeaderRoundTrip(c: Column)
    ensures ParseReadingHeader(PrintHeader(c), c.index) == Some(c) <==> HeaderSafe(c)
  {
    if HeaderSafe(c) {
      SafeReads(c);
    }
    if ParseReadingHeader(PrintHeader(c), c.index) == Some(c) {
      OnlySafeReads(c);
    }
  }
}
