/** The few string primitives the sources take from the language: white space, trimming, digits. */
module JsText {
  import opened Wrappers

  const BOM: char := '\U{FEFF}'

  /** What `String.prototype.trim` removes: WhiteSpace and LineTerminator of ECMA-262. */
  predicate IsSpace(c: char) {
    c in {'\U{9}', '\U{A}', '\U{B}', '\U{C}', '\U{D}', ' ', '\U{A0}', '\U{1680}', '\U{2028}', '\U{2029}',
          '\U{202F}', '\U{205F}', '\U{3000}', BOM}
    || '\U{2000}' <= c <= '\U{200A}'
  }

  function TrimStart(text: string): string {
    if text != "" && IsSpace(text[0]) then TrimStart(text[1..]) else text
  }

  function TrimEnd(text: string): string {
    if text != "" && IsSpace(text[|text| - 1]) then TrimEnd(text[..|text| - 1]) else text
  }

  function Trim(text: string): string {
    TrimEnd(TrimStart(text))
  }

  predicate Trimmed(text: string) {
    text != "" ==> !IsSpace(text[0]) && !IsSpace(text[|text| - 1])
  }

  lemma TrimStartNothing(text: string)
    requires text != "" ==> !IsSpace(text[0])
    ensures TrimStart(text) == text
  {}

  lemma TrimEndNothing(text: string)
    requires text != "" ==> !IsSpace(text[|text| - 1])
    ensures TrimEnd(text) == text
  {}

  lemma {:induction false} TrimStartEdge(text: string)
    ensures |TrimStart(text)| <= |text|
    ensures TrimStart(text) != "" ==> !IsSpace(TrimStart(text)[0])
  {
    if text != "" && IsSpace(text[0]) {
      TrimStartEdge(text[1..]);
    }
  }

  lemma {:induction false} TrimEndEdge(text: string)
    ensures TrimEnd(text) <= text && TrimEnd(text) == text[..|TrimEnd(text)|]
    ensures TrimEnd(text) != "" ==> !IsSpace(TrimEnd(text)[|TrimEnd(text)| - 1])
  {
    if text != "" && IsSpace(text[|text| - 1]) {
      TrimEndEdge(text[..|text| - 1]);
    }
  }

  lemma TrimIsTrimmed(text: string)
    ensures Trimmed(Trim(text)) && |Trim(text)| <= |text|
  {
    TrimStartEdge(text);
    TrimEndEdge(TrimStart(text));
  }

  lemma TrimNothing(text: string)
    requires Trimmed(text)
    ensures Trim(text) == text
  {}

  // ─── Digits ────────────────────────────────────────────────────────────────────────

  predicate IsDigit(c: char) {
    '0' <= c <= '9'
  }

  function Digit(n: int): char
    requires 0 <= n <= 9
  {
    '0' + n as char
  }

  function DigitRun(text: string, most: nat): nat {
    if most == 0 || text == "" || !IsDigit(text[0]) then 0 else 1 + DigitRun(text[1..], most - 1)
  }

  lemma {:induction false} DigitRunBound(text: string, most: nat)
    ensures DigitRun(text, most) <= |text|
    ensures DigitRun(text, most) <= most
  {
    if !(most == 0 || text == "" || !IsDigit(text[0])) {
      DigitRunBound(text[1..], most - 1);
    }
  }

  function Value(digits: string): int {
    if digits == "" then 0
    else Value(digits[..|digits| - 1]) * 10 + (digits[|digits| - 1] as int - '0' as int)
  }

  /** `\d{least,most}` where what must follow is not a digit: the longest run, and what is left. */
  function Number(text: string, least: nat, most: nat): Option<(int, string)> {
    DigitRunBound(text, most);
    var n := DigitRun(text, most);
    if n < least then None else Some((Value(text[..n]), text[n..]))
  }

  function OneOf(text: string, chars: set<char>): Option<string> {
    if text != "" && text[0] in chars then Some(text[1..]) else None
  }

  function Pad2(n: int): string
    requires 0 <= n <= 99
  {
    [Digit(n / 10), Digit(n % 10)]
  }

  function Pad4(n: int): string
    requires 0 <= n <= 9999
  {
    Pad2(n / 100) + Pad2(n % 100)
  }

  lemma ReadsChar(c: char, rest: string)
    ensures [c] + rest != "" && ([c] + rest)[0] == c && ([c] + rest)[1..] == rest
  {}

  lemma {:induction false} ValueConcat2(a: string, x: char, y: char)
    ensures Value(a + [x, y]) == Value(a) * 100 + (x as int - 48) * 10 + (y as int - 48)
  {
    assert (a + [x, y])[..|a| + 1] == a + [x];
    assert (a + [x])[..|a|] == a;
  }

  lemma PadDigits(n: int, m: int)
    requires 0 <= n <= 9999 && 0 <= m <= 99
    ensures !IsSpace(Pad4(n)[0]) && !IsSpace(Pad2(m)[1])
    ensures n <= 99 ==> !IsSpace(Pad2(n)[0])
  {}

  /** A two-digit number is read back, by any of the patterns that allow two digits and no more. */
  lemma ReadsNumber2(n: int, rest: string, least: nat)
    requires 0 <= n <= 99 && (rest != "" ==> !IsDigit(rest[0]))
    ensures least <= 2 ==> Number(Pad2(n) + rest, least, 2) == Some((n, rest))
    ensures least == 4 ==> Number(Pad2(n) + rest, 4, 4) == None
  {
    var text := Pad2(n) + rest;
    assert text[1..] == [Digit(n % 10)] + rest;
    assert text[1..][1..] == rest;
    assert DigitRun(text[1..], 1) == 1;
    assert DigitRun(text, 2) == 2;
    assert DigitRun(rest, 2) == 0;
    assert DigitRun(text[1..], 3) == 1;
    assert DigitRun(text, 4) == 2;
    assert text[..2] == "" + [Digit(n / 10), Digit(n % 10)];
    ValueConcat2("", Digit(n / 10), Digit(n % 10));
    assert text[2..] == rest;
  }

  lemma ReadsNumber4(n: int, rest: string)
    requires 0 <= n <= 9999
    ensures Number(Pad4(n) + rest, 4, 4) == Some((n, rest))
  {
    var text := Pad4(n) + rest;
    var a, b := Pad2(n / 100), Pad2(n % 100);
    assert text[1..][1..] == b + rest;
    assert (b + rest)[1..][1..] == rest;
    assert DigitRun(b + rest, 2) == 2 by { assert DigitRun((b + rest)[1..], 1) == 1; }
    assert DigitRun(text[1..], 3) == 3;
    assert text[..4] == a + b && text[4..] == rest;
    ValueConcat2(a, b[0], b[1]);
    ValueConcat2("", a[0], a[1]);
    assert "" + [a[0], a[1]] == a;
  }
}
