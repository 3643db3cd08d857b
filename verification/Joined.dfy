/**
 Strings joined with a separator and split again, as the sources do with `join` and `split`
 for file names, idempotency keys and alert keys; and decimal numerals.
 */
module Joined {
  import opened JsText

  function Join(parts: seq<string>, sep: char): string {
    if parts == [] then ""
    else if |parts| == 1 then parts[0]
    else parts[0] + [sep] + Join(parts[1..], sep)
  }

  function Split(text: string, sep: char): (parts: seq<string>)
    ensures parts != []
  {
    if text == "" then [""]
    else
      var rest := Split(text[1..], sep);
      if text[0] == sep then [""] + rest else [[text[0]] + rest[0]] + rest[1..]
  }

  lemma {:induction false} SplitAtomic(text: string, sep: char)
    requires sep !in text
    ensures Split(text, sep) == [text]
  {
    if text != "" {
      SplitAtomic(text[1..], sep);
      assert [text[0]] + text[1..] == text;
    }
  }

  lemma HeadTail<T>(a: seq<T>, b: seq<T>)
    requires a != []
    ensures a + b != [] && (a + b)[0] == a[0] && (a + b)[1..] == a[1..] + b
  {}

  lemma Assoc<T>(a: seq<T>, b: seq<T>, c: seq<T>)
    ensures a + (b + c) == a + b + c
  {}

  lemma {:induction false} SplitConcat(a: string, b: string, sep: char)
    ensures Split(a + [sep] + b, sep) == Split(a, sep) + Split(b, sep)
  {
    var text := a + [sep] + b;
    if a == "" {
      assert text[1..] == b;
    } else {
      assert text[0] == a[0] && text[1..] == a[1..] + [sep] + b;
      SplitConcat(a[1..], b, sep);
      var rest, tail := Split(a[1..], sep), Split(b, sep);
      HeadTail(rest, tail);
      if a[0] == sep {
        Assoc([""], rest, tail);
      } else {
        Assoc([[a[0]] + rest[0]], rest[1..], tail);
      }
    }
  }

  lemma {:induction false} SplitParts(text: string, sep: char)
    ensures forall i :: 0 <= i < |Split(text, sep)| ==> sep !in Split(text, sep)[i]
  {
    if text != "" {
      SplitParts(text[1..], sep);
    }
  }

  lemma {:induction false} JoinSplit(text: string, sep: char)
    ensures Join(Split(text, sep), sep) == text
  {
    if text != "" {
      JoinSplit(text[1..], sep);
      var rest := Split(text[1..], sep);
      if text[0] == sep {
        assert ([""] + rest)[1..] == rest;
        assert "" + [sep] + text[1..] == text;
      } else {
        var parts := [[text[0]] + rest[0]] + rest[1..];
        assert parts[1..] == rest[1..];
        assert Join(parts, sep) == [text[0]] + Join(rest, sep);
      }
    }
  }

  lemma {:induction false} SplitJoin(parts: seq<string>, sep: char)
    requires parts != [] && forall i :: 0 <= i < |parts| ==> sep !in parts[i]
    ensures Split(Join(parts, sep), sep) == parts
  {
    SplitAtomic(parts[0], sep);
    if |parts| > 1 {
      SplitJoin(parts[1..], sep);
      SplitConcat(parts[0], Join(parts[1..], sep), sep);
      assert [parts[0]] + parts[1..] == parts;
    } else {
      assert parts == [parts[0]];
    }
  }

  lemma {:induction false} JoinConcat(a: seq<string>, b: seq<string>, sep: char)
    requires a != [] && b != []
    ensures Join(a + b, sep) == Join(a, sep) + [sep] + Join(b, sep)
  {
    if |a| == 1 {
      assert (a + b)[1..] == b;
    } else {
      assert (a + b)[1..] == a[1..] + b;
      JoinConcat(a[1..], b, sep);
      assert a[0] + [sep] + (Join(a[1..], sep) + [sep] + Join(b, sep))
             == a[0] + [sep] + Join(a[1..], sep) + [sep] + Join(b, sep);
    }
  }

  // ─── Numerals ──────────────────────────────────────────────────────────────────────

  function DecimalNat(n: nat): string {
    (if n < 10 then "" else DecimalNat(n / 10)) + [Digit(n % 10)]
  }

  function Decimal(n: int): string {
    if n < 0 then ['-'] + DecimalNat(-n) else DecimalNat(n)
  }

  lemma {:induction false} DecimalDigits(n: nat)
    ensures DecimalNat(n) != ""
    ensures forall i :: 0 <= i < |DecimalNat(n)| ==> IsDigit(DecimalNat(n)[i])
    ensures Value(DecimalNat(n)) == n
  {
    var front := if n < 10 then "" else DecimalNat(n / 10);
    if n >= 10 {
      DecimalDigits(n / 10);
    }
    assert (front + [Digit(n % 10)])[..|front|] == front;
  }

  function IntValue(numeral: string): int {
    if numeral != "" && numeral[0] == '-' then -Value(numeral[1..]) else Value(numeral)
  }

  lemma NumeralReads(digits: string)
    requires digits != "" && forall i :: 0 <= i < |digits| ==> IsDigit(digits[i])
    ensures IntValue(digits) == Value(digits) && IntValue(['-'] + digits) == -Value(digits)
  {
    assert (['-'] + digits)[1..] == digits;
  }

  /** A numeral gives its number back and uses only digits and the minus sign. */
  lemma DecimalReads(n: int)
    ensures IntValue(Decimal(n)) == n
    ensures forall i :: 0 <= i < |Decimal(n)| ==> IsDigit(Decimal(n)[i]) || Decimal(n)[i] == '-'
  {
    DecimalDigits(if n < 0 then -n else n);
    NumeralReads(DecimalNat(if n < 0 then -n else n));
  }

  lemma DecimalAvoids(n: int, c: char)
    requires !IsDigit(c) && c != '-'
    ensures c !in Decimal(n)
  {
    DecimalReads(n);
  }
}
