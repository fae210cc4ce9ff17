/** The values that reading JSON text can give, and with them exactly which values survive printing
    and reading. */
module JsonDomain {
  import opened Options
  import opened Json

  // ----------------------------------------------------------------------- objects as maps

  lemma {:induction false} LessOrders(a: string, b: string)
    ensures !Less(a, a)
    ensures a != b ==> Less(a, b) != Less(b, a)
  {
    if |a| > 0 {
      LessOrders(a[1..], if |b| > 0 then b[1..] else b);
      assert a == [a[0]] + a[1..] && (|b| > 0 ==> b == [b[0]] + b[1..]);
    }
  }

  lemma {:induction false} LessTransitive(a: string, b: string, c: string)
    requires Less(a, b) && Less(b, c)
    ensures Less(a, c)
  {
    if |a| > 0 && a[0] == b[0] == c[0] {
      LessTransitive(a[1..], b[1..], c[1..]);
    }
  }

  predicate Ascending(fields: seq<Field>) {
    forall i, j :: 0 <= i < j < |fields| ==> Less(fields[i].key, fields[j].key)
  }

  /** Keys below the last one are not the last one, nor anything above it. */
  lemma BelowLast(fields: seq<Field>, key: string)
    requires |fields| > 0 && Ascending(fields)
    requires var last := fields[|fields| - 1].key; last == key || Less(last, key)
    ensures forall f :: f in fields[..|fields| - 1] ==> f.key != key && Less(f.key, key)
  {
    var n := |fields| - 1;
    LessOrders(key, key);
    forall i | 0 <= i < n ensures Less(fields[i].key, key) {
      if fields[n].key != key {
        LessTransitive(fields[i].key, fields[n].key, key);
      }
    }
  }

  /** Insertion puts the value under its key and keeps all other fields, in key order. */
  lemma {:induction false} InsertMeans(fields: seq<Field>, key: string, value: Value)
    requires Ascending(fields)
    ensures Ascending(Insert(fields, key, value))
    ensures forall f :: f in Insert(fields, key, value) <==> f == Field(key, value) || (f in fields && f.key != key)
  {
    if |fields| > 0 {
      var front, last := fields[..|fields| - 1], fields[|fields| - 1];
      assert fields == front + [last];
      LessOrders(last.key, key);
      if Less(last.key, key) || last.key == key {
        BelowLast(fields, key);
        assert forall i :: 0 <= i < |front| ==> front[i] in front;
      } else {
        InsertMeans(front, key, value);
        var inserted := Insert(front, key, value);
        BelowLast(fields, last.key);
        assert forall i :: 0 <= i < |inserted| ==> inserted[i] in inserted;
      }
    }
  }

  // ---------------------------------------------------------------------------- numbers

  predicate IsSuffix(r: string, s: string) {
    |r| <= |s| && r == s[|s| - |r|..]
  }

  lemma {:induction false} DigitsSuffix(s: string)
    ensures IsSuffix(SkipDigits(s), s)
  {
    if StartsDigit(s) {
      DigitsSuffix(s[1..]);
    }
  }

  lemma SuffixInside(r: string, s: string, k: nat)
    requires k <= |s| && IsSuffix(r, s[k..])
    ensures IsSuffix(r, s)
  {
  }

  lemma SuffixOfSuffix(a: string, b: string, c: string)
    requires IsSuffix(a, b) && IsSuffix(b, c)
    ensures IsSuffix(a, c)
  {
    SuffixInside(a, c, |c| - |b|);
  }

  lemma FractionSuffix(s: string)
    requires SkipFraction(s).Some?
    ensures IsSuffix(SkipFraction(s).value, s)
  {
    if |s| > 0 && s[0] == '.' {
      DigitsSuffix(s[1..]);
      SuffixInside(SkipDigits(s[1..]), s, 1);
    }
  }

  lemma ExponentSuffix(s: string)
    requires SkipExponent(s).Some?
    ensures IsSuffix(SkipExponent(s).value, s)
  {
    if |s| > 0 && (s[0] == 'e' || s[0] == 'E') {
      var t := SkipSign(s[1..]);
      DigitsSuffix(t);
      SuffixInside(t, s, |s| - |t|);
      SuffixOfSuffix(SkipDigits(t), t, s);
    }
  }

  lemma IntegerSuffix(s: string)
    requires SkipInteger(s).Some?
    ensures IsSuffix(SkipInteger(s).value, s)
  {
    DigitsSuffix(s);
  }

  /** What is skipped without touching `y` is skipped without `y`. */
  lemma {:induction false} DigitsCut(x: string, y: string)
    requires |SkipDigits(x + y)| >= |y|
    ensures SkipDigits(x + y) == SkipDigits(x) + y
  {
    if |x| == 0 {
      assert x + y == y;
    } else if StartsDigit(x) {
      assert (x + y)[1..] == x[1..] + y;
      DigitsCut(x[1..], y);
    }
  }

  lemma StartsBefore(x: string, y: string)
    requires StartsDigit(x + y) && |SkipDigits(x + y)| >= |y|
    ensures StartsDigit(x) && SkipDigits(x + y) == SkipDigits(x) + y
  {
    assert x == "" ==> x + y == y;
    DigitsCut(x, y);
  }

  lemma FractionCut(x: string, y: string)
    requires SkipFraction(x + y).Some? && |SkipFraction(x + y).value| >= |y|
    ensures SkipFraction(x).Some? && SkipFraction(x + y).value == SkipFraction(x).value + y
  {
    if |x| == 0 {
      assert x + y == y;
    } else if x[0] == '.' {
      assert (x + y)[1..] == x[1..] + y;
      StartsBefore(x[1..], y);
    }
  }

  lemma SignCut(x: string, y: string)
    requires StartsDigit(SkipSign(x + y)) && |SkipDigits(SkipSign(x + y))| >= |y|
    ensures StartsDigit(SkipSign(x)) && SkipDigits(SkipSign(x + y)) == SkipDigits(SkipSign(x)) + y
  {
    assert x == "" ==> x + y == y;
    if |x| > 0 {
      assert (x + y)[1..] == x[1..] + y;
      StartsBefore(SkipSign(x), y);
    }
  }

  lemma ExponentCut(x: string, y: string)
    requires SkipExponent(x + y).Some? && |SkipExponent(x + y).value| >= |y|
    ensures SkipExponent(x).Some? && SkipExponent(x + y).value == SkipExponent(x).value + y
  {
    if |x| == 0 {
      assert x + y == y;
    } else {
      assert (x + y)[1..] == x[1..] + y;
      if x[0] == 'e' || x[0] == 'E' {
        SignCut(x[1..], y);
      }
    }
  }

  lemma IntegerCut(x: string, y: string)
    requires SkipInteger(x + y).Some? && |SkipInteger(x + y).value| >= |y|
    ensures SkipInteger(x).Some? && SkipInteger(x + y).value == SkipInteger(x).value + y
  {
    assert x == "" ==> x + y == y;
    if |x| > 0 {
      assert (x + y)[1..] == x[1..] + y;
      DigitsShort(x + y);
      if x[0] != '0' {
        DigitsCut(x, y);
      }
    }
  }

  lemma DigitsShort(s: string)
    ensures SkipInteger(s).Some? && s[0] != '0' ==> SkipInteger(s).value == SkipDigits(s)
  {
  }

  /** What follows a number without its sign. */
  function SkipUnsigned(s: string): Option<string> {
    var integer := SkipInteger(s);
    if integer.None? then None
    else
      var fraction := SkipFraction(integer.value);
      if fraction.None? then None else SkipExponent(fraction.value)
  }

  lemma UnsignedSuffix(s: string)
    requires SkipUnsigned(s).Some?
    ensures IsSuffix(SkipUnsigned(s).value, s)
  {
    var integer := SkipInteger(s).value;
    var fraction := SkipFraction(integer).value;
    IntegerSuffix(s);
    FractionSuffix(integer);
    ExponentSuffix(fraction);
    SuffixOfSuffix(fraction, integer, s);
    SuffixOfSuffix(SkipExponent(fraction).value, fraction, s);
  }

  lemma UnsignedCut(x: string, y: string)
    requires SkipUnsigned(x + y) == Some(y)
    ensures SkipUnsigned(x) == Some("")
  {
    var integer := SkipInteger(x + y).value;
    IntegerCut(x, y);
    FractionCut(SkipInteger(x).value, y);
    ExponentCut(SkipFraction(SkipInteger(x).value).value, y);
  }

  lemma NumberIsUnsigned(t: string)
    ensures SkipNumber(t) == SkipUnsigned(if |t| > 0 && t[0] == '-' then t[1..] else t)
  {
  }

  /** The text of a number that was read is a number. */
  lemma NumberRead(t: string)
    requires SkipNumber(t).Some?
    ensures IsNumber(t[..|t| - |SkipNumber(t).value|])
  {
    var minus := |t| > 0 && t[0] == '-';
    var s, y := if minus then t[1..] else t, SkipNumber(t).value;
    NumberIsUnsigned(t);
    UnsignedSuffix(s);
    var x, text := s[..|s| - |y|], t[..|t| - |y|];
    assert s == x + y;
    UnsignedCut(x, y);
    NumberIsUnsigned(text);
    if minus {
      assert text[1..] == x;
    }
  }

  // -------------------------------------------------------------------------- what is read

  /** Every field's value is printable, and the keys ascend. */
  ghost predicate GoodMap(fields: seq<Field>, depth: nat, inRange: string -> bool) {
    Ascending(fields) && forall f :: f in fields ==> Printable(f.value, depth, inRange)
  }

  lemma MapPrintable(fields: seq<Field>, depth: nat, inRange: string -> bool)
    requires GoodMap(fields, depth, inRange)
    ensures Printable(Object(fields), depth + 1, inRange)
  {
    assert forall i :: 0 <= i < |fields| ==> fields[i] in fields;
  }

  lemma InsertGood(fields: seq<Field>, key: string, value: Value, depth: nat, inRange: string -> bool)
    requires GoodMap(fields, depth, inRange) && Printable(value, depth, inRange)
    ensures GoodMap(Insert(fields, key, value), depth, inRange)
  {
    InsertMeans(fields, key, value);
  }

  /** A value that was read is printable: numbers are valid and in range, keys ascend, and the
      nesting is within the limit. */
  lemma {:induction false} ReadIsPrintable(s: string, depth: nat, inRange: string -> bool)
    requires depth > 0 && ReadValue(s, depth, inRange).Some?
    ensures Printable(ReadValue(s, depth, inRange).value.0, depth - 1, inRange)
    decreases |s|, 2
  {
    BareIsPrintable(SkipSpace(s), depth, inRange);
  }

  lemma {:induction false} BareIsPrintable(t: string, depth: nat, inRange: string -> bool)
    requires depth > 0 && ReadBare(t, depth, inRange).Some?
    ensures Printable(ReadBare(t, depth, inRange).value.0, depth - 1, inRange)
    decreases |t|, 1
  {
    if t[0] == '[' {
      ArrayIsPrintable(t, depth, inRange);
    } else if t[0] == '{' {
      ObjectIsPrintable(t, depth, inRange);
    } else if t[0] != 'n' && t[0] != 't' && t[0] != 'f' && t[0] != '"' {
      NumberRead(t);
    }
  }

  lemma {:induction false} ArrayIsPrintable(t: string, depth: nat, inRange: string -> bool)
    requires depth > 0 && ReadBare(t, depth, inRange).Some? && t[0] == '['
    ensures Printable(ReadBare(t, depth, inRange).value.0, depth - 1, inRange)
    decreases |t|, 0
  {
    var inner := SkipSpace(t[1..]);
    if |inner| == 0 || inner[0] != ']' {
      ItemsArePrintable(t[1..], depth - 1, inRange);
    }
  }

  lemma {:induction false} ObjectIsPrintable(t: string, depth: nat, inRange: string -> bool)
    requires depth > 0 && ReadBare(t, depth, inRange).Some? && t[0] == '{'
    ensures Printable(ReadBare(t, depth, inRange).value.0, depth - 1, inRange)
    decreases |t|, 0
  {
    var inner := SkipSpace(t[1..]);
    if |inner| == 0 || inner[0] != '}' {
      FieldsArePrintable(t[1..], depth - 1, inRange, []);
      MapPrintable(ReadFields(t[1..], depth - 1, inRange, []).value.0, depth - 2, inRange);
    }
  }

  lemma {:induction false} ItemsArePrintable(s: string, depth: nat, inRange: string -> bool)
    requires depth > 0 && ReadItems(s, depth, inRange).Some?
    ensures var items := ReadItems(s, depth, inRange).value.0;
            forall i :: 0 <= i < |items| ==> Printable(items[i], depth - 1, inRange)
    decreases |s|, 3
  {
    ReadIsPrintable(s, depth, inRange);
    var rest := SkipSpace(ReadValue(s, depth, inRange).value.1);
    if rest[0] == ',' {
      ItemsArePrintable(rest[1..], depth, inRange);
    }
  }

  lemma {:induction false} FieldsArePrintable(s: string, depth: nat, inRange: string -> bool, fields: seq<Field>)
    requires depth > 0 && ReadFields(s, depth, inRange, fields).Some? && GoodMap(fields, depth - 1, inRange)
    ensures GoodMap(ReadFields(s, depth, inRange, fields).value.0, depth - 1, inRange)
    decreases |s|, 3
  {
    var (key, after) := ReadKey(s).value;
    ReadIsPrintable(after, depth, inRange);
    var (value, more) := ReadValue(after, depth, inRange).value;
    InsertGood(fields, key, value, depth - 1, inRange);
    var rest := SkipSpace(more);
    if rest[0] == ',' {
      FieldsArePrintable(rest[1..], depth, inRange, Insert(fields, key, value));
    }
  }

  // --------------------------------------------------------------------------- exact domain

  /** Text never reads as a value that is not printable within 127 levels of nesting. */
  lemma TextIsPrintable(s: string, inRange: string -> bool)
    requires FromText(s, inRange).Some?
    ensures Printable(FromText(s, inRange).value, 127, inRange)
  {
    ReadIsPrintable(s, DEPTH, inRange);
  }

  /** A value reads back from its printed text if and only if it is printable: its numbers are valid
      and in range, its keys ascend, and it nests at most 127 deep. */
  lemma TextRoundTripExactly(v: Value, inRange: string -> bool)
    ensures FromText(PrintTo(v, ""), inRange) == Some(v) <==> Printable(v, 127, inRange)
  {
    if FromText(PrintTo(v, ""), inRange) == Some(v) {
      TextIsPrintable(PrintTo(v, ""), inRange);
    }
    if Printable(v, 127, inRange) {
      TextRoundTrip(v, inRange);
    }
  }

  /** Reading, printing and reading again gives the same value. */
  lemma ReadingIsStable(s: string, inRange: string -> bool)
    requires FromText(s, inRange).Some?
    ensures FromText(PrintTo(FromText(s, inRange).value, ""), inRange) == FromText(s, inRange)
  {
    TextIsPrintable(s, inRange);
    TextRoundTrip(FromText(s, inRange).value, inRange);
  }
}
