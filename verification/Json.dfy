/** JSON values, the template printer `jinja_tojson` and a reader for JSON text (RFC 8259).
    Printing functions put a text in front of a tail, so that what follows is part of the
    statement. Numbers are kept as their text. */
module Json {
  import opened Options

  /** The fields of an object are a map kept in key order. */
  datatype Value =
    | Null
    | Bool(b: bool)
    | Number(text: string)
    | String(s: string)
    | Array(items: seq<Value>)
    | Object(fields: seq<Field>)
  datatype Field = Field(key: string, value: Value)

  // --------------------------------------------------------------------- string escapes

  function HexDigit(d: nat): char
    requires d < 16
  {
    if d < 10 then '0' + d as char else 'a' + (d - 10) as char
  }

  function HexValue(c: char): Option<nat> {
    if '0' <= c <= '9' then Some(c as nat - '0' as nat)
    else if 'a' <= c <= 'f' then Some(c as nat - 'a' as nat + 10)
    else if 'A' <= c <= 'F' then Some(c as nat - 'A' as nat + 10)
    else None
  }

  /** `\uXXXX` in front of `tail`. */
  function UnicodeTo(n: nat, tail: string): string
    requires n < 0x1_0000
  {
    ['\\', 'u', HexDigit(n / 4096), HexDigit(n / 256 % 16), HexDigit(n / 16 % 16), HexDigit(n % 16)] + tail
  }

  function EscapeTo(c: char, tail: string): string {
    if c == '"' then "\\\"" + tail
    else if c == '\\' then "\\\\" + tail
    else if c as nat == 8 then "\\b" + tail
    else if c as nat == 12 then "\\f" + tail
    else if c == '\n' then "\\n" + tail
    else if c == '\r' then "\\r" + tail
    else if c == '\t' then "\\t" + tail
    else if c == '<' || c == '>' || c == '&' || c == '\'' then UnicodeTo(c as nat, tail)
    else if ' ' <= c <= '~' then [c] + tail
    else if c as nat <= 0xFFFF then UnicodeTo(c as nat, tail)
    else PairTo(c as nat - 0x1_0000, tail)
  }

  /** A surrogate pair for the character `n` places beyond the basic plane. */
  function PairTo(n: nat, tail: string): string
    requires n < 0x10_0000
  {
    UnicodeTo(0xD800 + n / 1024, UnicodeTo(0xDC00 + n % 1024, tail))
  }

  function EscapesTo(s: string, tail: string): string {
    if |s| == 0 then tail else EscapeTo(s[0], EscapesTo(s[1..], tail))
  }

  /** Four hexadecimal digits. */
  function ReadHex(s: string): (r: Option<nat>)
    ensures r.Some? ==> |s| >= 4 && r.value < 0x1_0000
  {
    if |s| < 4 then None
    else
      var a, b, c, d := HexValue(s[0]), HexValue(s[1]), HexValue(s[2]), HexValue(s[3]);
      if a.None? || b.None? || c.None? || d.None? then None
      else Some(a.value * 4096 + b.value * 256 + c.value * 16 + d.value)
  }

  /** An escape after its backslash: the character and what follows. */
  function ReadEscape(s: string): (r: Option<(char, string)>)
    ensures r.Some? ==> |r.value.1| < |s|
  {
    if |s| == 0 then None
    else
      match s[0]
      case '"' => Some(('"', s[1..]))
      case '\\' => Some(('\\', s[1..]))
      case '/' => Some(('/', s[1..]))
      case 'b' => Some((8 as char, s[1..]))
      case 'f' => Some((12 as char, s[1..]))
      case 'n' => Some(('\n', s[1..]))
      case 'r' => Some(('\r', s[1..]))
      case 't' => Some(('\t', s[1..]))
      case 'u' => ReadUnicode(s[1..])
      case _ => None
  }

  /** The digits of `\u`, with the second half of a surrogate pair. */
  function ReadUnicode(s: string): (r: Option<(char, string)>)
    ensures r.Some? ==> |r.value.1| < |s|
  {
    var high := ReadHex(s);
    if high.None? || 0xDC00 <= high.value < 0xE000 then None
    else if 0xD800 <= high.value < 0xDC00 then
      if |s| < 6 || s[4] != '\\' || s[5] != 'u' then None
      else
        var low := ReadHex(s[6..]);
        if low.None? || !(0xDC00 <= low.value < 0xE000) then None
        else Some(((0x1_0000 + (high.value - 0xD800) * 1024 + (low.value - 0xDC00)) as char, s[10..]))
    else Some((high.value as char, s[4..]))
  }

  /** A string after its opening quote: its characters and what follows the closing quote. */
  function ReadString(s: string): (r: Option<(string, string)>)
    ensures r.Some? ==> |r.value.0| + |r.value.1| < |s|
    decreases |s|
  {
    if |s| == 0 || s[0] < ' ' then None
    else if s[0] == '"' then Some(("", s[1..]))
    else if s[0] == '\\' then
      var escape := ReadEscape(s[1..]);
      if escape.None? then None
      else
        var more := ReadString(escape.value.1);
        if more.None? then None else Some(([escape.value.0] + more.value.0, more.value.1))
    else
      var more := ReadString(s[1..]);
      if more.None? then None else Some(([s[0]] + more.value.0, more.value.1))
  }

  lemma HexRoundTrip(d: nat)
    requires d < 16
    ensures HexValue(HexDigit(d)) == Some(d)
  {
  }

  lemma DigitsReadBack(a: nat, b: nat, c: nat, d: nat, tail: string)
    requires a < 16 && b < 16 && c < 16 && d < 16
    ensures ReadHex([HexDigit(a), HexDigit(b), HexDigit(c), HexDigit(d)] + tail) == Some(a * 4096 + b * 256 + c * 16 + d)
  {
    HexRoundTrip(a);
    HexRoundTrip(b);
    HexRoundTrip(c);
    HexRoundTrip(d);
  }

  lemma HexDigits(n: nat)
    requires n < 0x1_0000
    ensures n == n / 4096 * 4096 + n / 256 % 16 * 256 + n / 16 % 16 * 16 + n % 16 && n / 4096 < 16
  {
  }

  lemma UnicodeReadsBack(n: nat, tail: string)
    requires n < 0x1_0000
    ensures ReadHex(UnicodeTo(n, tail)[2..]) == Some(n) && UnicodeTo(n, tail)[6..] == tail
  {
    HexDigits(n);
    var a, b, c, d := n / 4096, n / 256 % 16, n / 16 % 16, n % 16;
    DigitsReadBack(a, b, c, d, tail);
    assert UnicodeTo(n, tail)[2..] == [HexDigit(a), HexDigit(b), HexDigit(c), HexDigit(d)] + tail;
  }

  lemma PairDigits(high: nat, low: nat, tail: string)
    requires 0xD800 <= high < 0xDC00 && 0xDC00 <= low < 0xE000
    ensures var code := 0x1_0000 + (high - 0xD800) * 1024 + (low - 0xDC00);
            ReadUnicode(UnicodeTo(high, UnicodeTo(low, tail))[2..]) == Some((code as char, tail))
  {
    var rest := UnicodeTo(low, tail);
    var digits := UnicodeTo(high, rest)[2..];
    UnicodeReadsBack(low, tail);
    UnicodeReadsBack(high, rest);
    assert digits[4] == rest[0] && digits[5] == rest[1] && digits[6..] == rest[2..];
    assert digits[10..] == rest[6..];
  }

  lemma PairEscape(high: nat, low: nat, tail: string)
    requires 0xD800 <= high < 0xDC00 && 0xDC00 <= low < 0xE000
    ensures var code := 0x1_0000 + (high - 0xD800) * 1024 + (low - 0xDC00);
            ReadEscape(UnicodeTo(high, UnicodeTo(low, tail))[1..]) == Some((code as char, tail))
  {
    var text := UnicodeTo(high, UnicodeTo(low, tail));
    PairDigits(high, low, tail);
    assert text[1..][0] == 'u' && text[1..][1..] == text[2..];
  }

  lemma PairToReadsBack(n: nat, high: nat, low: nat, tail: string)
    requires n < 0x10_0000 && high == n / 1024 && low == n % 1024
    ensures PairTo(n, tail) != [] && PairTo(n, tail)[0] == '\\'
    ensures ReadEscape(PairTo(n, tail)[1..]) == Some(((0x1_0000 + n) as char, tail))
  {
    assert n == high * 1024 + low && high < 1024;
    PairEscape(0xD800 + high, 0xDC00 + low, tail);
  }

  /** A character beyond the basic plane reads back from its surrogate pair. */
  lemma PairReadsBack(c: char, tail: string)
    requires c as nat > 0xFFFF
    ensures EscapeTo(c, tail) != [] && EscapeTo(c, tail)[0] == '\\' && ReadEscape(EscapeTo(c, tail)[1..]) == Some((c, tail))
  {
    var n := c as nat - 0x1_0000;
    PairToReadsBack(n, n / 1024, n % 1024, tail);
  }

  predicate Plain(c: char) {
    ' ' <= c <= '~' && c != '"' && c != '\\' && c != '<' && c != '>' && c != '&' && c != '\''
  }

  lemma BasicReadsBack(c: char, tail: string)
    requires c as nat <= 0xFFFF
    ensures ReadEscape(UnicodeTo(c as nat, tail)[1..]) == Some((c, tail))
  {
    var text := UnicodeTo(c as nat, tail);
    UnicodeReadsBack(c as nat, tail);
    assert text[1..][0] == 'u' && text[1..][1..] == text[2..] && text[2..][4..] == text[6..];
  }

  predicate HasShortEscape(c: char) {
    c == '"' || c == '\\' || c as nat == 8 || c as nat == 12 || c == '\n' || c == '\r' || c == '\t'
  }

  lemma ShortReadsBack(c: char, tail: string)
    requires HasShortEscape(c)
    ensures |EscapeTo(c, tail)| > 1 && EscapeTo(c, tail)[0] == '\\' && ReadEscape(EscapeTo(c, tail)[1..]) == Some((c, tail))
  {
    var text := EscapeTo(c, tail);
    assert text[1..][1..] == tail;
  }

  lemma EscapeReadsBack(c: char, tail: string)
    ensures Plain(c) ==> EscapeTo(c, tail) == [c] + tail
    ensures !Plain(c) ==> EscapeTo(c, tail) != [] && EscapeTo(c, tail)[0] == '\\'
                          && ReadEscape(EscapeTo(c, tail)[1..]) == Some((c, tail))
  {
    if HasShortEscape(c) {
      ShortReadsBack(c, tail);
    } else if c as nat > 0xFFFF {
      PairReadsBack(c, tail);
    } else if !Plain(c) {
      assert EscapeTo(c, tail) == UnicodeTo(c as nat, tail);
      BasicReadsBack(c, tail);
    }
  }

  lemma {:induction false} StringReadsBack(s: string, tail: string)
    ensures ReadString(EscapesTo(s, "\"" + tail)) == Some((s, tail))
  {
    if |s| == 0 {
      assert ("\"" + tail)[1..] == tail;
    } else {
      var rest := EscapesTo(s[1..], "\"" + tail);
      StringReadsBack(s[1..], tail);
      EscapeReadsBack(s[0], rest);
      assert [s[0]] + s[1..] == s;
      if Plain(s[0]) {
        assert ([s[0]] + rest)[1..] == rest;
      }
    }
  }

  // ---------------------------------------------------------------------------- numbers

  predicate IsDigit(c: char) {
    '0' <= c <= '9'
  }

  predicate StartsDigit(s: string) {
    |s| > 0 && IsDigit(s[0])
  }

  function SkipDigits(s: string): (r: string)
    ensures |r| <= |s| && (StartsDigit(s) ==> |r| < |s|)
  {
    if StartsDigit(s) then SkipDigits(s[1..]) else s
  }

  function SkipFraction(s: string): (r: Option<string>)
    ensures r.Some? ==> |r.value| <= |s|
  {
    if |s| == 0 || s[0] != '.' then Some(s)
    else if StartsDigit(s[1..]) then Some(SkipDigits(s[1..]))
    else None
  }

  function SkipSign(s: string): (r: string)
    ensures |r| <= |s|
  {
    if |s| > 0 && (s[0] == '+' || s[0] == '-') then s[1..] else s
  }

  function SkipExponent(s: string): (r: Option<string>)
    ensures r.Some? ==> |r.value| <= |s|
  {
    if |s| == 0 || (s[0] != 'e' && s[0] != 'E') then Some(s)
    else if StartsDigit(SkipSign(s[1..])) then Some(SkipDigits(SkipSign(s[1..])))
    else None
  }

  function SkipInteger(s: string): (r: Option<string>)
    ensures r.Some? ==> |r.value| < |s|
  {
    if !StartsDigit(s) then None else if s[0] == '0' then Some(s[1..]) else Some(SkipDigits(s))
  }

  /** What follows the number that `s` starts with. */
  function SkipNumber(s: string): (r: Option<string>)
    ensures r.Some? ==> |r.value| < |s|
  {
    var integer := SkipInteger(if |s| > 0 && s[0] == '-' then s[1..] else s);
    if integer.None? then None
    else
      var fraction := SkipFraction(integer.value);
      if fraction.None? then None else SkipExponent(fraction.value)
  }

  predicate IsNumber(text: string) {
    SkipNumber(text) == Some("")
  }

  /** `tail` does not continue a number. */
  predicate Stops(tail: string) {
    |tail| == 0 || !(IsDigit(tail[0]) || tail[0] == '.' || tail[0] == 'e' || tail[0] == 'E')
  }

  lemma {:induction false} SkipDigitsAppend(s: string, tail: string)
    requires Stops(tail)
    ensures SkipDigits(s + tail) == SkipDigits(s) + tail
  {
    if StartsDigit(s) {
      assert (s + tail)[1..] == s[1..] + tail;
      SkipDigitsAppend(s[1..], tail);
    } else if |s| == 0 {
      assert s + tail == tail;
    }
  }

  lemma SkipFractionAppend(s: string, tail: string)
    requires Stops(tail) && SkipFraction(s).Some?
    ensures SkipFraction(s + tail) == Some(SkipFraction(s).value + tail)
  {
    if |s| > 0 {
      assert (s + tail)[1..] == s[1..] + tail;
      SkipDigitsAppend(s[1..], tail);
    } else {
      assert s + tail == tail;
    }
  }

  lemma SkipExponentAppend(s: string, tail: string)
    requires Stops(tail) && SkipExponent(s).Some?
    ensures SkipExponent(s + tail) == Some(SkipExponent(s).value + tail)
  {
    if |s| == 0 {
      assert s + tail == tail;
    } else {
      assert (s + tail)[1..] == s[1..] + tail;
      if s[0] == 'e' || s[0] == 'E' {
        assert SkipSign(s[1..] + tail) == SkipSign(s[1..]) + tail;
        SkipDigitsAppend(SkipSign(s[1..]), tail);
      }
    }
  }

  lemma SkipIntegerAppend(s: string, tail: string)
    requires Stops(tail) && SkipInteger(s).Some?
    ensures SkipInteger(s + tail) == Some(SkipInteger(s).value + tail)
  {
    assert (s + tail)[1..] == s[1..] + tail;
    SkipDigitsAppend(s, tail);
  }

  lemma NumberReadsBack(text: string, tail: string)
    requires IsNumber(text) && Stops(tail)
    ensures SkipNumber(text + tail) == Some(tail)
  {
    var s := if text[0] == '-' then text[1..] else text;
    assert (text + tail)[1..] == text[1..] + tail;
    SkipIntegerAppend(s, tail);
    SkipFractionAppend(SkipInteger(s).value, tail);
    SkipExponentAppend(SkipFraction(SkipInteger(s).value).value, tail);
    assert "" + tail == tail;
  }

  // ---------------------------------------------------------------------------- printing

  function Width(v: Value): nat {
    if v.Array? then |v.items| else if v.Object? then |v.fields| else 0
  }

  /** `jinja_tojson`, in front of `tail`. */
  function PrintTo(v: Value, tail: string): string
    decreases v, Width(v) + 1
  {
    match v
    case Null => "null" + tail
    case Bool(b) => (if b then "true" else "false") + tail
    case Number(text) => text + tail
    case String(s) => "\"" + EscapesTo(s, "\"" + tail)
    case Array(_) => "[" + ItemsTo(v, 0, tail)
    case Object(_) => "{" + FieldsTo(v, 0, tail)
  }

  /** Items from `i` on and the closing bracket. */
  function ItemsTo(v: Value, i: nat, tail: string): string
    requires v.Array? && i <= |v.items|
    decreases v, |v.items| - i
  {
    if i == |v.items| then "]" + tail
    else (if i == 0 then "" else ", ") + PrintTo(v.items[i], ItemsTo(v, i + 1, tail))
  }

  /** Fields from `i` on and the closing brace. */
  function FieldsTo(v: Value, i: nat, tail: string): string
    requires v.Object? && i <= |v.fields|
    decreases v, |v.fields| - i
  {
    if i == |v.fields| then "}" + tail
    else (if i == 0 then "" else ", ") + FieldTo(v, i, FieldsTo(v, i + 1, tail))
  }

  function FieldTo(v: Value, i: nat, tail: string): string
    requires v.Object? && i < |v.fields|
    decreases v, 0
  {
    "\"" + EscapesTo(v.fields[i].key, "\"" + (": " + PrintTo(v.fields[i].value, tail)))
  }

  // ---------------------------------------------------------------------------- reading

  predicate IsSpace(c: char) {
    c == ' ' || c == '\n' || c == '\t' || c == '\r'
  }

  function SkipSpace(s: string): (r: string)
    ensures |r| <= |s| && (|r| > 0 ==> !IsSpace(r[0]))
  {
    if |s| > 0 && IsSpace(s[0]) then SkipSpace(s[1..]) else s
  }

  predicate Less(a: string, b: string) {
    |b| > 0 && (|a| == 0 || a[0] < b[0] || (a[0] == b[0] && Less(a[1..], b[1..])))
  }

  /** Insertion into a map in key order: a later value replaces an earlier one. */
  function Insert(fields: seq<Field>, key: string, value: Value): seq<Field> {
    if |fields| == 0 then [Field(key, value)]
    else
      var front, last := fields[..|fields| - 1], fields[|fields| - 1];
      if Less(last.key, key) then fields + [Field(key, value)]
      else if last.key == key then front + [Field(key, value)]
      else Insert(front, key, value) + [last]
  }

  /** A value at the start of `s`, and what follows. `depth` is the remaining nesting allowed,
      `inRange` says which numbers can be represented. */
  function ReadValue(s: string, depth: nat, inRange: string -> bool): (r: Option<(Value, string)>)
    ensures r.Some? ==> |r.value.1| < |s|
    decreases |s|, 1
  {
    ReadBare(SkipSpace(s), depth, inRange)
  }

  /** A value without space before it. */
  function ReadBare(t: string, depth: nat, inRange: string -> bool): (r: Option<(Value, string)>)
    ensures r.Some? ==> |r.value.1| < |t|
    decreases |t|, 0
  {
    if |t| == 0 then None
    else if t[0] == 'n' then (if "null" <= t then Some((Null, t[4..])) else None)
    else if t[0] == 't' then (if "true" <= t then Some((Bool(true), t[4..])) else None)
    else if t[0] == 'f' then (if "false" <= t then Some((Bool(false), t[5..])) else None)
    else if t[0] == '"' then
      var text := ReadString(t[1..]);
      if text.None? then None else Some((String(text.value.0), text.value.1))
    else if t[0] == '[' then
      if depth <= 1 then None
      else
        var inner := SkipSpace(t[1..]);
        if |inner| > 0 && inner[0] == ']' then Some((Array([]), inner[1..]))
        else
          var items := ReadItems(t[1..], depth - 1, inRange);
          if items.None? then None else Some((Array(items.value.0), items.value.1))
    else if t[0] == '{' then
      if depth <= 1 then None
      else
        var inner := SkipSpace(t[1..]);
        if |inner| > 0 && inner[0] == '}' then Some((Object([]), inner[1..]))
        else
          var fields := ReadFields(t[1..], depth - 1, inRange, []);
          if fields.None? then None else Some((Object(fields.value.0), fields.value.1))
    else
      var rest := SkipNumber(t);
      if rest.None? || !inRange(t[..|t| - |rest.value|]) then None
      else Some((Number(t[..|t| - |rest.value|]), rest.value))
  }

  /** One or more items and the closing bracket. */
  function ReadItems(s: string, depth: nat, inRange: string -> bool): (r: Option<(seq<Value>, string)>)
    ensures r.Some? ==> |r.value.1| < |s|
    decreases |s|, 2
  {
    var first := ReadValue(s, depth, inRange);
    if first.None? then None
    else
      var rest := SkipSpace(first.value.1);
      if |rest| > 0 && rest[0] == ']' then Some(([first.value.0], rest[1..]))
      else if |rest| > 0 && rest[0] == ',' then
        var more := ReadItems(rest[1..], depth, inRange);
        if more.None? then None else Some(([first.value.0] + more.value.0, more.value.1))
      else None
  }

  /** A key, the colon after it, and what follows. */
  function ReadKey(s: string): (r: Option<(string, string)>)
    ensures r.Some? ==> |r.value.1| < |s|
  {
    var t := SkipSpace(s);
    if |t| == 0 || t[0] != '"' then None
    else
      var key := ReadString(t[1..]);
      if key.None? then None
      else
        var rest := SkipSpace(key.value.1);
        if |rest| > 0 && rest[0] == ':' then Some((key.value.0, rest[1..])) else None
  }

  /** One or more fields, inserted into `fields`, and the closing brace. */
  function ReadFields(s: string, depth: nat, inRange: string -> bool, fields: seq<Field>): (r: Option<(seq<Field>, string)>)
    ensures r.Some? ==> |r.value.1| < |s|
    decreases |s|, 2
  {
    var key := ReadKey(s);
    if key.None? then None
    else
      var value := ReadValue(key.value.1, depth, inRange);
      if value.None? then None
      else
        var now, rest := Insert(fields, key.value.0, value.value.0), SkipSpace(value.value.1);
        if |rest| > 0 && rest[0] == '}' then Some((now, rest[1..]))
        else if |rest| > 0 && rest[0] == ',' then ReadFields(rest[1..], depth, inRange, now)
        else None
  }

  const DEPTH: nat := 128

  /** `serde_json::from_str` for any value. */
  function FromText(s: string, inRange: string -> bool): (r: Option<Value>) {
    var value := ReadValue(s, DEPTH, inRange);
    if value.Some? && SkipSpace(value.value.1) == "" then Some(value.value.0) else None
  }

  // ------------------------------------------------------------------------- round trip

  /** Numbers are valid and in range, object keys ascend, and values nest at most `depth` deep. */
  predicate Printable(v: Value, depth: nat, inRange: string -> bool)
    decreases v
  {
    match v
    case Number(text) => IsNumber(text) && inRange(text)
    case Array(items) => depth > 0 && forall i :: 0 <= i < |items| ==> Printable(items[i], depth - 1, inRange)
    case Object(fields) =>
      && depth > 0 && (forall i :: 0 <= i < |fields| ==> Printable(fields[i].value, depth - 1, inRange))
      && forall i :: 0 <= i < |fields| - 1 ==> Less(fields[i].key, fields[i + 1].key)
    case _ => true
  }

  predicate StartsValue(s: string) {
    |s| > 0 && (s[0] in "ntf\"[{-" || IsDigit(s[0]))
  }

  lemma PrintStarts(v: Value, depth: nat, inRange: string -> bool, tail: string)
    requires Printable(v, depth, inRange)
    ensures StartsValue(PrintTo(v, tail))
  {
  }

  lemma SkipNothing(s: string)
    requires |s| == 0 || !IsSpace(s[0])
    ensures SkipSpace(s) == s && SkipSpace(" " + s) == s
  {
    assert (" " + s)[1..] == s;
  }

  /** Whatever follows, a printed value reads back as itself. */
  lemma {:induction false} ValueReadsBack(v: Value, depth: nat, inRange: string -> bool, tail: string)
    requires Printable(v, depth, inRange) && Stops(tail)
    ensures ReadValue(PrintTo(v, tail), depth + 1, inRange) == Some((v, tail))
    ensures ReadValue(" " + PrintTo(v, tail), depth + 1, inRange) == Some((v, tail))
    decreases v, Width(v) + 1
  {
    PrintStarts(v, depth, inRange, tail);
    SkipNothing(PrintTo(v, tail));
    match v
    case Array(_) =>
      ArrayReadsBack(v, depth, inRange, tail);
      BareArray(v, depth, inRange, tail);
    case Object(_) =>
      ObjectReadsBack(v, depth, inRange, tail);
      BareObject(v, depth, inRange, tail);
    case _ => ScalarReadsBack(v, depth, inRange, tail);
  }

  lemma ScalarReadsBack(v: Value, depth: nat, inRange: string -> bool, tail: string)
    requires !v.Array? && !v.Object? && Printable(v, depth, inRange) && Stops(tail)
    ensures ReadBare(PrintTo(v, tail), depth + 1, inRange) == Some((v, tail))
  {
    var text := PrintTo(v, tail);
    match v
    case Null => assert text[4..] == tail;
    case Bool(b) => assert text[if b then 4 else 5..] == tail;
    case Number(t) => BareNumber(t, depth, inRange, tail);
    case String(s) =>
      StringReadsBack(s, tail);
      assert text[1..] == EscapesTo(s, "\"" + tail);
  }

  lemma BareNumber(t: string, depth: nat, inRange: string -> bool, tail: string)
    requires IsNumber(t) && inRange(t) && Stops(tail)
    ensures ReadBare(t + tail, depth, inRange) == Some((Number(t), tail))
  {
    NumberReadsBack(t, tail);
    assert (t + tail)[..|t + tail| - |tail|] == t;
  }

  lemma BareArray(v: Value, depth: nat, inRange: string -> bool, tail: string)
    requires v.Array? && depth > 0
    requires v.items != [] ==> StartsValue(ItemsTo(v, 0, tail)) && ReadItems(ItemsTo(v, 0, tail), depth, inRange) == Some((v.items, tail))
    ensures ReadBare(PrintTo(v, tail), depth + 1, inRange) == Some((v, tail))
  {
    var inner := ItemsTo(v, 0, tail);
    assert PrintTo(v, tail)[1..] == inner;
    SkipNothing(inner);
    if v.items == [] {
      assert inner[1..] == tail;
    }
  }

  lemma BareObject(v: Value, depth: nat, inRange: string -> bool, tail: string)
    requires v.Object? && depth > 0
    requires v.fields != [] ==>
               StartsValue(FieldsTo(v, 0, tail)) && ReadFields(FieldsTo(v, 0, tail), depth, inRange, []) == Some((v.fields, tail))
    ensures ReadBare(PrintTo(v, tail), depth + 1, inRange) == Some((v, tail))
  {
    var inner := FieldsTo(v, 0, tail);
    assert PrintTo(v, tail)[1..] == inner;
    SkipNothing(inner);
    if v.fields == [] {
      assert inner[1..] == tail;
    }
  }

  lemma {:induction false} ArrayReadsBack(v: Value, depth: nat, inRange: string -> bool, tail: string)
    requires v.Array? && Printable(v, depth, inRange)
    ensures v.items != [] ==> StartsValue(ItemsTo(v, 0, tail)) && ReadItems(ItemsTo(v, 0, tail), depth, inRange) == Some((v.items, tail))
    decreases v, Width(v)
  {
    if v.items != [] {
      var text := PrintTo(v.items[0], ItemsTo(v, 1, tail));
      ItemsReadBack(v, 0, depth, inRange, tail, text);
      PrintStarts(v.items[0], depth - 1, inRange, ItemsTo(v, 1, tail));
      assert v.items[0..] == v.items;
      assert ItemsTo(v, 0, tail) == text;
    }
  }

  lemma LastItem(s: string, depth: nat, inRange: string -> bool, value: Value, tail: string)
    requires ReadValue(s, depth, inRange) == Some((value, "]" + tail))
    ensures ReadItems(s, depth, inRange) == Some(([value], tail))
  {
    SkipNothing("]" + tail);
    assert ("]" + tail)[1..] == tail;
  }

  lemma NextItem(s: string, depth: nat, inRange: string -> bool, value: Value, next: string, more: seq<Value>, tail: string)
    requires ReadValue(s, depth, inRange) == Some((value, ", " + next))
    requires ReadItems(" " + next, depth, inRange) == Some((more, tail))
    ensures ReadItems(s, depth, inRange) == Some(([value] + more, tail))
  {
    SkipNothing(", " + next);
    assert (", " + next)[1..] == " " + next;
  }

  /** `s` is item `i` with all that follows it, possibly after a space. */
  ghost predicate FromItem(v: Value, i: nat, tail: string, s: string)
    requires v.Array? && i < |v.items|
  {
    var text := PrintTo(v.items[i], ItemsTo(v, i + 1, tail));
    s == text || s == " " + text
  }

  lemma HeadOf(items: seq<Value>, i: nat)
    requires i < |items|
    ensures items[i..] == [items[i]] + items[i + 1..]
  {
  }

  lemma MoreItems(v: Value, i: nat, tail: string)
    requires v.Array? && 0 < i < |v.items|
    ensures ItemsTo(v, i, tail) == ", " + PrintTo(v.items[i], ItemsTo(v, i + 1, tail))
  {
  }

  lemma {:induction false} ItemsReadBack(v: Value, i: nat, depth: nat, inRange: string -> bool, tail: string, s: string)
    requires v.Array? && Printable(v, depth, inRange) && i < |v.items| && FromItem(v, i, tail, s)
    ensures ReadItems(s, depth, inRange) == Some((v.items[i..], tail))
    decreases v, |v.items| - i - 1
  {
    var item, rest := v.items[i], ItemsTo(v, i + 1, tail);
    assert Printable(item, depth - 1, inRange);
    ValueReadsBack(item, depth - 1, inRange, rest);
    if i + 1 < |v.items| {
      var next := PrintTo(v.items[i + 1], ItemsTo(v, i + 2, tail));
      MoreItems(v, i + 1, tail);
      ItemsReadBack(v, i + 1, depth, inRange, tail, " " + next);
      NextItem(s, depth, inRange, item, next, v.items[i + 1..], tail);
      HeadOf(v.items, i);
    } else {
      LastItem(s, depth, inRange, item, tail);
      assert v.items[i..] == [item];
    }
  }

  lemma {:induction false} ObjectReadsBack(v: Value, depth: nat, inRange: string -> bool, tail: string)
    requires v.Object? && Printable(v, depth, inRange)
    ensures v.fields != [] ==> StartsValue(FieldsTo(v, 0, tail)) && ReadFields(FieldsTo(v, 0, tail), depth, inRange, []) == Some((v.fields, tail))
    decreases v, Width(v)
  {
    if v.fields != [] {
      FirstField(v, tail);
      FieldsReadBack(v, 0, depth, inRange, tail, FieldsTo(v, 0, tail), []);
    }
  }

  lemma FirstField(v: Value, tail: string)
    requires v.Object? && v.fields != []
    ensures FieldsTo(v, 0, tail) == FieldTo(v, 0, FieldsTo(v, 1, tail)) && StartsValue(FieldsTo(v, 0, tail))
  {
    assert FieldsTo(v, 0, tail) == "" + FieldTo(v, 0, FieldsTo(v, 1, tail));
  }

  lemma KeyReadsBack(key: string, rest: string)
    ensures ReadKey("\"" + EscapesTo(key, "\"" + (": " + rest))) == Some((key, " " + rest))
    ensures ReadKey(" " + ("\"" + EscapesTo(key, "\"" + (": " + rest)))) == Some((key, " " + rest))
  {
    StringReadsBack(key, ": " + rest);
    QuotedKey(EscapesTo(key, "\"" + (": " + rest)), key, rest);
  }

  lemma QuotedKey(body: string, key: string, rest: string)
    requires ReadString(body) == Some((key, ": " + rest))
    ensures ReadKey("\"" + body) == Some((key, " " + rest)) && ReadKey(" " + ("\"" + body)) == Some((key, " " + rest))
  {
    SkipNothing("\"" + body);
    SkipNothing(": " + rest);
    assert ("\"" + body)[1..] == body && (": " + rest)[1..] == " " + rest;
  }

  lemma LastField(s: string, depth: nat, inRange: string -> bool, fields: seq<Field>, key: string, after: string, value: Value, tail: string)
    requires ReadKey(s) == Some((key, after)) && ReadValue(after, depth, inRange) == Some((value, "}" + tail))
    ensures ReadFields(s, depth, inRange, fields) == Some((Insert(fields, key, value), tail))
  {
    SkipNothing("}" + tail);
    assert ("}" + tail)[1..] == tail;
  }

  lemma NextField(s: string, depth: nat, inRange: string -> bool, fields: seq<Field>, key: string, after: string, value: Value, next: string)
    requires ReadKey(s) == Some((key, after)) && ReadValue(after, depth, inRange) == Some((value, ", " + next))
    ensures ReadFields(s, depth, inRange, fields) == ReadFields(" " + next, depth, inRange, Insert(fields, key, value))
  {
    SkipNothing(", " + next);
    assert (", " + next)[1..] == " " + next;
  }

  /** `s` is field `i` with all that follows it, possibly after a space. */
  ghost predicate FromField(v: Value, i: nat, tail: string, s: string)
    requires v.Object? && i < |v.fields|
  {
    var text := FieldTo(v, i, FieldsTo(v, i + 1, tail));
    s == text || s == " " + text
  }

  lemma MoreFields(v: Value, i: nat, tail: string)
    requires v.Object? && 0 < i < |v.fields|
    ensures FieldsTo(v, i, tail) == ", " + FieldTo(v, i, FieldsTo(v, i + 1, tail))
  {
  }

  lemma {:induction false} FieldsReadBack(v: Value, i: nat, depth: nat, inRange: string -> bool, tail: string, s: string, before: seq<Field>)
    requires v.Object? && Printable(v, depth, inRange) && i < |v.fields| && FromField(v, i, tail, s) && before == v.fields[..i]
    ensures ReadFields(s, depth, inRange, before) == Some((v.fields, tail))
    decreases v, |v.fields| - i - 1
  {
    var rest, key, value := FieldsTo(v, i + 1, tail), v.fields[i].key, v.fields[i].value;
    var printed := PrintTo(value, rest);
    assert Printable(value, depth - 1, inRange);
    ValueReadsBack(value, depth - 1, inRange, rest);
    KeyReadsBack(key, printed);
    InsertNext(v.fields, i);
    if i + 1 < |v.fields| {
      var next := FieldTo(v, i + 1, FieldsTo(v, i + 2, tail));
      MoreFields(v, i + 1, tail);
      FieldsReadBack(v, i + 1, depth, inRange, tail, " " + next, v.fields[..i + 1]);
      NextField(s, depth, inRange, before, key, " " + printed, value, next);
    } else {
      LastField(s, depth, inRange, before, key, " " + printed, value, tail);
      assert v.fields[..i + 1] == v.fields;
    }
  }

  lemma InsertNext(fields: seq<Field>, i: nat)
    requires i < |fields| && forall k :: 0 <= k < |fields| - 1 ==> Less(fields[k].key, fields[k + 1].key)
    ensures Insert(fields[..i], fields[i].key, fields[i].value) == fields[..i + 1]
  {
    assert fields[..i + 1] == fields[..i] + [fields[i]];
  }

  /** Reading what `jinja_tojson` printed gives the same value. */
  lemma TextRoundTrip(v: Value, inRange: string -> bool)
    requires Printable(v, DEPTH - 1, inRange)
    ensures FromText(PrintTo(v, ""), inRange) == Some(v)
  {
    ValueReadsBack(v, DEPTH - 1, inRange, "");
  }

  // --------------------------------------------------------------------- printed characters

  /** Printable ASCII without angle brackets. */
  predicate Safe(s: string) {
    forall i :: 0 <= i < |s| ==> ' ' <= s[i] <= '~' && s[i] != '<' && s[i] != '>'
  }

  lemma HexSafe(d: nat)
    requires d < 16
    ensures '0' <= HexDigit(d) <= '9' || 'a' <= HexDigit(d) <= 'f'
  {
  }

  lemma UnicodeSafe(n: nat, tail: string)
    requires n < 0x1_0000 && Safe(tail)
    ensures Safe(UnicodeTo(n, tail))
  {
    HexSafe(n / 4096);
    HexSafe(n / 256 % 16);
    HexSafe(n / 16 % 16);
    HexSafe(n % 16);
  }

  lemma {:induction false} EscapesSafe(s: string, tail: string)
    requires Safe(tail)
    ensures Safe(EscapesTo(s, tail))
  {
    if |s| > 0 {
      EscapesSafe(s[1..], tail);
      EscapeSafe(s[0], EscapesTo(s[1..], tail));
    }
  }

  lemma EscapeSafe(c: char, tail: string)
    requires Safe(tail)
    ensures Safe(EscapeTo(c, tail))
  {
    if c as nat <= 0xFFFF {
      UnicodeSafe(c as nat, tail);
    } else {
      PairSafe(c as nat - 0x1_0000, tail);
    }
  }

  lemma PairSafe(n: nat, tail: string)
    requires n < 0x10_0000 && Safe(tail)
    ensures Safe(PairTo(n, tail))
  {
    UnicodeSafe(0xDC00 + n % 1024, tail);
    UnicodeSafe(0xD800 + n / 1024, UnicodeTo(0xDC00 + n % 1024, tail));
  }

  lemma {:induction false} DigitsSafe(s: string)
    requires Safe(SkipDigits(s))
    ensures Safe(s)
  {
    if StartsDigit(s) {
      DigitsSafe(s[1..]);
      assert s == [s[0]] + s[1..];
    }
  }

  lemma HeadSafe(s: string)
    requires |s| > 0 && ' ' <= s[0] <= '~' && s[0] != '<' && s[0] != '>' && Safe(s[1..])
    ensures Safe(s)
  {
    assert s == [s[0]] + s[1..];
  }

  lemma ExponentSafe(s: string)
    requires SkipExponent(s).Some? && Safe(SkipExponent(s).value)
    ensures Safe(s)
  {
    if |s| > 0 && (s[0] == 'e' || s[0] == 'E') {
      DigitsSafe(SkipSign(s[1..]));
      if SkipSign(s[1..]) != s[1..] {
        HeadSafe(s[1..]);
      }
      HeadSafe(s);
    }
  }

  lemma FractionSafe(s: string)
    requires SkipFraction(s).Some? && Safe(SkipFraction(s).value)
    ensures Safe(s)
  {
    if |s| > 0 && s[0] == '.' {
      DigitsSafe(s[1..]);
      HeadSafe(s);
    }
  }

  lemma IntegerSafe(s: string)
    requires SkipInteger(s).Some? && Safe(SkipInteger(s).value)
    ensures Safe(s)
  {
    if s[0] == '0' {
      HeadSafe(s);
    } else {
      DigitsSafe(s);
    }
  }

  lemma NumberSafe(text: string)
    requires IsNumber(text)
    ensures Safe(text)
  {
    var s := if text[0] == '-' then text[1..] else text;
    ExponentSafe(SkipFraction(SkipInteger(s).value).value);
    FractionSafe(SkipInteger(s).value);
    IntegerSafe(s);
    if text[0] == '-' {
      HeadSafe(text);
    }
  }

  /** A printed value has only safe characters. */
  lemma {:induction false} PrintSafe(v: Value, depth: nat, inRange: string -> bool, tail: string)
    requires Printable(v, depth, inRange) && Safe(tail)
    ensures Safe(PrintTo(v, tail))
    decreases v, Width(v) + 1
  {
    match v
    case Null =>
    case Bool(_) =>
    case Number(text) => NumberSafe(text);
    case String(s) => EscapesSafe(s, "\"" + tail);
    case Array(_) => ItemsSafe(v, 0, depth, inRange, tail);
    case Object(_) => FieldsSafe(v, 0, depth, inRange, tail);
  }

  lemma {:induction false} ItemsSafe(v: Value, i: nat, depth: nat, inRange: string -> bool, tail: string)
    requires v.Array? && i <= |v.items| && Printable(v, depth, inRange) && Safe(tail)
    ensures Safe(ItemsTo(v, i, tail))
    decreases v, |v.items| - i
  {
    if i < |v.items| {
      ItemsSafe(v, i + 1, depth, inRange, tail);
      PrintSafe(v.items[i], depth - 1, inRange, ItemsTo(v, i + 1, tail));
    }
  }

  lemma {:induction false} FieldsSafe(v: Value, i: nat, depth: nat, inRange: string -> bool, tail: string)
    requires v.Object? && i <= |v.fields| && Printable(v, depth, inRange) && Safe(tail)
    ensures Safe(FieldsTo(v, i, tail))
    decreases v, |v.fields| - i
  {
    if i < |v.fields| {
      var rest := FieldsTo(v, i + 1, tail);
      FieldsSafe(v, i + 1, depth, inRange, tail);
      PrintSafe(v.fields[i].value, depth - 1, inRange, rest);
      EscapesSafe(v.fields[i].key, "\"" + (": " + PrintTo(v.fields[i].value, rest)));
    }
  }

  lemma StringIsShorter(t: string, depth: nat, inRange: string -> bool)
    requires ReadBare(t, depth, inRange).Some? && ReadBare(t, depth, inRange).value.0.String?
    ensures |ReadBare(t, depth, inRange).value.0.s| < |t|
  {
  }

  /** No text reads as the string that it is itself. */
  lemma TextIsNotItsOwnString(s: string, inRange: string -> bool)
    ensures FromText(s, inRange) != Some(String(s))
  {
    var read := ReadBare(SkipSpace(s), DEPTH, inRange);
    if read.Some? && read.value.0.String? {
      StringIsShorter(SkipSpace(s), DEPTH, inRange);
    }
  }
}
