/** Assistant messages with reasoning, content and tool calls: the chat template's markup and the
    parser that reads it back by string search. */
module ToolMarkup {
  import opened Options
  import opened Search
  import opened Json

  const OPEN := "<tool_call>"
  const CLOSE := "</tool_call>"
  const FUNCTION := "<function="
  const END_FUNCTION := "</function>"
  const PARAMETER := "<parameter="
  const END_PARAMETER := "</parameter>"
  const END_THINK := "</think>"

  /** Arguments are a map kept in key order. */
  datatype Call = Call(name: string, arguments: seq<Field>)

  // -------------------------------------------------------------------------- trimming

  /** Unicode white space. */
  predicate IsWhite(c: char) {
    var n := c as int;
    || 9 <= n <= 13 || n == 0x20 || n == 0x85 || n == 0xA0 || n == 0x1680 || 0x2000 <= n <= 0x200A
    || n == 0x2028 || n == 0x2029 || n == 0x202F || n == 0x205F || n == 0x3000
  }

  function TrimStart(s: string): (r: string)
    ensures |r| <= |s| && (|r| > 0 ==> !IsWhite(r[0]))
  {
    if |s| > 0 && IsWhite(s[0]) then TrimStart(s[1..]) else s
  }

  function TrimEnd(s: string): (r: string)
    ensures |r| <= |s| && (|r| > 0 ==> !IsWhite(r[|r| - 1]))
  {
    if |s| > 0 && IsWhite(s[|s| - 1]) then TrimEnd(s[..|s| - 1]) else s
  }

  function Trim(s: string): string {
    TrimEnd(TrimStart(s))
  }

  /** Text that trimming leaves alone. */
  predicate Trimmed(s: string) {
    |s| > 0 ==> !IsWhite(s[0]) && !IsWhite(s[|s| - 1])
  }

  function NonEmpty(s: string): Option<string> {
    if s == "" then None else Some(s)
  }

  lemma TrimTrimmed(s: string)
    requires Trimmed(s)
    ensures Trim(s) == s && TrimStart(s) == s && TrimEnd(s) == s
    ensures Trim("\n" + (s + "\n")) == s && TrimEnd(s + "\n\n") == s
  {
    var wrapped := "\n" + (s + "\n");
    assert wrapped[1..] == s + "\n";
    if s == "" {
      assert s + "\n" == "\n" && "\n"[1..] == "" && s + "\n\n" == "\n\n" && "\n\n"[..1] == "\n" && "\n"[..0] == "";
      assert TrimStart("\n") == "";
    } else {
      assert (s + "\n")[..|s|] == s && (s + "\n\n")[..|s| + 1] == s + "\n";
      assert TrimStart(s + "\n") == s + "\n";
    }
  }

  // --------------------------------------------------------------------------- printing

  /** A string argument is printed as it is, any other one as JSON. */
  function ValueText(v: Value): string {
    if v.String? then v.s else PrintTo(v, "")
  }

  /** What stands between a parameter's markup. */
  function Raw(v: Value): string {
    "\n" + (ValueText(v) + "\n")
  }

  /** Parameters from `i` on. */
  function Parameters(fields: seq<Field>, i: nat): string
    requires i <= |fields|
    decreases |fields| - i
  {
    if i == |fields| then ""
    else PARAMETER + (fields[i].key + (">" + (Raw(fields[i].value) + (END_PARAMETER + ("\n" + Parameters(fields, i + 1))))))
  }

  function ParameterBody(call: Call): string {
    "\n" + Parameters(call.arguments, 0)
  }

  function FunctionText(call: Call): string {
    FUNCTION + (call.name + (">" + (ParameterBody(call) + END_FUNCTION)))
  }

  function CallBody(call: Call): string {
    "\n" + (FunctionText(call) + "\n")
  }

  function CallTo(call: Call, tail: string): string {
    OPEN + (CallBody(call) + (CLOSE + tail))
  }

  /** Calls from `i` on, each after the first preceded by a line break. */
  function Calls(calls: seq<Call>, i: nat): string
    requires i <= |calls|
    decreases |calls| - i
  {
    if i == |calls| then "" else (if i == 0 then "" else "\n") + CallTo(calls[i], Calls(calls, i + 1))
  }

  /** Content and tool calls, as `render_qwen_chat` puts them. */
  function Visible(content: string, calls: seq<Call>): string {
    content + ((if calls != [] && Trim(content) != "" then "\n\n" else "") + Calls(calls, 0))
  }

  /** The whole message, with the thinking block. */
  function Render(reasoning: string, content: string, calls: seq<Call>): string {
    "<think>" + (("\n" + (Trim(reasoning) + "\n")) + (END_THINK + ("\n\n" + Visible(content, calls))))
  }

  // ---------------------------------------------------------------------------- parsing

  /** One line break is taken off each end. */
  function Strip(raw: string): string {
    var s := if |raw| > 0 && raw[0] == '\n' then raw[1..] else raw;
    if |s| > 0 && s[|s| - 1] == '\n' then s[..|s| - 1] else s
  }

  function ReadArgument(raw: string, inRange: string -> bool): Value {
    var value := FromText(Strip(raw), inRange);
    if value.Some? then value.value else String(Strip(raw))
  }

  /** The next parameter of `body` and what follows it: nothing when there is none or when it is
      malformed, which `None` and `Some(None)` tell apart. */
  function ReadParameter(body: string, inRange: string -> bool): (r: Option<Option<(Field, string)>>)
    ensures r.Some? && r.value.Some? ==> |r.value.value.1| < |body|
  {
    var start := Cut(body, PARAMETER);
    if start.None? then None
    else
      var key := Cut(start.value.1, ">");
      if key.None? || Trim(key.value.0) == "" then Some(None)
      else
        var value := Cut(key.value.1, END_PARAMETER);
        if value.None? then Some(None)
        else Some(Some((Field(Trim(key.value.0), ReadArgument(value.value.0, inRange)), value.value.1)))
  }

  function ReadParameters(body: string, inRange: string -> bool, fields: seq<Field>): (r: Option<seq<Field>>)
    decreases |body|
  {
    var next := ReadParameter(body, inRange);
    if next.None? then Some(fields)
    else if next.value.None? then None
    else
      var field := next.value.value.0;
      ReadParameters(next.value.value.1, inRange, Insert(fields, field.key, field.value))
  }

  function Lookup(fields: seq<Field>, key: string): Option<Value> {
    if |fields| == 0 then None
    else if fields[0].key == key then Some(fields[0].value)
    else Lookup(fields[1..], key)
  }

  /** A call written as a JSON object. */
  function JsonCall(body: string, inRange: string -> bool): Option<Call> {
    var value := FromText(body, inRange);
    if value.None? || !value.value.Object? then None
    else
      var name, arguments := Lookup(value.value.fields, "name"), Lookup(value.value.fields, "arguments");
      if name.None? || !name.value.String? then None
      else if arguments.None? then Some(Call(name.value.s, []))
      else if arguments.value.Object? then Some(Call(name.value.s, arguments.value.fields))
      else None
  }

  /** `parse_tool_call` */
  function ReadCall(body: string, inRange: string -> bool): Option<Call> {
    var text := Trim(body);
    if |text| > 0 && text[0] == '{' then JsonCall(text, inRange)
    else
      var start := Cut(text, FUNCTION);
      if start.None? then None
      else
        var name := Cut(start.value.1, ">");
        if name.None? || Trim(name.value.0) == "" then None
        else
          var end := CutLast(name.value.1, END_FUNCTION);
          if end.None? then None
          else
            var arguments := ReadParameters(end.value.0, inRange, []);
            if arguments.None? then None else Some(Call(Trim(name.value.0), arguments.value))
  }

  /** Only white space or another call may follow a call. */
  predicate GoesOn(rest: string) {
    Trim(rest) == "" || OPEN <= TrimStart(rest)
  }

  /** The call at the start of `text` and what follows it, told apart as for parameters. */
  function ReadNextCall(text: string, inRange: string -> bool): (r: Option<Option<(Call, string)>>)
    ensures r.Some? && r.value.Some? ==> |r.value.value.1| < |text|
  {
    var start := Cut(text, OPEN);
    if start.None? then None
    else
      var body := Cut(start.value.1, CLOSE);
      if body.None? then Some(None)
      else
        var call := ReadCall(body.value.0, inRange);
        if call.None? || !GoesOn(body.value.1) then Some(None) else Some(Some((call.value, body.value.1)))
  }

  function ReadCalls(text: string, inRange: string -> bool): (r: Option<seq<Call>>)
    decreases |text|
  {
    var next := ReadNextCall(text, inRange);
    if next.None? then Some([])
    else if next.value.None? then None
    else
      var more := ReadCalls(next.value.value.1, inRange);
      if more.None? then None else Some([next.value.value.0] + more.value)
  }

  datatype Parsed = Parsed(reasoning: Option<string>, content: Option<string>, calls: seq<Call>, malformed: bool)

  function ReadVisible(reasoning: Option<string>, visible: string, inRange: string -> bool): Parsed {
    var first := Cut(visible, OPEN);
    if first.None? then Parsed(reasoning, NonEmpty(Trim(visible)), [], false)
    else
      var calls := ReadCalls(visible[|first.value.0|..], inRange);
      if calls.None? then Parsed(reasoning, NonEmpty(Trim(visible)), [], true)
      else Parsed(reasoning, NonEmpty(TrimEnd(first.value.0)), calls.value, false)
  }

  function SkipBreaks(s: string): string {
    if |s| > 0 && s[0] == '\n' then SkipBreaks(s[1..]) else s
  }

  function SplitReasoning(raw: string, thinking: bool): (Option<string>, string) {
    if !thinking then (None, raw)
    else
      var close := Cut(raw, END_THINK);
      if close.None? then (NonEmpty(Trim(raw)), "")
      else
        var prefix := close.value.0;
        var reasoning := if "<think>" <= prefix then prefix[7..] else prefix;
        (NonEmpty(Trim(reasoning)), SkipBreaks(close.value.1))
  }

  /** `parse_assistant_output` */
  function ReadAssistant(raw: string, thinking: bool, inRange: string -> bool): Parsed {
    var split := SplitReasoning(raw, thinking);
    ReadVisible(split.0, split.1, inRange)
  }

  // ---------------------------------------------------------------------- the parsing loops

  /** The parameter loop: `rest` is the text from the cursor on. */
  method ParseParameters(body: string, inRange: string -> bool) returns (r: Option<seq<Field>>)
    ensures r == ReadParameters(body, inRange, [])
  {
    var rest, fields := body, [];
    while true
      invariant ReadParameters(body, inRange, []) == ReadParameters(rest, inRange, fields)
      decreases |rest|
    {
      var next := ReadParameter(rest, inRange);
      if next.None? {
        return Some(fields);
      }
      if next.value.None? {
        return None;
      }
      var (field, after) := next.value.value;
      rest, fields := after, Insert(fields, field.key, field.value);
    }
  }

  /** Calls already collected in front of those that are read later, if they are well formed. */
  ghost function Prepend(calls: seq<Call>, more: Option<seq<Call>>): Option<seq<Call>> {
    if more.None? then None else Some(calls + more.value)
  }

  lemma PrependEnds(calls: seq<Call>, more: Option<seq<Call>>)
    ensures Prepend([], more) == more && Prepend(calls, Some([])) == Some(calls)
  {
    assert calls + [] == calls && (more.Some? ==> [] + more.value == more.value);
  }

  lemma PrependNext(calls: seq<Call>, call: Call, more: Option<seq<Call>>)
    ensures Prepend(calls, Prepend([call], more)) == Prepend(calls + [call], more)
  {
    if more.Some? {
      assert calls + ([call] + more.value) == (calls + [call]) + more.value;
    }
  }

  /** One round of the call loop. */
  lemma ReadCallsUnfolds(text: string, inRange: string -> bool)
    ensures var next := ReadNextCall(text, inRange);
            ReadCalls(text, inRange) == if next.None? then Some([]) else if next.value.None? then None
                                        else Prepend([next.value.value.0], ReadCalls(next.value.value.1, inRange))
  {
  }

  method ParseCalls(text: string, inRange: string -> bool) returns (r: Option<seq<Call>>)
    ensures r == ReadCalls(text, inRange)
  {
    var rest, calls: seq<Call> := text, [];
    ghost var result := ReadCalls(text, inRange);
    PrependEnds([], result);
    while true
      invariant result == Prepend(calls, ReadCalls(rest, inRange))
      decreases |rest|
    {
      ReadCallsUnfolds(rest, inRange);
      var next := ReadNextCall(rest, inRange);
      if next.None? {
        PrependEnds(calls, None);
        return Some(calls);
      }
      if next.value.None? {
        return None;
      }
      var (call, after) := next.value.value;
      PrependNext(calls, call, ReadCalls(after, inRange));
      rest, calls := after, calls + [call];
    }
  }

  method ParseAssistantOutput(raw: string, thinking: bool, inRange: string -> bool) returns (parsed: Parsed)
    ensures parsed == ReadAssistant(raw, thinking, inRange)
  {
    var (reasoning, visible) := SplitReasoning(raw, thinking);
    var first := Cut(visible, OPEN);
    if first.None? {
      return Parsed(reasoning, NonEmpty(Trim(visible)), [], false);
    }
    var calls := ParseCalls(visible[|first.value.0|..], inRange);
    if calls.None? {
      return Parsed(reasoning, NonEmpty(Trim(visible)), [], true);
    }
    parsed := Parsed(reasoning, NonEmpty(TrimEnd(first.value.0)), calls.value, false);
  }

  // ------------------------------------------------------------- what survives a round trip

  predicate PlainName(s: string) {
    s != "" && Trimmed(s) && '>' !in s
  }

  /** A name or key that survives: it must not, with the bracket after it, end the call. */
  predicate GoodName(s: string) {
    PlainName(s) && !EndsWith(s, CLOSE[..11])
  }

  predicate EndsWith(s: string, suffix: string) {
    |suffix| <= |s| && s[|s| - |suffix|..] == suffix
  }

  /** A string argument survives unless it is JSON text or contains closing markup. */
  ghost predicate GoodValue(v: Value, inRange: string -> bool) {
    if v.String? then FromText(v.s, inRange).None? && Avoids(v.s, END_PARAMETER) && Avoids(v.s, CLOSE)
    else Printable(v, DEPTH - 1, inRange)
  }

  ghost predicate GoodCall(call: Call, inRange: string -> bool) {
    && GoodName(call.name)
    && (forall i :: 0 <= i < |call.arguments| ==> GoodName(call.arguments[i].key) && GoodValue(call.arguments[i].value, inRange))
    && forall i :: 0 <= i < |call.arguments| - 1 ==> Less(call.arguments[i].key, call.arguments[i + 1].key)
  }

  lemma MarkersAnchored()
    ensures Anchored(OPEN) && Anchored(CLOSE) && Anchored(FUNCTION) && Anchored(PARAMETER) && Anchored(END_PARAMETER)
    ensures Anchored(END_THINK) && Anchored(">")
  {
  }

  lemma ValueAvoids(v: Value, inRange: string -> bool, pattern: string)
    requires GoodValue(v, inRange) && (pattern == END_PARAMETER || pattern == CLOSE)
    ensures Avoids(ValueText(v), pattern)
  {
    if !v.String? {
      PrintSafe(v, DEPTH - 1, inRange, "");
      AvoidsByFirst(ValueText(v), pattern);
    }
  }

  lemma RawAvoids(v: Value, inRange: string -> bool, pattern: string)
    requires GoodValue(v, inRange) && (pattern == END_PARAMETER || pattern == CLOSE)
    ensures Avoids(Raw(v), pattern)
  {
    ValueAvoids(v, inRange, pattern);
    AvoidsByFirst("\n", pattern);
    AvoidsJoin(ValueText(v), "\n", pattern);
    InertJoin("\n", ValueText(v) + "\n", pattern);
  }

  lemma ArgumentReadsBack(v: Value, inRange: string -> bool)
    requires GoodValue(v, inRange)
    ensures ReadArgument(Raw(v), inRange) == v
  {
    var text := ValueText(v);
    assert Raw(v)[1..] == text + "\n" && (text + "\n")[..|text|] == text;
    assert Strip(Raw(v)) == text;
    if !v.String? {
      TextRoundTrip(v, inRange);
    }
  }

  // ------------------------------------------------------------------------- parameters

  /** A parameter reads back, whatever follows it. */
  lemma ParameterThen(field: Field, rest: string, inRange: string -> bool)
    requires PlainName(field.key) && GoodValue(field.value, inRange)
    ensures ReadParameter("\n" + (PARAMETER + (field.key + (">" + (Raw(field.value) + (END_PARAMETER + rest))))), inRange)
            == Some(Some((field, rest)))
  {
    var key, raw := field.key, Raw(field.value);
    MarkersAnchored();
    AvoidsByFirst("\n", PARAMETER);
    AvoidsByFirst(key, ">");
    RawAvoids(field.value, inRange, END_PARAMETER);
    CutAt("\n", PARAMETER, key + (">" + (raw + (END_PARAMETER + rest))));
    CutAt(key, ">", raw + (END_PARAMETER + rest));
    CutAt(raw, END_PARAMETER, rest);
    TrimTrimmed(key);
    ArgumentReadsBack(field.value, inRange);
  }

  lemma ParameterReadsBack(fields: seq<Field>, i: nat, inRange: string -> bool)
    requires i < |fields| && PlainName(fields[i].key) && GoodValue(fields[i].value, inRange)
    ensures ReadParameter("\n" + Parameters(fields, i), inRange) == Some(Some((fields[i], "\n" + Parameters(fields, i + 1))))
  {
    ParameterThen(fields[i], "\n" + Parameters(fields, i + 1), inRange);
  }

  lemma NoParameter(inRange: string -> bool)
    ensures ReadParameter("\n", inRange) == None
  {
    AvoidsByFirst("\n", PARAMETER);
  }

  lemma {:induction false} ParametersReadBack(call: Call, i: nat, inRange: string -> bool, before: seq<Field>)
    requires GoodCall(call, inRange) && i <= |call.arguments| && before == call.arguments[..i]
    ensures ReadParameters("\n" + Parameters(call.arguments, i), inRange, before) == Some(call.arguments)
    decreases |call.arguments| - i
  {
    if i == |call.arguments| {
      NoParameter(inRange);
      assert "\n" + "" == "\n" && before == call.arguments;
    } else {
      ParameterReadsBack(call.arguments, i, inRange);
      InsertNext(call.arguments, i);
      ParametersReadBack(call, i + 1, inRange, call.arguments[..i + 1]);
    }
  }

  // -------------------------------------------------------------------------- one call

  lemma FunctionTrimmed(call: Call)
    ensures Trimmed(FunctionText(call)) && FunctionText(call)[0] == '<'
  {
    assert END_FUNCTION[|END_FUNCTION| - 1] == '>';
    var text := FunctionText(call);
    assert text[|text| - 1] == END_FUNCTION[|END_FUNCTION| - 1];
  }

  lemma ReadCallOf(body: string, text: string, name: string, rest: string, parameters: string, fields: seq<Field>, inRange: string -> bool)
    requires Trim(body) == text && |text| > 0 && text[0] != '{'
    requires Cut(text, FUNCTION) == Some(("", name + (">" + rest))) && Cut(name + (">" + rest), ">") == Some((name, rest))
    requires Trim(name) == name && name != "" && CutLast(rest, END_FUNCTION) == Some((parameters, ""))
    requires ReadParameters(parameters, inRange, []) == Some(fields)
    ensures ReadCall(body, inRange) == Some(Call(name, fields))
  {
  }

  lemma FunctionCuts(name: string, rest: string)
    requires '>' !in name
    ensures Cut(FUNCTION + (name + (">" + rest)), FUNCTION) == Some(("", name + (">" + rest)))
    ensures Cut(name + (">" + rest), ">") == Some((name, rest))
  {
    MarkersAnchored();
    AvoidsByFirst("", FUNCTION);
    AvoidsByFirst(name, ">");
    CutAt("", FUNCTION, name + (">" + rest));
    assert "" + (FUNCTION + (name + (">" + rest))) == FUNCTION + (name + (">" + rest));
    CutAt(name, ">", rest);
  }

  lemma CallReadsBack(call: Call, inRange: string -> bool)
    requires GoodCall(call, inRange)
    ensures ReadCall(CallBody(call), inRange) == Some(call)
  {
    var text, body := FunctionText(call), ParameterBody(call);
    FunctionTrimmed(call);
    TrimTrimmed(text);
    FunctionCuts(call.name, body + END_FUNCTION);
    TrimTrimmed(call.name);
    CutLastAt(body, END_FUNCTION);
    ParametersReadBack(call, 0, inRange, []);
    ReadCallOf(CallBody(call), text, call.name, body + END_FUNCTION, body, call.arguments, inRange);
  }

  /** A good name and its bracket do not close the call. */
  lemma NameAvoids(name: string)
    requires '>' !in name && !EndsWith(name, CLOSE[..11])
    ensures Avoids(name + ">", CLOSE)
  {
    var text := name + ">";
    forall q: nat ensures !OccursAt(text, CLOSE, q) {
      if OccursAt(text, CLOSE, q) {
        OccursPointwise(text, CLOSE, q, 11);
        EndsAtBracket(name, q);
      }
    }
  }

  lemma EndsAtBracket(name: string, q: nat)
    requires OccursAt(name + ">", CLOSE, q) && (name + ">")[q + 11] == '>' && '>' !in name
    ensures EndsWith(name, CLOSE[..11])
  {
    assert q + 11 >= |name|;
    assert (name + ">")[q..q + 12][..11] == name[q..];
  }

  lemma ParameterAvoids(field: Field, inRange: string -> bool, rest: string)
    requires GoodName(field.key) && GoodValue(field.value, inRange) && Avoids(rest, CLOSE)
    ensures Avoids(PARAMETER + (field.key + (">" + (Raw(field.value) + (END_PARAMETER + ("\n" + rest))))), CLOSE)
  {
    var raw := Raw(field.value);
    InertJoin("\n", rest, CLOSE);
    EndParameterAvoids();
    AvoidsJoin(END_PARAMETER, "\n" + rest, CLOSE);
    RawAvoids(field.value, inRange, CLOSE);
    var tail := raw + (END_PARAMETER + ("\n" + rest));
    AvoidsJoin(raw, END_PARAMETER + ("\n" + rest), CLOSE);
    HeadAvoids(PARAMETER, field.key, tail);
  }

  lemma EndParameterAvoids()
    ensures Avoids(END_PARAMETER, CLOSE) && Avoids(END_FUNCTION, CLOSE)
  {
    assert END_PARAMETER[2] == 'p' && END_FUNCTION[2] == 'f';
    assert forall k :: 1 <= k < |END_PARAMETER| ==> END_PARAMETER[k] != '<';
    assert forall k :: 1 <= k < |END_FUNCTION| ==> END_FUNCTION[k] != '<';
    forall q: nat ensures !OccursAt(END_PARAMETER, CLOSE, q) && !OccursAt(END_FUNCTION, CLOSE, q) {
      if OccursAt(END_PARAMETER, CLOSE, q) {
        OccursPointwise(END_PARAMETER, CLOSE, q, 0);
        OccursPointwise(END_PARAMETER, CLOSE, q, 2);
      }
    }
  }

  /** Opening markup, a good name and its bracket, in front of a text that starts a new line. */
  lemma HeadAvoids(open: string, name: string, tail: string)
    requires (open == PARAMETER || open == FUNCTION) && GoodName(name)
    requires Avoids(tail, CLOSE) && |tail| > 0 && tail[0] == '\n'
    ensures Avoids(open + (name + (">" + tail)), CLOSE)
  {
    NameAvoids(name);
    AvoidsJoin(name + ">", tail, CLOSE);
    assert (name + ">") + tail == name + (">" + tail);
    InertJoin(open, name + (">" + tail), CLOSE);
  }

  lemma {:induction false} ParametersAvoid(call: Call, i: nat, inRange: string -> bool)
    requires GoodCall(call, inRange) && i <= |call.arguments|
    ensures Avoids(Parameters(call.arguments, i), CLOSE)
    decreases |call.arguments| - i
  {
    if i == |call.arguments| {
      AvoidsByFirst("", CLOSE);
    } else {
      ParametersAvoid(call, i + 1, inRange);
      ParameterAvoids(call.arguments[i], inRange, Parameters(call.arguments, i + 1));
    }
  }

  /** The body of a good call contains no end of call. */
  lemma BodyAvoids(call: Call, inRange: string -> bool)
    requires GoodCall(call, inRange)
    ensures Avoids(CallBody(call), CLOSE)
  {
    var body := ParameterBody(call);
    ParametersAvoid(call, 0, inRange);
    InertJoin("\n", Parameters(call.arguments, 0), CLOSE);
    EndParameterAvoids();
    AvoidsJoin(body, END_FUNCTION, CLOSE);
    HeadAvoids(FUNCTION, call.name, body + END_FUNCTION);
    AvoidsByFirst("\n", CLOSE);
    AvoidsJoin(FunctionText(call), "\n", CLOSE);
    InertJoin("\n", FunctionText(call) + "\n", CLOSE);
  }

  // ------------------------------------------------------------------------- all calls

  lemma NextCallReadsBack(before: string, call: Call, tail: string, inRange: string -> bool)
    requires GoodCall(call, inRange) && Avoids(before, OPEN) && GoesOn(tail)
    ensures ReadNextCall(before + CallTo(call, tail), inRange) == Some(Some((call, tail)))
  {
    MarkersAnchored();
    BodyAvoids(call, inRange);
    CutAt(before, OPEN, CallBody(call) + (CLOSE + tail));
    CutAt(CallBody(call), CLOSE, tail);
    CallReadsBack(call, inRange);
  }

  lemma LineGoesOn(text: string)
    requires OPEN <= text
    ensures GoesOn("\n" + text)
  {
    assert text[0] == OPEN[0] && ("\n" + text)[1..] == text;
    assert TrimStart(text) == text;
  }

  /** The calls from `i` on: a possible line break, a call, and the others. */
  lemma CallsUnfold(calls: seq<Call>, i: nat)
    requires i < |calls|
    ensures Calls(calls, i) == (if i == 0 then "" else "\n") + CallTo(calls[i], Calls(calls, i + 1))
    ensures OPEN <= CallTo(calls[i], Calls(calls, i + 1))
  {
  }

  lemma CallsGoOn(calls: seq<Call>, i: nat)
    requires 0 < i <= |calls|
    ensures GoesOn(Calls(calls, i))
  {
    if i < |calls| {
      CallsUnfold(calls, i);
      LineGoesOn(CallTo(calls[i], Calls(calls, i + 1)));
    }
  }

  ghost predicate GoodUpTo(calls: seq<Call>, n: nat, inRange: string -> bool)
    requires n <= |calls|
  {
    forall k :: 0 <= k < n ==> GoodCall(calls[k], inRange)
  }

  ghost predicate AllGood(calls: seq<Call>, inRange: string -> bool) {
    GoodUpTo(calls, |calls|, inRange)
  }

  /** `text` starts with `call`, and `rest` follows it. */
  ghost predicate Linked(text: string, call: Call, rest: string, inRange: string -> bool) {
    ReadNextCall(text, inRange) == Some(Some((call, rest)))
  }

  lemma CallLink(calls: seq<Call>, n: nat, i: nat, inRange: string -> bool)
    requires i < n <= |calls| && GoodUpTo(calls, n, inRange)
    ensures Linked(Calls(calls, i), calls[i], Calls(calls, i + 1), inRange)
  {
    var before, rest := if i == 0 then "" else "\n", Calls(calls, i + 1);
    AvoidsByFirst(before, OPEN);
    CallsGoOn(calls, i + 1);
    NextCallReadsBack(before, calls[i], rest, inRange);
    CallsUnfold(calls, i);
  }

  /** The calls of a text are its first call and those of what follows. */
  lemma LinkReads(calls: seq<Call>, n: nat, i: nat, inRange: string -> bool)
    requires i < n <= |calls| && GoodUpTo(calls, n, inRange)
    ensures ReadCalls(Calls(calls, i), inRange) == Prepend([calls[i]], ReadCalls(Calls(calls, i + 1), inRange))
  {
    CallLink(calls, n, i, inRange);
    LinkUnfolds(Calls(calls, i), calls[i], Calls(calls, i + 1), inRange);
  }

  lemma LinkUnfolds(text: string, call: Call, rest: string, inRange: string -> bool)
    requires Linked(text, call, rest, inRange)
    ensures ReadCalls(text, inRange) == Prepend([call], ReadCalls(rest, inRange))
  {
    ReadCallsUnfolds(text, inRange);
  }

  lemma NoCalls(inRange: string -> bool)
    ensures ReadCalls("", inRange) == Some([])
  {
    AvoidsByFirst("", OPEN);
  }

  /** Reading that peels off one call after the other peels off all of them. */
  lemma {:induction false} PeelAll(read: string -> Option<seq<Call>>, texts: seq<string>, calls: seq<Call>, n: nat, i: nat)
    requires i <= n < |texts| && n <= |calls|
    requires forall k :: 0 <= k < n ==> read(texts[k]) == Prepend([calls[k]], read(texts[k + 1]))
    ensures read(texts[i]) == Prepend(calls[i..n], read(texts[n]))
    decreases n - i
  {
    if i == n {
      assert calls[i..n] == [];
      PrependEnds([], read(texts[n]));
    } else {
      PeelAll(read, texts, calls, n, i + 1);
      assert calls[i..n] == [calls[i]] + calls[i + 1..n];
      var more := read(texts[n]);
      assert more.Some? ==> [calls[i]] + (calls[i + 1..n] + more.value) == calls[i..n] + more.value;
    }
  }

  /** Good calls at the front of a list read back in front of the rest. */
  lemma FrontReadsBack(calls: seq<Call>, n: nat, inRange: string -> bool)
    requires n <= |calls| && GoodUpTo(calls, n, inRange)
    ensures ReadCalls(Calls(calls, 0), inRange) == Prepend(calls[..n], ReadCalls(Calls(calls, n), inRange))
  {
    var texts := seq(|calls| + 1, k requires 0 <= k <= |calls| => Calls(calls, k));
    TextsPeel(calls, n, texts, inRange);
    PeelAll(text => ReadCalls(text, inRange), texts, calls, n, 0);
    assert calls[0..n] == calls[..n];
  }

  lemma TextsPeel(calls: seq<Call>, n: nat, texts: seq<string>, inRange: string -> bool)
    requires n <= |calls| && GoodUpTo(calls, n, inRange)
    requires |texts| == |calls| + 1 && forall k :: 0 <= k <= |calls| ==> texts[k] == Calls(calls, k)
    ensures forall k :: 0 <= k < n ==> ReadCalls(texts[k], inRange) == Prepend([calls[k]], ReadCalls(texts[k + 1], inRange))
  {
    forall k | 0 <= k < n
      ensures ReadCalls(texts[k], inRange) == Prepend([calls[k]], ReadCalls(texts[k + 1], inRange))
    {
      LinkReads(calls, n, k, inRange);
    }
  }

  lemma CallsReadBack(calls: seq<Call>, inRange: string -> bool)
    requires AllGood(calls, inRange)
    ensures ReadCalls(Calls(calls, 0), inRange) == Some(calls)
  {
    FrontReadsBack(calls, |calls|, inRange);
    NoCalls(inRange);
    PrependEnds(calls, None);
    assert calls[..|calls|] == calls;
  }

  lemma VisibleOf(reasoning: Option<string>, prefix: string, text: string, calls: seq<Call>, inRange: string -> bool)
    requires Avoids(prefix, OPEN) && OPEN <= text && ReadCalls(text, inRange) == Some(calls)
    ensures ReadVisible(reasoning, prefix + text, inRange) == Parsed(reasoning, NonEmpty(TrimEnd(prefix)), calls, false)
  {
    MarkersAnchored();
    assert text == OPEN + text[|OPEN|..];
    CutAt(prefix, OPEN, text[|OPEN|..]);
    assert (prefix + text)[|prefix|..] == text;
  }

  lemma ContentAvoids(content: string, gap: string)
    requires Trimmed(content) && Avoids(content, OPEN) && gap == if content != "" then "\n\n" else ""
    ensures Avoids(content + gap, OPEN) && TrimEnd(content + gap) == content
  {
    TrimTrimmed(content);
    AvoidsByFirst(gap, OPEN);
    AvoidsJoin(content, gap, OPEN);
    assert content == "" ==> content + gap == "";
  }

  /** Content that opens no call itself, and good calls, read back. */
  lemma VisibleRoundTrip(reasoning: Option<string>, content: string, calls: seq<Call>, inRange: string -> bool)
    requires Trimmed(content) && Avoids(content, OPEN)
    requires AllGood(calls, inRange)
    ensures ReadVisible(reasoning, Visible(content, calls), inRange) == Parsed(reasoning, NonEmpty(content), calls, false)
  {
    if calls == [] {
      ContentAlone(reasoning, content, inRange);
    } else {
      var gap, text := if content != "" then "\n\n" else "", Calls(calls, 0);
      CallsStart(calls);
      ContentAvoids(content, gap);
      CallsReadBack(calls, inRange);
      VisibleOf(reasoning, content + gap, text, calls, inRange);
      VisibleIs(content, calls, gap);
    }
  }

  lemma ContentAlone(reasoning: Option<string>, content: string, inRange: string -> bool)
    requires Trimmed(content) && Avoids(content, OPEN)
    ensures ReadVisible(reasoning, Visible(content, []), inRange) == Parsed(reasoning, NonEmpty(content), [], false)
  {
    TrimTrimmed(content);
    assert Visible(content, []) == content;
  }

  lemma CallsStart(calls: seq<Call>)
    requires calls != []
    ensures OPEN <= Calls(calls, 0)
  {
    CallsUnfold(calls, 0);
    assert Calls(calls, 0) == CallTo(calls[0], Calls(calls, 1));
  }

  lemma VisibleIs(content: string, calls: seq<Call>, gap: string)
    requires Trimmed(content) && calls != [] && gap == if content != "" then "\n\n" else ""
    ensures Visible(content, calls) == (content + gap) + Calls(calls, 0)
  {
    assert Trim(content) == content by { TrimTrimmed(content); }
    JoinThree(content, gap, Calls(calls, 0));
  }

  lemma JoinThree(a: string, b: string, c: string)
    ensures a + (b + c) == (a + b) + c
  {
  }

  lemma ThinkAvoids(reasoning: string)
    requires Avoids(reasoning, END_THINK)
    ensures Avoids("<think>" + ("\n" + (reasoning + "\n")), END_THINK)
  {
    AvoidsByFirst("\n", END_THINK);
    AvoidsJoin(reasoning, "\n", END_THINK);
    InertJoin("\n", reasoning + "\n", END_THINK);
    InertJoin("<think>", "\n" + (reasoning + "\n"), END_THINK);
  }

  lemma BreaksSkipped(visible: string)
    requires |visible| > 0 ==> visible[0] != '\n'
    ensures SkipBreaks("\n\n" + visible) == visible
  {
    assert ("\n\n" + visible)[1..] == "\n" + visible && ("\n" + visible)[1..] == visible;
    assert SkipBreaks("\n" + visible) == visible;
  }

  lemma VisibleStarts(content: string, calls: seq<Call>)
    requires Trimmed(content)
    ensures |Visible(content, calls)| > 0 ==> Visible(content, calls)[0] != '\n'
  {
    TrimTrimmed(content);
    if content == "" && calls != [] {
      CallsUnfold(calls, 0);
      assert Visible(content, calls) == CallTo(calls[0], Calls(calls, 1));
    }
  }

  lemma SplitOf(inner: string, after: string)
    requires Avoids("<think>" + inner, END_THINK)
    ensures SplitReasoning("<think>" + (inner + (END_THINK + after)), true) == (NonEmpty(Trim(inner)), SkipBreaks(after))
  {
    var prefix := "<think>" + inner;
    MarkersAnchored();
    CutAt(prefix, END_THINK, after);
    assert "<think>" + (inner + (END_THINK + after)) == prefix + (END_THINK + after);
    assert "<think>" <= prefix && prefix[7..] == inner;
  }

  /** The parser sees the content and calls of a rendered message. */
  lemma MessageVisible(reasoning: string, content: string, calls: seq<Call>, inRange: string -> bool)
    requires Trimmed(reasoning) && Avoids(reasoning, END_THINK) && Trimmed(content)
    ensures ReadAssistant(Render(reasoning, content, calls), true, inRange)
            == ReadVisible(NonEmpty(reasoning), Visible(content, calls), inRange)
  {
    var inner, visible := "\n" + (reasoning + "\n"), Visible(content, calls);
    TrimTrimmed(reasoning);
    ThinkAvoids(reasoning);
    SplitOf(inner, "\n\n" + visible);
    VisibleStarts(content, calls);
    BreaksSkipped(visible);
  }

  /** Reasoning, content and tool calls read back from the rendered message. */
  lemma RoundTrip(reasoning: string, content: string, calls: seq<Call>, inRange: string -> bool)
    requires Trimmed(reasoning) && Avoids(reasoning, END_THINK)
    requires Trimmed(content) && Avoids(content, OPEN)
    requires AllGood(calls, inRange)
    ensures ReadAssistant(Render(reasoning, content, calls), true, inRange)
            == Parsed(NonEmpty(reasoning), NonEmpty(content), calls, false)
  {
    MessageVisible(reasoning, content, calls, inRange);
    VisibleRoundTrip(NonEmpty(reasoning), content, calls, inRange);
  }
}
