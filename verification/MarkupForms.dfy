/** The other forms of model output that the parser takes: thinking switched off, reasoning that is
    opened in the prompt or never closed, calls written as JSON objects, and broken calls. */
module MarkupForms {
  import opened Options
  import opened Search
  import opened Json
  import opened JsonDomain
  import opened ToolMarkup

  // --------------------------------------------------------------------------- trimming

  predicate White(s: string) {
    forall i :: 0 <= i < |s| ==> IsWhite(s[i])
  }

  lemma {:induction false} TrimStartMeans(s: string) returns (n: nat)
    ensures n <= |s| && White(s[..n]) && TrimStart(s) == s[n..]
  {
    n := 0;
    if |s| > 0 && IsWhite(s[0]) {
      var m := TrimStartMeans(s[1..]);
      n := m + 1;
      assert s[1..][..m] == s[1..n] && s[..n] == [s[0]] + s[1..n];
    }
  }

  lemma {:induction false} TrimEndMeans(s: string) returns (n: nat)
    ensures n <= |s| && White(s[n..]) && TrimEnd(s) == s[..n]
  {
    n := |s|;
    if |s| > 0 && IsWhite(s[|s| - 1]) {
      var front := s[..|s| - 1];
      n := TrimEndMeans(front);
      assert front[n..] == s[n..|s| - 1];
    }
  }

  /** Trimming takes white space off both ends, and all of it. */
  lemma TrimMeans(s: string) returns (before: string, after: string)
    ensures s == before + Trim(s) + after && White(before) && White(after) && Trimmed(Trim(s))
  {
    var n := TrimStartMeans(s);
    var m := TrimEndMeans(s[n..]);
    before, after := s[..n], s[n..][m..];
    var middle := s[n..][..m];
    assert s[n..] == middle + after && s == before + s[n..];
    assert |middle| > 0 ==> middle[0] == s[n..][0];
  }

  predicate LineBreak(s: string) {
    s == "" || s == "\n"
  }

  /** A value loses one line break at each end, where there is one. */
  lemma ArgumentMeans(lead: string, text: string, trail: string, inRange: string -> bool)
    requires LineBreak(lead) && LineBreak(trail)
    requires |text| > 0 ==> (lead == "" ==> text[0] != '\n') && (trail == "" ==> text[|text| - 1] != '\n')
    ensures ReadArgument(lead + (text + trail), inRange)
            == if FromText(text, inRange).Some? then FromText(text, inRange).value else String(text)
  {
    var raw := lead + (text + trail);
    assert lead == "" ==> raw == text + trail;
    assert raw[|lead|..] == text + trail;
    assert (text + trail)[..|text|] == text;
    assert Strip(raw) == text;
  }

  // -------------------------------------------------------------------------- reasoning

  /** With thinking off there is no reasoning: the whole output is content and calls. */
  lemma ThinkingOff(content: string, calls: seq<Call>, inRange: string -> bool)
    requires Trimmed(content) && Avoids(content, OPEN) && AllGood(calls, inRange)
    ensures ReadAssistant(Visible(content, calls), false, inRange) == Parsed(None, NonEmpty(content), calls, false)
  {
    VisibleRoundTrip(None, content, calls, inRange);
  }

  /** Reasoning that does not end is all there is. */
  lemma UnclosedReasoning(raw: string, inRange: string -> bool)
    requires Avoids(raw, END_THINK)
    ensures ReadAssistant(raw, true, inRange) == Parsed(NonEmpty(Trim(raw)), None, [], false)
  {
    AvoidsByFirst("", OPEN);
    assert Trim("") == "";
  }

  function Breaks(n: nat): string {
    if n == 0 then "" else "\n" + Breaks(n - 1)
  }

  lemma {:induction false} BreaksSkip(n: nat, visible: string)
    requires |visible| > 0 ==> visible[0] != '\n'
    ensures SkipBreaks(Breaks(n) + visible) == visible
  {
    if n == 0 {
      assert Breaks(n) + visible == visible;
    } else {
      BreaksSkip(n - 1, visible);
      assert (Breaks(n) + visible)[1..] == Breaks(n - 1) + visible;
    }
  }

  lemma UnmarkedReasoning(reasoning: string, after: string)
    requires Avoids(reasoning, END_THINK) && !("<think>" <= reasoning)
    ensures SplitReasoning(reasoning + (END_THINK + after), true) == (NonEmpty(Trim(reasoning)), SkipBreaks(after))
  {
    MarkersAnchored();
    CutAt(reasoning, END_THINK, after);
  }

  lemma MarkedReasoning(reasoning: string, after: string)
    requires Avoids(reasoning, END_THINK)
    ensures SplitReasoning("<think>" + (reasoning + (END_THINK + after)), true) == (NonEmpty(Trim(reasoning)), SkipBreaks(after))
  {
    InertJoin("<think>", reasoning, END_THINK);
    SplitOf(reasoning, after);
  }

  /** Reasoning may be opened in the output or before it, and any number of line breaks may follow
      its end. */
  lemma ReasoningForms(marked: bool, reasoning: string, n: nat, visible: string)
    requires Avoids(reasoning, END_THINK) && (!marked ==> !("<think>" <= reasoning))
    requires |visible| > 0 ==> visible[0] != '\n'
    ensures SplitReasoning((if marked then "<think>" else "") + (reasoning + (END_THINK + (Breaks(n) + visible))), true)
            == (NonEmpty(Trim(reasoning)), visible)
  {
    var after := Breaks(n) + visible;
    BreaksSkip(n, visible);
    if marked {
      MarkedReasoning(reasoning, after);
    } else {
      UnmarkedReasoning(reasoning, after);
      assert "" + (reasoning + (END_THINK + after)) == reasoning + (END_THINK + after);
    }
  }

  /** The same for whole messages. */
  lemma MessageForms(marked: bool, reasoning: string, n: nat, content: string, calls: seq<Call>, inRange: string -> bool)
    requires Avoids(reasoning, END_THINK) && (!marked ==> !("<think>" <= reasoning))
    requires Trimmed(content) && Avoids(content, OPEN) && AllGood(calls, inRange)
    ensures ReadAssistant((if marked then "<think>" else "") + (reasoning + (END_THINK + (Breaks(n) + Visible(content, calls)))),
                          true, inRange)
            == Parsed(NonEmpty(Trim(reasoning)), NonEmpty(content), calls, false)
  {
    VisibleStarts(content, calls);
    ReasoningForms(marked, reasoning, n, Visible(content, calls));
    VisibleRoundTrip(NonEmpty(Trim(reasoning)), content, calls, inRange);
  }

  // ------------------------------------------------------------------ calls written as JSON

  /** The first field with the key. */
  ghost predicate FieldIs(fields: seq<Field>, key: string, i: int) {
    0 <= i < |fields| && fields[i].key == key && forall j :: 0 <= j < i ==> fields[j].key != key
  }

  ghost predicate NoField(fields: seq<Field>, key: string) {
    forall i :: 0 <= i < |fields| ==> fields[i].key != key
  }

  ghost predicate Holds(fields: seq<Field>, key: string, v: Value) {
    exists i :: FieldIs(fields, key, i) && fields[i].value == v
  }

  lemma {:induction false} LookupMeans(fields: seq<Field>, key: string)
    ensures match Lookup(fields, key)
            case None => NoField(fields, key)
            case Some(v) => exists i :: FieldIs(fields, key, i) && fields[i].value == v
  {
    if |fields| > 0 {
      if fields[0].key == key {
        assert FieldIs(fields, key, 0);
      } else {
        var rest := fields[1..];
        LookupMeans(rest, key);
        if Lookup(rest, key).Some? {
          var i :| FieldIs(rest, key, i) && rest[i].value == Lookup(rest, key).value;
          assert FieldIs(fields, key, i + 1);
        }
      }
    }
  }

  lemma LookupExactly(fields: seq<Field>, key: string, v: Value)
    ensures Lookup(fields, key) == Some(v) <==> Holds(fields, key, v)
    ensures Lookup(fields, key) == None <==> NoField(fields, key)
  {
    LookupMeans(fields, key);
    if Holds(fields, key, v) {
      var i :| FieldIs(fields, key, i) && fields[i].value == v;
      assert forall k :: FieldIs(fields, key, k) ==> k == i;
    }
  }

  /** The fields name the call: a string and, unless they are left out, an object of arguments. */
  ghost predicate Names(fields: seq<Field>, call: Call) {
    && Holds(fields, "name", String(call.name))
    && ((NoField(fields, "arguments") && call.arguments == []) || Holds(fields, "arguments", Object(call.arguments)))
  }

  /** A body that starts with a brace is a call exactly when it is a JSON object that names it. */
  lemma JsonCallExactly(body: string, inRange: string -> bool, call: Call)
    requires |Trim(body)| > 0 && Trim(body)[0] == '{'
    ensures ReadCall(body, inRange) == Some(call) <==>
              exists fields :: FromText(Trim(body), inRange) == Some(Object(fields)) && Names(fields, call)
  {
    var value := FromText(Trim(body), inRange);
    if value.Some? && value.value.Object? {
      var fields := value.value.fields;
      LookupExactly(fields, "name", String(call.name));
      LookupExactly(fields, "arguments", Object(call.arguments));
    }
  }

  /** The call as a JSON object, with its fields in key order. */
  function JsonOf(call: Call): Value {
    Object([Field("arguments", Object(call.arguments)), Field("name", String(call.name))])
  }

  function JsonBody(call: Call): string {
    "\n" + (PrintTo(JsonOf(call), "") + "\n")
  }

  predicate EndsIn(s: string, c: char) {
    |s| > 0 && s[|s| - 1] == c
  }

  lemma {:induction false} EscapesEnd(s: string, tail: string, c: char)
    requires EndsIn(tail, c)
    ensures EndsIn(EscapesTo(s, tail), c)
  {
    if |s| > 0 {
      EscapesEnd(s[1..], tail, c);
    }
  }

  /** Printing in front of a text leaves its end alone. */
  lemma {:induction false} PrintEnds(v: Value, tail: string, c: char)
    requires EndsIn(tail, c)
    ensures EndsIn(PrintTo(v, tail), c)
    decreases v, Width(v) + 1
  {
    match v
    case Null =>
    case Bool(_) =>
    case Number(_) =>
    case String(s) => EscapesEnd(s, "\"" + tail, c);
    case Array(_) => ItemsEnd(v, 0, tail, c);
    case Object(_) => FieldsEnd(v, 0, tail, c);
  }

  lemma {:induction false} ItemsEnd(v: Value, i: nat, tail: string, c: char)
    requires v.Array? && i <= |v.items| && EndsIn("]" + tail, c)
    ensures EndsIn(ItemsTo(v, i, tail), c)
    decreases v, |v.items| - i
  {
    if i < |v.items| {
      ItemsEnd(v, i + 1, tail, c);
      PrintEnds(v.items[i], ItemsTo(v, i + 1, tail), c);
    }
  }

  lemma {:induction false} FieldsEnd(v: Value, i: nat, tail: string, c: char)
    requires v.Object? && i <= |v.fields| && EndsIn("}" + tail, c)
    ensures EndsIn(FieldsTo(v, i, tail), c)
    decreases v, |v.fields| - i
  {
    if i < |v.fields| {
      FieldsEnd(v, i + 1, tail, c);
      var rest := PrintTo(v.fields[i].value, FieldsTo(v, i + 1, tail));
      PrintEnds(v.fields[i].value, FieldsTo(v, i + 1, tail), c);
      EscapesEnd(v.fields[i].key, "\"" + (": " + rest), c);
    }
  }

  lemma ObjectTrimmed(v: Value)
    requires v.Object?
    ensures var text := PrintTo(v, ""); Trim("\n" + (text + "\n")) == text && |text| > 0 && text[0] == '{'
  {
    FieldsEnd(v, 0, "", '}');
    TrimTrimmed(PrintTo(v, ""));
  }

  lemma JsonPrintable(call: Call, inRange: string -> bool)
    requires Printable(Object(call.arguments), 126, inRange)
    ensures Printable(JsonOf(call), 127, inRange)
  {
    var fields := JsonOf(call).fields;
    assert Less(fields[0].key, fields[1].key);
    assert forall i :: 0 <= i < 2 ==> Printable(fields[i].value, 126, inRange);
  }

  /** A call written as JSON reads back, whatever its name. */
  lemma JsonReadsBack(call: Call, inRange: string -> bool)
    requires Printable(Object(call.arguments), 126, inRange)
    ensures ReadCall(JsonBody(call), inRange) == Some(call) && ReadsAs(JsonBody(call), call, inRange)
  {
    var v := JsonOf(call);
    JsonPrintable(call, inRange);
    ObjectTrimmed(v);
    TextRoundTrip(v, inRange);
    assert FieldIs(v.fields, "name", 1) && FieldIs(v.fields, "arguments", 0);
    JsonCallExactly(JsonBody(call), inRange, call);
    PrintSafe(v, 127, inRange, "");
    AvoidsByFirst(JsonBody(call), CLOSE);
  }

  /** A JSON call without arguments has none. */
  lemma JsonWithoutArguments(name: string, inRange: string -> bool)
    ensures ReadCall("\n" + (PrintTo(Object([Field("name", String(name))]), "") + "\n"), inRange) == Some(Call(name, []))
  {
    var v := Object([Field("name", String(name))]);
    assert Printable(v, 127, inRange);
    ObjectTrimmed(v);
    TextRoundTrip(v, inRange);
    assert FieldIs(v.fields, "name", 0) && NoField(v.fields, "arguments");
    JsonCallExactly("\n" + (PrintTo(v, "") + "\n"), inRange, Call(name, []));
  }

  // ---------------------------------------------------------------------- calls in any form

  /** The text of a call with the given body, and what follows. */
  function BodyTo(body: string, tail: string): string {
    OPEN + (body + (CLOSE + tail))
  }

  function Bodies(bodies: seq<string>, i: nat): string
    requires i <= |bodies|
    decreases |bodies| - i
  {
    if i == |bodies| then "" else (if i == 0 then "" else "\n") + BodyTo(bodies[i], Bodies(bodies, i + 1))
  }

  /** The body reads as the call and does not end it early. */
  ghost predicate ReadsAs(body: string, call: Call, inRange: string -> bool) {
    ReadCall(body, inRange) == Some(call) && Avoids(body, CLOSE)
  }

  ghost predicate Read(bodies: seq<string>, calls: seq<Call>, inRange: string -> bool) {
    |bodies| == |calls| && forall i :: 0 <= i < |bodies| ==> ReadsAs(bodies[i], calls[i], inRange)
  }

  lemma BodyReads(before: string, body: string, call: Call, tail: string, inRange: string -> bool)
    requires Avoids(before, OPEN) && Avoids(body, CLOSE) && ReadCall(body, inRange) == Some(call) && GoesOn(tail)
    ensures Linked(before + BodyTo(body, tail), call, tail, inRange)
  {
    MarkersAnchored();
    CutAt(before, OPEN, body + (CLOSE + tail));
    CutAt(body, CLOSE, tail);
  }

  lemma BodiesUnfold(bodies: seq<string>, i: nat)
    requires i < |bodies|
    ensures Bodies(bodies, i) == (if i == 0 then "" else "\n") + BodyTo(bodies[i], Bodies(bodies, i + 1))
    ensures OPEN <= BodyTo(bodies[i], Bodies(bodies, i + 1))
  {
  }

  lemma BodiesGoOn(bodies: seq<string>, i: nat)
    requires 0 < i <= |bodies|
    ensures GoesOn(Bodies(bodies, i))
  {
    if i < |bodies| {
      BodiesUnfold(bodies, i);
      LineGoesOn(BodyTo(bodies[i], Bodies(bodies, i + 1)));
    }
  }

  lemma BodyLinked(bodies: seq<string>, calls: seq<Call>, i: nat, inRange: string -> bool)
    requires Read(bodies, calls, inRange) && i < |bodies|
    ensures Linked(Bodies(bodies, i), calls[i], Bodies(bodies, i + 1), inRange)
  {
    var before, rest := if i == 0 then "" else "\n", Bodies(bodies, i + 1);
    AvoidsByFirst(before, OPEN);
    assert ReadsAs(bodies[i], calls[i], inRange);
    BodiesGoOn(bodies, i + 1);
    BodyReads(before, bodies[i], calls[i], rest, inRange);
    BodiesUnfold(bodies, i);
  }

  lemma BodyPeels(bodies: seq<string>, calls: seq<Call>, i: nat, inRange: string -> bool)
    requires Read(bodies, calls, inRange) && i < |bodies|
    ensures ReadCalls(Bodies(bodies, i), inRange) == Prepend([calls[i]], ReadCalls(Bodies(bodies, i + 1), inRange))
  {
    BodyLinked(bodies, calls, i, inRange);
    LinkUnfolds(Bodies(bodies, i), calls[i], Bodies(bodies, i + 1), inRange);
  }

  lemma BodiesPeel(bodies: seq<string>, calls: seq<Call>, texts: seq<string>, inRange: string -> bool)
    requires Read(bodies, calls, inRange)
    requires |texts| == |bodies| + 1 && forall k :: 0 <= k <= |bodies| ==> texts[k] == Bodies(bodies, k)
    ensures forall k :: 0 <= k < |bodies| ==> ReadCalls(texts[k], inRange) == Prepend([calls[k]], ReadCalls(texts[k + 1], inRange))
  {
    forall k | 0 <= k < |bodies|
      ensures ReadCalls(texts[k], inRange) == Prepend([calls[k]], ReadCalls(texts[k + 1], inRange))
    {
      BodyPeels(bodies, calls, k, inRange);
    }
  }

  /** Calls in any mixture of the two forms read back in order. */
  lemma BodiesReadBack(bodies: seq<string>, calls: seq<Call>, inRange: string -> bool)
    requires Read(bodies, calls, inRange)
    ensures ReadCalls(Bodies(bodies, 0), inRange) == Some(calls)
  {
    var n := |bodies|;
    var texts := seq(n + 1, k requires 0 <= k <= n => Bodies(bodies, k));
    BodiesPeel(bodies, calls, texts, inRange);
    PeelAll(text => ReadCalls(text, inRange), texts, calls, n, 0);
    NoCalls(inRange);
    PrependEnds(calls, None);
    assert calls[0..n] == calls;
  }

  /** A message with calls in any form, and content before them. */
  lemma MixedRoundTrip(reasoning: Option<string>, content: string, bodies: seq<string>, calls: seq<Call>, inRange: string -> bool)
    requires Avoids(content, OPEN) && Read(bodies, calls, inRange) && calls != []
    ensures ReadVisible(reasoning, content + Bodies(bodies, 0), inRange)
            == Parsed(reasoning, NonEmpty(TrimEnd(content)), calls, false)
  {
    BodiesReadBack(bodies, calls, inRange);
    BodiesUnfold(bodies, 0);
    assert Bodies(bodies, 0) == BodyTo(bodies[0], Bodies(bodies, 1));
    VisibleOf(reasoning, content, Bodies(bodies, 0), calls, inRange);
  }

  /** Good calls in markup and any calls in JSON can stand side by side. */
  lemma EitherForm(call: Call, json: bool, inRange: string -> bool)
    requires if json then Printable(Object(call.arguments), 126, inRange) else GoodCall(call, inRange)
    ensures ReadsAs(if json then JsonBody(call) else CallBody(call), call, inRange)
  {
    if json {
      JsonReadsBack(call, inRange);
    } else {
      CallReadsBack(call, inRange);
      BodyAvoids(call, inRange);
    }
  }

  // ----------------------------------------------------------- parameters in any order, repeated

  /** The map that holds the first `n` fields, inserted in turn. */
  function Merge(fields: seq<Field>, n: nat): seq<Field>
    requires n <= |fields|
  {
    if n == 0 then [] else Insert(Merge(fields, n - 1), fields[n - 1].key, fields[n - 1].value)
  }

  /** Field `i` is the last of the first `n` with its key. */
  ghost predicate LastOfKey(fields: seq<Field>, n: nat, i: nat, f: Field) {
    i < n <= |fields| && fields[i] == f && forall j :: i < j < n ==> fields[j].key != f.key
  }

  ghost predicate Counts(fields: seq<Field>, n: nat, f: Field) {
    exists i: nat :: LastOfKey(fields, n, i, f)
  }

  /** Of repeated keys the last one counts. */
  lemma {:induction false} MergeMeans(fields: seq<Field>, n: nat)
    requires n <= |fields|
    ensures Ascending(Merge(fields, n))
    ensures forall f :: f in Merge(fields, n) <==> Counts(fields, n, f)
  {
    if n > 0 {
      MergeMeans(fields, n - 1);
      var last := fields[n - 1];
      InsertMeans(Merge(fields, n - 1), last.key, last.value);
      forall f ensures f in Merge(fields, n) <==> Counts(fields, n, f) {
        LastStep(fields, n, f);
      }
    }
  }

  lemma LastStep(fields: seq<Field>, n: nat, f: Field)
    requires 0 < n <= |fields|
    ensures Counts(fields, n, f) <==> f == fields[n - 1] || (f.key != fields[n - 1].key && Counts(fields, n - 1, f))
  {
    var m := n - 1;
    if Counts(fields, n, f) {
      var i: nat :| LastOfKey(fields, n, i, f);
      assert i < m ==> LastOfKey(fields, m, i, f);
    }
    if f == fields[m] {
      assert LastOfKey(fields, n, m, f);
    } else if f.key != fields[m].key && Counts(fields, m, f) {
      var i: nat :| LastOfKey(fields, m, i, f);
      assert LastOfKey(fields, n, i, f);
    }
  }

  ghost predicate GoodFields(fields: seq<Field>, inRange: string -> bool) {
    forall i :: 0 <= i < |fields| ==> PlainName(fields[i].key) && GoodValue(fields[i].value, inRange)
  }

  lemma ParametersUnfold(body: string, inRange: string -> bool, before: seq<Field>, field: Field, rest: string)
    requires ReadParameter(body, inRange) == Some(Some((field, rest)))
    ensures ReadParameters(body, inRange, before) == ReadParameters(rest, inRange, Insert(before, field.key, field.value))
  {
  }

  lemma MergeUnfolds(fields: seq<Field>, i: nat)
    requires i < |fields|
    ensures Merge(fields, i + 1) == Insert(Merge(fields, i), fields[i].key, fields[i].value)
  {
  }

  /** What is read from parameter `i` on, after the parameters before it. */
  ghost function ReadFrom(fields: seq<Field>, i: nat, inRange: string -> bool): Option<seq<Field>>
    requires i <= |fields|
  {
    ReadParameters("\n" + Parameters(fields, i), inRange, Merge(fields, i))
  }

  lemma ReadStep(fields: seq<Field>, i: nat, inRange: string -> bool)
    requires GoodFields(fields, inRange) && i < |fields|
    ensures ReadFrom(fields, i, inRange) == ReadFrom(fields, i + 1, inRange)
  {
    ParameterReadsBack(fields, i, inRange);
    ParametersUnfold("\n" + Parameters(fields, i), inRange, Merge(fields, i), fields[i], "\n" + Parameters(fields, i + 1));
    MergeUnfolds(fields, i);
  }

  lemma ReadEnd(fields: seq<Field>, inRange: string -> bool)
    ensures ReadFrom(fields, |fields|, inRange) == Some(Merge(fields, |fields|))
  {
    NoParameter(inRange);
    assert "\n" + "" == "\n";
  }

  lemma {:induction false} ChainEqual<T>(values: seq<T>, i: nat)
    requires i < |values| && forall k :: 0 <= k < |values| - 1 ==> values[k] == values[k + 1]
    ensures values[i] == values[|values| - 1]
    decreases |values| - i
  {
    if i < |values| - 1 {
      ChainEqual(values, i + 1);
    }
  }

  ghost function ReadsFrom(fields: seq<Field>, inRange: string -> bool): (r: seq<Option<seq<Field>>>)
    ensures |r| == |fields| + 1 && forall k :: 0 <= k <= |fields| ==> r[k] == ReadFrom(fields, k, inRange)
  {
    seq(|fields| + 1, k requires 0 <= k <= |fields| => ReadFrom(fields, k, inRange))
  }

  lemma ReadChain(fields: seq<Field>, inRange: string -> bool)
    requires GoodFields(fields, inRange)
    ensures var r := ReadsFrom(fields, inRange); r[0] == r[|fields|]
  {
    var values := ReadsFrom(fields, inRange);
    forall k | 0 <= k < |fields| ensures values[k] == values[k + 1] {
      ReadStep(fields, k, inRange);
    }
    ChainEqual(values, 0);
  }

  /** Parameters in any order, with repeated keys, read as the map of their last values. */
  lemma AnyParameters(fields: seq<Field>, inRange: string -> bool)
    requires GoodFields(fields, inRange)
    ensures ReadFrom(fields, 0, inRange) == ReadParameters("\n" + Parameters(fields, 0), inRange, [])
    ensures ReadFrom(fields, 0, inRange) == Some(Merge(fields, |fields|))
  {
    ReadChain(fields, inRange);
    ReadEnd(fields, inRange);
  }

  // --------------------------------------------------------------------- bodies that are no call

  predicate InMarkup(text: string) {
    |text| > 0 && text[0] != '{'
  }

  /** A body without a function is no call. */
  lemma NoFunction(body: string, inRange: string -> bool)
    requires InMarkup(Trim(body)) && Avoids(Trim(body), FUNCTION)
    ensures ReadCall(body, inRange) == None
  {
  }

  lemma FunctionAt(after: string)
    ensures Cut(FUNCTION + after, FUNCTION) == Some(("", after))
  {
    MarkersAnchored();
    AvoidsByFirst("", FUNCTION);
    CutAt("", FUNCTION, after);
    assert "" + (FUNCTION + after) == FUNCTION + after;
  }

  /** Nor is one whose function name does not end. */
  lemma UnfinishedName(body: string, name: string, inRange: string -> bool)
    requires Trim(body) == FUNCTION + name && '>' !in name
    ensures ReadCall(body, inRange) == None
  {
    FunctionAt(name);
    AvoidsByFirst(name, ">");
  }

  lemma NameFails(text: string, name: string, rest: string, body: string, inRange: string -> bool)
    requires Trim(body) == text && InMarkup(text) && Cut(text, FUNCTION) == Some(("", name + (">" + rest)))
    requires Cut(name + (">" + rest), ">") == Some((name, rest)) && (Trim(name) == "" || CutLast(rest, END_FUNCTION).None?)
    ensures ReadCall(body, inRange) == None
  {
  }

  /** Nor is one with an empty name or without the function's end. */
  lemma NoName(body: string, name: string, rest: string, inRange: string -> bool)
    requires Trim(body) == FUNCTION + (name + (">" + rest)) && '>' !in name
    requires Trim(name) == "" || Avoids(rest, END_FUNCTION)
    ensures ReadCall(body, inRange) == None
  {
    FunctionCuts(name, rest);
    NameFails(Trim(body), name, rest, body, inRange);
  }

  // ---------------------------------------------------------------------------- broken calls

  /** A call that does not end makes all of the visible text content. */
  lemma UnclosedCall(reasoning: Option<string>, content: string, rest: string, inRange: string -> bool)
    requires Avoids(content, OPEN) && Avoids(rest, CLOSE)
    ensures ReadVisible(reasoning, content + (OPEN + rest), inRange)
            == Parsed(reasoning, NonEmpty(Trim(content + (OPEN + rest))), [], true)
  {
    MarkersAnchored();
    CutAt(content, OPEN, rest);
    assert (content + (OPEN + rest))[|content|..] == OPEN + rest;
    AvoidsByFirst("", OPEN);
    CutAt("", OPEN, rest);
    assert "" + (OPEN + rest) == OPEN + rest;
  }

  /** So does text after a call, and a body that is no call. */
  lemma BrokenCall(reasoning: Option<string>, content: string, body: string, tail: string, inRange: string -> bool)
    requires Avoids(content, OPEN) && Avoids(body, CLOSE) && (ReadCall(body, inRange).None? || !GoesOn(tail))
    ensures ReadVisible(reasoning, content + BodyTo(body, tail), inRange)
            == Parsed(reasoning, NonEmpty(Trim(content + BodyTo(body, tail))), [], true)
  {
    var text := BodyTo(body, tail);
    MarkersAnchored();
    CutAt(content, OPEN, body + (CLOSE + tail));
    assert (content + text)[|content|..] == text;
    AvoidsByFirst("", OPEN);
    CutAt("", OPEN, body + (CLOSE + tail));
    assert "" + text == text;
    CutAt(body, CLOSE, tail);
    assert ReadNextCall(text, inRange) == Some(None);
  }
}
