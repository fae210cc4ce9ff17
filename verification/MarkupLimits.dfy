/** What tool-call markup does not carry: exactly which names, keys and string values survive
    rendering and parsing. */
module MarkupLimits {
  import opened Options
  import opened Search
  import opened Json
  import opened ToolMarkup

  /** A string argument whose markup is intact reads back as itself exactly when it is not JSON
      text. */
  lemma StringSurvives(s: string, inRange: string -> bool)
    ensures ReadArgument(Raw(String(s)), inRange) == String(s) <==> FromText(s, inRange).None?
  {
    assert Raw(String(s))[1..] == s + "\n" && (s + "\n")[..|s|] == s;
    assert Strip(Raw(String(s))) == s;
    TextIsNotItsOwnString(s, inRange);
  }

  // ------------------------------------------------------------------------- plain calls

  /** Names and keys are trimmed, not empty and without a closing bracket, keys ascend, and
      values are good. */
  ghost predicate PlainCall(call: Call, inRange: string -> bool) {
    && PlainName(call.name)
    && (forall i :: 0 <= i < |call.arguments| ==> PlainName(call.arguments[i].key) && GoodValue(call.arguments[i].value, inRange))
    && forall i :: 0 <= i < |call.arguments| - 1 ==> Less(call.arguments[i].key, call.arguments[i + 1].key)
  }

  /** The name or a key ends in the closing markup without its bracket. */
  predicate Closing(call: Call) {
    || EndsWith(call.name, CLOSE[..11])
    || exists i :: 0 <= i < |call.arguments| && EndsWith(call.arguments[i].key, CLOSE[..11])
  }

  lemma GoodIsPlain(call: Call, inRange: string -> bool)
    ensures GoodCall(call, inRange) <==> PlainCall(call, inRange) && !Closing(call)
  {
  }

  // ------------------------------------------------------------------ the early end of call

  lemma FrontContains(a: string, b: string)
    requires !Avoids(a, CLOSE)
    ensures !Avoids(a + b, CLOSE)
  {
    var q: nat :| OccursAt(a, CLOSE, q);
    assert (a + b)[q..q + |CLOSE|] == a[q..q + |CLOSE|];
    assert OccursAt(a + b, CLOSE, q);
  }

  lemma BackContains(a: string, b: string)
    requires !Avoids(b, CLOSE)
    ensures !Avoids(a + b, CLOSE)
  {
    var q: nat :| OccursAt(b, CLOSE, q);
    assert (a + b)[|a| + q..|a| + q + |CLOSE|] == b[q..q + |CLOSE|];
    assert OccursAt(a + b, CLOSE, |a| + q);
  }

  lemma ClosingName(name: string, rest: string)
    requires EndsWith(name, CLOSE[..11])
    ensures !Avoids(name + (">" + rest), CLOSE)
  {
    var text, q := name + ">", |name| - 11;
    assert CLOSE == CLOSE[..11] + ">";
    assert text[q..q + 12] == name[q..] + ">";
    assert OccursAt(text, CLOSE, q);
    FrontContains(text, rest);
    assert text + rest == name + (">" + rest);
  }

  lemma {:induction false} ClosingKey(fields: seq<Field>, i: nat, j: nat)
    requires i <= j < |fields| && EndsWith(fields[j].key, CLOSE[..11])
    ensures !Avoids(Parameters(fields, i), CLOSE)
    decreases j - i
  {
    var key, raw, rest := fields[i].key, Raw(fields[i].value), Parameters(fields, i + 1);
    if i == j {
      ClosingName(key, raw + (END_PARAMETER + ("\n" + rest)));
    } else {
      ClosingKey(fields, i + 1, j);
      BackContains("\n", rest);
      BackContains(END_PARAMETER, "\n" + rest);
      BackContains(raw, END_PARAMETER + ("\n" + rest));
      BackContains(">", raw + (END_PARAMETER + ("\n" + rest)));
      BackContains(key, ">" + (raw + (END_PARAMETER + ("\n" + rest))));
    }
    BackContains(PARAMETER, key + (">" + (raw + (END_PARAMETER + ("\n" + rest)))));
  }

  /** A closing name or key puts an end of call into the body. */
  lemma ClosingOccurs(call: Call)
    requires Closing(call)
    ensures !Avoids(CallBody(call), CLOSE)
  {
    var body := ParameterBody(call);
    if EndsWith(call.name, CLOSE[..11]) {
      ClosingName(call.name, body + END_FUNCTION);
    } else {
      var j :| 0 <= j < |call.arguments| && EndsWith(call.arguments[j].key, CLOSE[..11]);
      ClosingKey(call.arguments, 0, j);
      BackContains("\n", Parameters(call.arguments, 0));
      FrontContains(body, END_FUNCTION);
      BackContains(">", body + END_FUNCTION);
      BackContains(call.name, ">" + (body + END_FUNCTION));
    }
    BackContains(FUNCTION, call.name + (">" + (body + END_FUNCTION)));
    FrontContains(FunctionText(call), "\n");
    BackContains("\n", FunctionText(call) + "\n");
  }

  /** The parser takes the first end of call for the end of this one. */
  lemma CutEarly(body: string, tail: string) returns (n: nat)
    requires !Avoids(body, CLOSE)
    ensures n < |body| && OccursAt(body + (CLOSE + tail), CLOSE, n)
    ensures Cut(body + (CLOSE + tail), CLOSE).Some? && Cut(body + (CLOSE + tail), CLOSE).value.0 == body[..n]
  {
    var text := body + (CLOSE + tail);
    var q: nat :| OccursAt(body, CLOSE, q);
    assert text[q..q + |CLOSE|] == body[q..q + |CLOSE|];
    assert OccursAt(text, CLOSE, q);
    n := FindFrom(text, CLOSE, 0).value;
    assert text[..n] == body[..n];
  }

  // --------------------------------------------------------------- a cut inside a parameter

  /** Nothing but the whole puts the pattern into a text that ends with it. */
  lemma ProperPrefixAvoids(a: string, pattern: string, r: string)
    requires Anchored(pattern) && Avoids(a, pattern) && r <= a + pattern && |r| < |a| + |pattern|
    ensures Avoids(r, pattern)
  {
    forall q: nat ensures !OccursAt(r, pattern, q) {
      if OccursAt(r, pattern, q) {
        assert (a + pattern)[q..q + |pattern|] == r[q..q + |pattern|];
        if q + |pattern| <= |a| {
          OccursInFront(a, pattern, pattern, q);
        } else {
          OccursPointwise(a + pattern, pattern, q, |a| - q);
        }
      }
    }
  }

  /** A parameter that is cut off before its end is malformed. */
  lemma CutParameter(field: Field, z: string, inRange: string -> bool)
    requires PlainName(field.key) && GoodValue(field.value, inRange)
    requires var whole := field.key + (">" + (Raw(field.value) + END_PARAMETER)); z <= whole && |z| < |whole|
    ensures ReadParameter("\n" + (PARAMETER + z), inRange) == Some(None)
  {
    var key, raw := field.key, Raw(field.value);
    MarkersAnchored();
    AvoidsByFirst("\n", PARAMETER);
    CutAt("\n", PARAMETER, z);
    if |z| <= |key| {
      assert z == key[..|z|];
      AvoidsByFirst(z, ">");
    } else {
      var r := z[|key| + 1..];
      CutInValue(key, raw, z, r);
      AvoidsByFirst(key, ">");
      CutAt(key, ">", r);
      RawAvoids(field.value, inRange, END_PARAMETER);
      ProperPrefixAvoids(raw, END_PARAMETER, r);
    }
  }

  lemma CutInValue(key: string, raw: string, z: string, r: string)
    requires z <= key + (">" + (raw + END_PARAMETER)) && |z| > |key| && r == z[|key| + 1..]
    ensures z == key + (">" + r) && r <= raw + END_PARAMETER
  {
    var whole := key + (">" + (raw + END_PARAMETER));
    assert whole[..|key|] == key && whole[|key|] == '>' && whole[|key| + 1..] == raw + END_PARAMETER;
    assert z[..|key|] == key && z[|key|] == '>';
    assert r == whole[|key| + 1..][..|r|];
  }

  /** The end of a function lies inside a parameter, after its opening markup. */
  lemma EndInParameter(whole: string, s: string)
    requires PARAMETER <= whole && s + END_FUNCTION <= "\n" + whole
    ensures |s| >= 1 + |PARAMETER| && s == "\n" + (PARAMETER + s[1 + |PARAMETER|..])
  {
    var text := "\n" + whole;
    assert text[|s|] == '<' && text[|s| + 1] == '/' by {
      assert (s + END_FUNCTION)[|s|] == '<' && (s + END_FUNCTION)[|s| + 1] == '/';
    }
    assert forall k :: 1 <= k < 12 ==> text[k] == PARAMETER[k - 1];
    assert forall k :: 1 <= k < 11 ==> PARAMETER[k] != '<';
    assert PARAMETER[1] == 'p';
    assert s[..12] == text[..12];
  }

  lemma PrefixOfJoin(a: string, b: string, x: string)
    requires x <= a + b
    ensures if |x| < |a| then x <= a else x == a + x[|a|..] && x[|a|..] <= b
  {
    if |x| < |a| {
      assert x == (a + b)[..|x|] == a[..|x|];
    } else {
      assert x[..|a|] == (a + b)[..|a|] == a;
      assert x[|a|..] == (a + b)[..|x|][|a|..] == b[..|x| - |a|];
    }
  }

  /** What of `s` follows the opening markup either ends inside the parameter or goes beyond it. */
  lemma WholeThenRest(whole: string, rest: string, z: string)
    requires ("\n" + (PARAMETER + z)) + END_FUNCTION <= "\n" + (PARAMETER + (whole + rest))
    ensures if |z| < |whole| then z <= whole else z == whole + z[|whole|..] && z[|whole|..] + END_FUNCTION <= rest
  {
    var head, x := "\n" + PARAMETER, z + END_FUNCTION;
    assert ("\n" + (PARAMETER + z)) + END_FUNCTION == head + x && "\n" + (PARAMETER + (whole + rest)) == head + (whole + rest);
    DropHead(head, x, whole + rest);
    if |z| < |whole| {
      assert z == x[..|z|];
      PrefixOfJoin(whole, rest, z);
    } else {
      PrefixOfJoin(whole, rest, x);
      assert x[|whole|..] == z[|whole|..] + END_FUNCTION && x[..|whole|] == z[..|whole|];
    }
  }

  lemma DropHead(head: string, a: string, b: string)
    requires head + a <= head + b
    ensures a <= b
  {
    assert (head + a)[|head|..] == a && (head + b)[|head|..] == b;
  }

  lemma ReadParametersUnfolds(s: string, inRange: string -> bool, acc: seq<Field>)
    ensures var next := ReadParameter(s, inRange);
            ReadParameters(s, inRange, acc)
            == if next.None? then Some(acc) else if next.value.None? then None
               else ReadParameters(next.value.value.1, inRange, Insert(acc, next.value.value.0.key, next.value.value.0.value))
  {
  }

  function Whole(field: Field): string {
    field.key + (">" + (Raw(field.value) + END_PARAMETER))
  }

  lemma WholeJoins(field: Field, rest: string)
    ensures Whole(field) + rest == field.key + (">" + (Raw(field.value) + (END_PARAMETER + rest)))
  {
  }

  /** A parameter list that is cut where a value or key mentions the end of a function is
      malformed. */
  lemma {:induction false} InsideFunction(call: Call, i: nat, s: string, acc: seq<Field>, inRange: string -> bool)
    requires PlainCall(call, inRange) && i <= |call.arguments| && s + END_FUNCTION <= "\n" + Parameters(call.arguments, i)
    ensures ReadParameters(s, inRange, acc) == None
    decreases |call.arguments| - i
  {
    if i < |call.arguments| {
      var field, rest := call.arguments[i], "\n" + Parameters(call.arguments, i + 1);
      WholeJoins(field, rest);
      assert Parameters(call.arguments, i) == PARAMETER + (Whole(field) + rest);
      EndInParameter(Parameters(call.arguments, i), s);
      var z := s[1 + |PARAMETER|..];
      WholeThenRest(Whole(field), rest, z);
      ReadParametersUnfolds(s, inRange, acc);
      if |z| < |Whole(field)| {
        CutParameter(field, z, inRange);
      } else {
        var more := z[|Whole(field)|..];
        WholeJoins(field, more);
        ParameterThen(field, more, inRange);
        InsideFunction(call, i + 1, more, Insert(acc, field.key, field.value), inRange);
      }
    }
  }

  // ------------------------------------------------------------------ the broken call

  lemma {:induction false} TrimEndAfter(x: string, y: string)
    requires |x| > 0 && !IsWhite(x[|x| - 1])
    ensures |TrimEnd(x + y)| >= |x| && TrimEnd(x + y)[..|x|] == x && TrimEnd(x + y)[|x|..] <= y
    decreases |y|
  {
    var text := x + y;
    if |y| > 0 && IsWhite(y[|y| - 1]) {
      TrimEndAfter(x, y[..|y| - 1]);
      assert text[..|text| - 1] == x + y[..|y| - 1];
    } else {
      assert |y| == 0 ==> text == x;
      assert text[|x|..] == y && text[..|x|] == x;
    }
  }

  /** Without a closing bracket there is no function call. */
  lemma NoBracket(body: string, inRange: string -> bool)
    requires '>' !in body && (Trim(body) == "" || Trim(body)[0] != '{')
    ensures ReadCall(body, inRange) == None
  {
    TrimKeeps(body);
    var start := Cut(Trim(body), FUNCTION);
    if start.Some? {
      AvoidsByFirst(start.value.1, ">");
    }
  }

  lemma TrimKeeps(s: string)
    ensures forall c :: c in Trim(s) ==> c in s
  {
    TrimStartKeeps(s);
    TrimEndKeeps(TrimStart(s));
  }

  lemma {:induction false} TrimStartKeeps(s: string)
    ensures forall c :: c in TrimStart(s) ==> c in s
  {
    if |s| > 0 && IsWhite(s[0]) {
      TrimStartKeeps(s[1..]);
    }
  }

  lemma {:induction false} TrimEndKeeps(s: string)
    ensures forall c :: c in TrimEnd(s) ==> c in s
  {
    if |s| > 0 && IsWhite(s[|s| - 1]) {
      TrimEndKeeps(s[..|s| - 1]);
    }
  }

  /** A body cut before the bracket of its name. */
  lemma CutInName(name: string, y: string, inRange: string -> bool)
    requires '>' !in name && y <= FUNCTION + name
    ensures ReadCall("\n" + y, inRange) == None && ReadCall("", inRange) == None
  {
    var body := "\n" + y;
    assert body[1..] == y;
    assert '>' !in FUNCTION;
    assert '>' !in y by { assert y == (FUNCTION + name)[..|y|]; }
    if |y| > 0 {
      assert y[0] == '<' && TrimStart(body) == y && y == y[..1] + y[1..];
      TrimEndAfter(y[..1], y[1..]);
    } else {
      assert y == "" && TrimStart("\n") == "";
    }
    NoBracket(body, inRange);
    NoBracket("", inRange);
  }

  lemma TrimmedBody(name: string, y: string) returns (rest: string)
    ensures Trim("\n" + (FUNCTION + (name + (">" + y)))) == FUNCTION + (name + (">" + rest)) && rest <= y
  {
    var head, body := FUNCTION + (name + ">"), "\n" + (FUNCTION + (name + (">" + y)));
    assert body[1..] == head + y && head[0] == '<';
    assert TrimStart(body) == head + y;
    TrimEndAfter(head, y);
    rest := Trim(body)[|head|..];
    assert Trim(body) == head + rest;
  }

  lemma ReadCallFails(body: string, name: string, rest: string, inRange: string -> bool)
    requires Trim(body) == FUNCTION + (name + (">" + rest)) && PlainName(name)
    requires var end := CutLast(rest, END_FUNCTION); end.Some? ==> ReadParameters(end.value.0, inRange, []) == None
    ensures ReadCall(body, inRange) == None
  {
    FunctionCuts(name, rest);
    TrimTrimmed(name);
    assert Trim(body)[0] == '<';
  }

  /** A body cut inside the parameter list. */
  lemma CutInParameters(call: Call, y: string, inRange: string -> bool)
    requires PlainCall(call, inRange) && y <= ParameterBody(call)
    ensures ReadCall("\n" + (FUNCTION + (call.name + (">" + y))), inRange) == None
  {
    var rest := TrimmedBody(call.name, y);
    var end := CutLast(rest, END_FUNCTION);
    if end.Some? {
      LastEnd(rest, end.value.0, y, ParameterBody(call));
      InsideFunction(call, 0, end.value.0, [], inRange);
    }
    ReadCallFails("\n" + (FUNCTION + (call.name + (">" + y))), call.name, rest, inRange);
  }

  lemma LastEnd(rest: string, s: string, y: string, body: string)
    requires rest <= y && y <= body && CutLast(rest, END_FUNCTION).Some? && CutLast(rest, END_FUNCTION).value.0 == s
    ensures s + END_FUNCTION <= body
  {
    assert OccursAt(rest, END_FUNCTION, |s|);
    assert rest[..|s| + |END_FUNCTION|] == s + rest[|s|..|s| + |END_FUNCTION|];
  }

  /** An end of call in the text is not in the closing markup of the function. */
  lemma CloseNotInEnd(body: string, tail: string, m: nat)
    requires m < |body| + |END_FUNCTION| + 1 && OccursAt((body + (END_FUNCTION + "\n")) + tail, CLOSE, m)
    ensures m <= |body|
  {
    OccursPointwise((body + (END_FUNCTION + "\n")) + tail, CLOSE, m, 0);
    if m > |body| {
      EndChars(body, tail, m);
    }
  }

  lemma EndChars(body: string, tail: string, m: nat)
    requires |body| < m < |body| + |END_FUNCTION| + 1
    ensures ((body + (END_FUNCTION + "\n")) + tail)[m] != '<'
  {
    assert forall k :: 1 <= k < 11 ==> END_FUNCTION[k] != '<';
    assert ((body + (END_FUNCTION + "\n")) + tail)[m] == (END_FUNCTION + "\n")[m - |body|];
  }

  /** A body cut at an end of call before its own is no call. */
  lemma CutBodyFails(call: Call, tail: string, n: nat, inRange: string -> bool)
    requires PlainCall(call, inRange) && n < |CallBody(call)| && OccursAt(CallBody(call) + (CLOSE + tail), CLOSE, n)
    ensures ReadCall(CallBody(call)[..n], inRange) == None
  {
    var head, more := "\n" + (FUNCTION + call.name), ParameterBody(call) + (END_FUNCTION + "\n");
    HeadThenMore(call.name, ParameterBody(call));
    if n <= |head| {
      FrontOf(head, ">", more, n);
      CutInHead(call.name, n, inRange);
    } else {
      OccursAfter(head + ">", more, CLOSE + tail, n);
      CutAfterName(call, tail, n - |head| - 1, n, inRange);
    }
  }

  lemma HeadThenMore(name: string, body: string)
    ensures "\n" + ((FUNCTION + (name + (">" + (body + END_FUNCTION)))) + "\n")
            == (("\n" + (FUNCTION + name)) + ">") + (body + (END_FUNCTION + "\n"))
  {
  }

  lemma FrontOf(a: string, b: string, c: string, n: nat)
    requires n <= |a|
    ensures ((a + b) + c)[..n] == a[..n]
  {
  }

  lemma CutAfterName(call: Call, tail: string, m: nat, n: nat, inRange: string -> bool)
    requires PlainCall(call, inRange) && n < |CallBody(call)| && n == |"\n" + (FUNCTION + call.name)| + 1 + m
    requires OccursAt((ParameterBody(call) + (END_FUNCTION + "\n")) + (CLOSE + tail), CLOSE, m)
    ensures ReadCall(CallBody(call)[..n], inRange) == None
  {
    CloseNotInEnd(ParameterBody(call), CLOSE + tail, m);
    CutText(call, m, n);
    CutInParameters(call, ParameterBody(call)[..m], inRange);
  }

  lemma CutInHead(name: string, n: nat, inRange: string -> bool)
    requires '>' !in name && n <= |"\n" + (FUNCTION + name)|
    ensures ReadCall(("\n" + (FUNCTION + name))[..n], inRange) == None
  {
    var head := "\n" + (FUNCTION + name);
    if n == 0 {
      CutInName(name, "", inRange);
      assert head[..0] == "";
    } else {
      assert head[..n] == "\n" + (FUNCTION + name)[..n - 1];
      CutInName(name, (FUNCTION + name)[..n - 1], inRange);
    }
  }

  lemma CutText(call: Call, m: nat, n: nat)
    requires m <= |ParameterBody(call)| && n == |"\n" + (FUNCTION + call.name)| + 1 + m
    ensures n <= |CallBody(call)| && CallBody(call)[..n] == "\n" + (FUNCTION + (call.name + (">" + ParameterBody(call)[..m])))
  {
    CutNested(call.name, ParameterBody(call), m);
  }

  lemma CutNested(name: string, body: string, m: nat)
    requires m <= |body|
    ensures "\n" + ((FUNCTION + (name + (">" + (body + END_FUNCTION)))) + "\n")
            == ("\n" + (FUNCTION + (name + (">" + body[..m])))) + (body[m..] + (END_FUNCTION + "\n"))
  {
    assert body == body[..m] + body[m..];
  }

  lemma OccursAfter(a: string, b: string, c: string, n: nat)
    requires |a| <= n && OccursAt((a + b) + c, CLOSE, n)
    ensures OccursAt(b + c, CLOSE, n - |a|)
  {
    assert (a + b) + c == a + (b + c);
    OccursInBack(a, b + c, CLOSE, n);
  }

  /** A closing name or key makes the next call malformed. */
  lemma ClosingBreaks(before: string, call: Call, tail: string, inRange: string -> bool)
    requires PlainCall(call, inRange) && Closing(call) && Avoids(before, OPEN)
    ensures ReadNextCall(before + CallTo(call, tail), inRange) == Some(None)
  {
    ClosingOccurs(call);
    var n := CutEarly(CallBody(call), tail);
    CutBodyFails(call, tail, n, inRange);
    MarkersAnchored();
    CutAt(before, OPEN, CallBody(call) + (CLOSE + tail));
  }

  // ------------------------------------------------------------------------- whole messages

  ghost predicate AllPlain(calls: seq<Call>, inRange: string -> bool) {
    forall k :: 0 <= k < |calls| ==> PlainCall(calls[k], inRange)
  }

  predicate NoneClosing(calls: seq<Call>) {
    forall k :: 0 <= k < |calls| ==> !Closing(calls[k])
  }

  lemma PlainUpTo(calls: seq<Call>, n: nat, inRange: string -> bool)
    requires n <= |calls| && AllPlain(calls, inRange) && forall k :: 0 <= k < n ==> !Closing(calls[k])
    ensures GoodUpTo(calls, n, inRange)
  {
    forall k | 0 <= k < n ensures GoodCall(calls[k], inRange) {
      GoodIsPlain(calls[k], inRange);
    }
  }

  lemma BrokenLink(calls: seq<Call>, i: nat, inRange: string -> bool)
    requires i < |calls| && AllPlain(calls, inRange) && Closing(calls[i])
    ensures ReadNextCall(Calls(calls, i), inRange) == Some(None)
  {
    var before := if i == 0 then "" else "\n";
    AvoidsByFirst(before, OPEN);
    ClosingBreaks(before, calls[i], Calls(calls, i + 1), inRange);
    CallsUnfold(calls, i);
  }

  lemma {:induction false} FirstClosing(calls: seq<Call>, n: nat) returns (i: nat)
    requires n <= |calls| && exists k :: 0 <= k < n && Closing(calls[k])
    ensures i < n && Closing(calls[i]) && forall k :: 0 <= k < i ==> !Closing(calls[k])
  {
    if k :| 0 <= k < n - 1 && Closing(calls[k]) {
      i := FirstClosing(calls, n - 1);
    } else {
      i := n - 1;
    }
  }

  /** Plain calls read back exactly when no name and no key ends in the closing markup without
      its bracket; otherwise the whole list is malformed. */
  lemma NamesDecide(calls: seq<Call>, inRange: string -> bool)
    requires AllPlain(calls, inRange)
    ensures ReadCalls(Calls(calls, 0), inRange) == if NoneClosing(calls) then Some(calls) else None
  {
    if NoneClosing(calls) {
      PlainUpTo(calls, |calls|, inRange);
      CallsReadBack(calls, inRange);
    } else {
      var i := FirstClosing(calls, |calls|);
      PlainUpTo(calls, i, inRange);
      BrokenLink(calls, i, inRange);
      ReadCallsUnfolds(Calls(calls, i), inRange);
      FrontReadsBack(calls, i, inRange);
    }
  }

  /** A rendered message with plain calls reads back exactly under the same condition. */
  lemma RoundTripExactly(reasoning: string, content: string, calls: seq<Call>, inRange: string -> bool)
    requires Trimmed(reasoning) && Avoids(reasoning, END_THINK) && Trimmed(content) && Avoids(content, OPEN)
    requires AllPlain(calls, inRange)
    ensures ReadAssistant(Render(reasoning, content, calls), true, inRange) == Parsed(NonEmpty(reasoning), NonEmpty(content), calls, false)
            <==> NoneClosing(calls)
  {
    if NoneClosing(calls) {
      PlainUpTo(calls, |calls|, inRange);
      RoundTrip(reasoning, content, calls, inRange);
    } else {
      NamesDecide(calls, inRange);
      BrokenMessage(reasoning, content, calls, inRange);
    }
  }

  lemma BrokenMessage(reasoning: string, content: string, calls: seq<Call>, inRange: string -> bool)
    requires Trimmed(reasoning) && Avoids(reasoning, END_THINK) && Trimmed(content) && Avoids(content, OPEN)
    requires calls != [] && ReadCalls(Calls(calls, 0), inRange) == None
    ensures ReadAssistant(Render(reasoning, content, calls), true, inRange).malformed
  {
    var gap := if content != "" then "\n\n" else "";
    MessageVisible(reasoning, content, calls, inRange);
    VisibleIs(content, calls, gap);
    ContentAvoids(content, gap);
    CallsStart(calls);
    BrokenVisible(NonEmpty(reasoning), content + gap, Calls(calls, 0), inRange);
  }

  lemma BrokenVisible(reasoning: Option<string>, prefix: string, text: string, inRange: string -> bool)
    requires Avoids(prefix, OPEN) && OPEN <= text && ReadCalls(text, inRange) == None
    ensures ReadVisible(reasoning, prefix + text, inRange).malformed
  {
    MarkersAnchored();
    assert text == OPEN + text[|OPEN|..];
    CutAt(prefix, OPEN, text[|OPEN|..]);
    assert (prefix + text)[|prefix|..] == text;
  }
}
