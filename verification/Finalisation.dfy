/** Batch finalisation of generated tokens, and the streaming request around it. */
module Finalisation {
  import opened Options
  import opened Search
  import opened Utf8
  import opened TextStream
  import opened StreamAgreement

  // ------------------------------------------------------------ batch finalisation

  type Token = nat
  datatype Codec = Codec(decode: seq<Token> -> Option<Text>, isEos: Token -> bool)
  datatype Finish = Length | Stop
  datatype Finalized = Finalized(text: Text, tokens: seq<Token>, finish: Finish, stopReason: Option<Text>)

  /** Position of the first end-of-sequence token that is honoured, or the length. */
  ghost predicate IsDecodeCount(codec: Codec, tokens: seq<Token>, ignoreEos: bool, n: nat) {
    && n <= |tokens|
    && (forall i :: 0 <= i < n ==> !(!ignoreEos && codec.isEos(tokens[i])))
    && (n < |tokens| ==> !ignoreEos && codec.isEos(tokens[n]))
  }

  /** The number of tokens before the first honoured end of sequence, from token `i` on. */
  ghost function ShownFrom(codec: Codec, tokens: seq<Token>, ignoreEos: bool, i: nat): (n: nat)
    requires i <= |tokens| && forall k :: 0 <= k < i ==> !(!ignoreEos && codec.isEos(tokens[k]))
    ensures IsDecodeCount(codec, tokens, ignoreEos, n)
    decreases |tokens| - i
  {
    if i == |tokens| || (!ignoreEos && codec.isEos(tokens[i])) then i else ShownFrom(codec, tokens, ignoreEos, i + 1)
  }

  ghost function Shown(codec: Codec, tokens: seq<Token>, ignoreEos: bool): (n: nat)
    ensures IsDecodeCount(codec, tokens, ignoreEos, n)
  {
    ShownFrom(codec, tokens, ignoreEos, 0)
  }

  method DecodeCount(codec: Codec, tokens: seq<Token>, ignoreEos: bool) returns (n: nat)
    ensures IsDecodeCount(codec, tokens, ignoreEos, n)
  {
    if ignoreEos {
      return |tokens|;
    }
    n := 0;
    while n < |tokens| && !codec.isEos(tokens[n])
      invariant n <= |tokens| && forall i :: 0 <= i < n ==> !codec.isEos(tokens[i])
    {
      n := n + 1;
    }
  }

  predicate Contains(codec: Codec, tokens: seq<Token>, count: nat, stop: Text)
    requires count <= |tokens|
  {
    var text := codec.decode(tokens[..count]);
    text.Some? && FindFrom(text.value, stop, 0).Some?
  }

  /** `count` is the shortest non-empty token prefix whose decoding contains `stop`. */
  ghost predicate IsShortest(codec: Codec, tokens: seq<Token>, stop: Text, count: nat) {
    && 1 <= count <= |tokens| && Contains(codec, tokens, count, stop)
    && forall c :: 1 <= c < count ==> !Contains(codec, tokens, c, stop)
  }

  /** Some prefix tried before the stop shows up cannot be decoded. */
  ghost predicate Undecodable(codec: Codec, tokens: seq<Token>, stop: Text, n: nat) {
    exists c :: 1 <= c <= n <= |tokens| && codec.decode(tokens[..c]).None?
                && forall b :: 1 <= b < c ==> !Contains(codec, tokens, b, stop)
  }

  /** The search of `finalize_tokens` for the token prefix to report. */
  method ShortestPrefix(codec: Codec, tokens: seq<Token>, stop: Text, n: nat) returns (count: Option<nat>)
    requires 1 <= n <= |tokens| && Contains(codec, tokens, n, stop)
    ensures count.None? <==> Undecodable(codec, tokens, stop, n)
    ensures count.Some? ==> IsShortest(codec, tokens, stop, count.value) && count.value <= n
  {
    var c := 1;
    while true
      invariant 1 <= c <= n
      invariant forall b :: 1 <= b < c ==> codec.decode(tokens[..b]).Some? && !Contains(codec, tokens, b, stop)
      decreases n - c
    {
      if codec.decode(tokens[..c]).None? {
        return None;
      }
      if Contains(codec, tokens, c, stop) {
        return Some(c);
      }
      c := c + 1;
    }
  }

  method FinalizeTokens(codec: Codec, tokens: seq<Token>, stops: seq<Text>, ignoreEos: bool, requested: nat)
    returns (r: Option<Finalized>)
    ensures var n := Shown(codec, tokens, ignoreEos);
            var whole := codec.decode(tokens[..n]);
            if whole.None? then r.None?
            else
              var stop := EarliestStop(whole.value, stops);
              && (r.None? <==> stop.Some? && Undecodable(codec, tokens, stop.value.1, n))
              && (r.Some? ==>
                    && r.value.text == Batch(stops, whole.value)
                    && (stop.Some? && n > 0 ==> exists count: nat :: count <= n && r.value.tokens == tokens[..count]
                                                 && IsShortest(codec, tokens, stop.value.1, count))
                    && (stop.None? || n == 0 ==> r.value.tokens == tokens[..if n < |tokens| then n + 1 else n])
                    && r.value.stopReason == (if stop.Some? then Some(stop.value.1) else None)
                    && (r.value.finish.Length? <==> stop.None? && n == |tokens| >= requested))
  {
    var decodeCount := DecodeCount(codec, tokens, ignoreEos);
    DecodeCountUnique(codec, tokens, ignoreEos, decodeCount, Shown(codec, tokens, ignoreEos));
    var count, finish := |tokens|, if |tokens| >= requested then Length else Stop;
    if decodeCount < |tokens| {
      count, finish := decodeCount + 1, Stop;
    }
    var whole := codec.decode(tokens[..decodeCount]);
    if whole.None? {
      return None;
    }
    var text, stop, reason := whole.value, EarliestStop(whole.value, stops), None;
    if stop.Some? {
      text, finish, reason := text[..stop.value.0], Stop, Some(stop.value.1);
      if decodeCount > 0 {
        var found := ShortestPrefix(codec, tokens, stop.value.1, decodeCount);
        if found.None? {
          return None;
        }
        count := found.value;
      }
    }
    r := Some(Finalized(text, tokens[..count], finish, reason));
  }

  // -------------------------------------------------------------------- the driver

  /** The decodings shown to the stream: one for each decodable non-empty prefix of the
      first `n` tokens. */
  ghost function Observed(codec: Codec, tokens: seq<Token>, n: nat): seq<Text>
    requires n <= |tokens|
  {
    if n == 0 then []
    else
      var text := codec.decode(tokens[..n]);
      Observed(codec, tokens, n - 1) + (if text.Some? then [text.value] else [])
  }

  function Concat(deltas: seq<Text>): Text {
    if |deltas| == 0 then [] else Concat(deltas[..|deltas| - 1]) + deltas[|deltas| - 1]
  }

  /** The deltas sent so far are non-empty and add up to `emitted`. */
  ghost predicate Sent(deltas: seq<Text>, emitted: Text) {
    Concat(deltas) == emitted && forall i :: 0 <= i < |deltas| ==> deltas[i] != []
  }

  lemma SentPush(deltas: seq<Text>, emitted: Text, delta: Text)
    requires Sent(deltas, emitted) && delta != []
    ensures Sent(deltas + [delta], emitted + delta)
  {
    assert (deltas + [delta])[..|deltas|] == deltas;
  }

  /** What the stream looks like after the decodings of the first `n` tokens. */
  ghost function Fed(stops: seq<Text>, codec: Codec, tokens: seq<Token>, n: nat): Stream
    requires n <= |tokens|
  {
    Feed(stops, Observed(codec, tokens, n))
  }

  lemma FedNext(stops: seq<Text>, codec: Codec, tokens: seq<Token>, i: nat)
    requires i < |tokens|
    ensures var text := codec.decode(tokens[..i + 1]);
            Fed(stops, codec, tokens, i + 1)
            == if text.Some? then Step(stops, Fed(stops, codec, tokens, i), text.value, false) else Fed(stops, codec, tokens, i)
  {
    var text, before := codec.decode(tokens[..i + 1]), Observed(codec, tokens, i);
    if text.Some? {
      assert (before + [text.value])[..|before|] == before;
    } else {
      assert before + [] == before;
    }
  }

  /** Every decodable prefix of the first `n` tokens settles into their full decoding. */
  ghost predicate AllSettle(codec: Codec, tokens: seq<Token>, n: nat, stops: seq<Text>)
    requires n <= |tokens| && codec.decode(tokens[..n]).Some?
  {
    forall c :: 1 <= c <= n && codec.decode(tokens[..c]).Some? ==>
      Settles(stops, codec.decode(tokens[..c]).value, codec.decode(tokens[..n]).value)
  }

  lemma {:induction false} ObservedSettle(codec: Codec, tokens: seq<Token>, n: nat, stops: seq<Text>, final: Text)
    requires n <= |tokens|
    requires forall c :: 1 <= c <= n && codec.decode(tokens[..c]).Some? ==> Settles(stops, codec.decode(tokens[..c]).value, final)
    ensures SettleAll(stops, Observed(codec, tokens, n), final)
  {
    if n > 0 {
      ObservedSettle(codec, tokens, n - 1, stops, final);
    }
  }

  /** The streaming request: feed every generated token's decoding, then the finalised
      text. */
  method StreamTokens(codec: Codec, tokens: seq<Token>, stops: seq<Text>, ignoreEos: bool, requested: nat)
    returns (deltas: seq<Text>, counts: seq<nat>, r: Option<Finalized>)
    ensures SentInTime(codec, tokens, stops, Shown(codec, tokens, ignoreEos), deltas, counts)
    ensures var n := Shown(codec, tokens, ignoreEos);
            var whole := codec.decode(tokens[..n]);
            && (r.Some? ==> whole.Some? && r.value.text == Batch(stops, whole.value))
            && (r.Some? ==> Sent(deltas, Streamed(stops, Observed(codec, tokens, n), whole.value)))
            && (r.Some? && AllSettle(codec, tokens, n, stops) ==> Concat(deltas) == r.value.text)
  {
    ghost var n := Shown(codec, tokens, ignoreEos);
    var stream;
    stream, deltas, counts := StreamEvents(codec, tokens, stops, ignoreEos);
    r := FinalizeTokens(codec, tokens, stops, ignoreEos, requested);
    if r.Some? {
      ghost var events := deltas;
      deltas := Show(r.value.text, true, stream, deltas);
      SentBefore(codec, tokens, stops, n, events, deltas, counts);
      if AllSettle(codec, tokens, n, stops) {
        DriverAgrees(codec, tokens, n, stops);
      }
    }
  }

  lemma DecodeCountUnique(codec: Codec, tokens: seq<Token>, ignoreEos: bool, m: nat, n: nat)
    requires IsDecodeCount(codec, tokens, ignoreEos, m) && IsDecodeCount(codec, tokens, ignoreEos, n)
    ensures m == n
  {
  }

  /** The event loop: tokens after an honoured end of sequence are not shown. */
  method StreamEvents(codec: Codec, tokens: seq<Token>, stops: seq<Text>, ignoreEos: bool)
    returns (stream: TextStreamState, deltas: seq<Text>, counts: seq<nat>)
    ensures fresh(stream) && stream.stops == stops && Sent(deltas, stream.emitted)
    ensures SentInTime(codec, tokens, stops, Shown(codec, tokens, ignoreEos), deltas, counts)
    ensures stream.View() == Fed(stops, codec, tokens, Shown(codec, tokens, ignoreEos))
  {
    stream := new TextStreamState(stops);
    deltas, counts := [], [];
    var eos := false;
    ghost var shown := Shown(codec, tokens, ignoreEos);
    for i := 0 to |tokens|
      invariant fresh(stream) && Handled(stream, codec, tokens, stops, shown, i, eos) && Sent(deltas, stream.emitted)
      invariant |counts| == i && SentSoFar(codec, tokens, stops, shown, deltas, counts)
    {
      ghost var before := deltas;
      eos, deltas := NextEvent(codec, tokens, stops, ignoreEos, i, eos, stream, deltas);
      SentNow(codec, tokens, stops, shown, before, deltas, counts, stream.emitted);
      counts := counts + [|deltas|];
    }
  }

  /** The stream has been shown the first `i` tokens, up to the end of the sequence. */
  ghost predicate Handled(stream: TextStreamState, codec: Codec, tokens: seq<Token>, stops: seq<Text>, shown: nat, i: nat, eos: bool)
    reads stream
  {
    && shown <= |tokens| && i <= |tokens| && stream.stops == stops && (eos <==> i > shown)
    && stream.View() == Fed(stops, codec, tokens, if eos then shown else i)
  }

  /** One token event. */
  method NextEvent(codec: Codec, tokens: seq<Token>, ghost stops: seq<Text>, ignoreEos: bool, i: nat, eos: bool,
                   stream: TextStreamState, deltas: seq<Text>) returns (eos': bool, more: seq<Text>)
    requires i < |tokens| && Handled(stream, codec, tokens, stops, Shown(codec, tokens, ignoreEos), i, eos)
    requires Sent(deltas, stream.emitted)
    modifies stream
    ensures Handled(stream, codec, tokens, stops, Shown(codec, tokens, ignoreEos), i + 1, eos')
    ensures Sent(more, stream.emitted) && deltas <= more
  {
    eos', more := eos, deltas;
    if !ignoreEos && codec.isEos(tokens[i]) {
      eos' := true;
    } else if !eos {
      more := ShowNext(codec, tokens, i, stream, deltas);
    }
  }

  /** After each of the first tokens, what has been sent is what the stream has let through. */
  ghost predicate SentSoFar(codec: Codec, tokens: seq<Token>, stops: seq<Text>, shown: nat, deltas: seq<Text>, counts: seq<nat>) {
    && shown <= |tokens| && |counts| <= |tokens|
    && forall i :: 0 <= i < |counts| ==>
         counts[i] <= |deltas| && Concat(deltas[..counts[i]]) == Fed(stops, codec, tokens, if i < shown then i + 1 else shown).emitted
  }

  /** `counts[i]` deltas are sent by the time token `i` has been handled. */
  ghost predicate SentInTime(codec: Codec, tokens: seq<Token>, stops: seq<Text>, shown: nat, deltas: seq<Text>, counts: seq<nat>) {
    |counts| == |tokens| && SentSoFar(codec, tokens, stops, shown, deltas, counts)
  }

  lemma SentBefore(codec: Codec, tokens: seq<Token>, stops: seq<Text>, shown: nat, before: seq<Text>, deltas: seq<Text>, counts: seq<nat>)
    requires SentSoFar(codec, tokens, stops, shown, before, counts) && before <= deltas
    ensures SentSoFar(codec, tokens, stops, shown, deltas, counts)
  {
    forall i | 0 <= i < |counts| ensures counts[i] <= |deltas| && deltas[..counts[i]] == before[..counts[i]] {
    }
  }

  lemma SentNow(codec: Codec, tokens: seq<Token>, stops: seq<Text>, shown: nat, before: seq<Text>, deltas: seq<Text>,
                counts: seq<nat>, emitted: Text)
    requires SentSoFar(codec, tokens, stops, shown, before, counts) && before <= deltas && |counts| < |tokens| && Sent(deltas, emitted)
    requires emitted == Fed(stops, codec, tokens, if |counts| < shown then |counts| + 1 else shown).emitted
    ensures SentSoFar(codec, tokens, stops, shown, deltas, counts + [|deltas|])
  {
    SentBefore(codec, tokens, stops, shown, before, deltas, counts);
    assert deltas[..|deltas|] == deltas;
  }

  /** Send what one update of the stream lets through. */
  method Show(text: Text, final: bool, stream: TextStreamState, deltas: seq<Text>) returns (more: seq<Text>)
    requires Sent(deltas, stream.emitted)
    modifies stream
    ensures stream.View() == Step(stream.stops, old(stream.View()), text, final) && Sent(more, stream.emitted) && deltas <= more
  {
    ghost var emitted := stream.emitted;
    more := deltas;
    var delta := stream.Update(text, final);
    if delta.Some? {
      SentPush(deltas, emitted, delta.value);
      more := deltas + [delta.value];
    }
  }

  /** One pass of the event loop over a token that is not the end of the sequence. */
  method ShowNext(codec: Codec, tokens: seq<Token>, i: nat, stream: TextStreamState, deltas: seq<Text>)
    returns (more: seq<Text>)
    requires i < |tokens|
    requires stream.View() == Fed(stream.stops, codec, tokens, i) && Sent(deltas, stream.emitted)
    modifies stream
    ensures stream.View() == Fed(stream.stops, codec, tokens, i + 1) && Sent(more, stream.emitted) && deltas <= more
  {
    more := deltas;
    var text := codec.decode(tokens[..i + 1]);
    FedNext(stream.stops, codec, tokens, i);
    if text.Some? && !stream.stopped {
      more := Show(text.value, false, stream, deltas);
    }
  }

  lemma DriverAgrees(codec: Codec, tokens: seq<Token>, n: nat, stops: seq<Text>)
    requires n <= |tokens| && codec.decode(tokens[..n]).Some?
    requires AllSettle(codec, tokens, n, stops)
    ensures Streamed(stops, Observed(codec, tokens, n), codec.decode(tokens[..n]).value) == Batch(stops, codec.decode(tokens[..n]).value)
  {
    var final := codec.decode(tokens[..n]).value;
    ObservedSettle(codec, tokens, n, stops, final);
    StreamingAgrees(stops, Observed(codec, tokens, n), final);
  }
}
