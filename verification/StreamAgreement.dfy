/** When the text that is streamed adds up to the batch result: exactly for which stop sequences,
    if intermediate decodings are prefixes of the final one, and if they may also end in a
    U+FFFD that a later token turns into another character. */
module StreamAgreement {
  import opened Options
  import opened Search
  import opened Utf8
  import opened TextStream

  // ------------------------------------------------------- stops that break the agreement

  /** `t` lies in `u` after its first byte and before its last one. */
  ghost predicate StrictlyInside(t: Text, u: Text, k: nat) {
    1 <= k && k + |t| < |u| && OccursAt(u, t, k)
  }

  /** Some stop `u`, none of whose proper prefixes is a stop, has another stop strictly
      inside: a stream can stop inside `u` before `u` is complete. */
  ghost predicate Nested(stops: seq<Text>) {
    exists u, t, k :: IsNested(stops, u, t, k)
  }

  ghost predicate IsNested(stops: seq<Text>, u: Text, t: Text, k: nat) {
    && u in stops && t in stops && StrictlyInside(t, u, k)
    && forall v :: v in stops ==> !(v < u)
  }

  ghost predicate StartsWithStop(stops: seq<Text>, text: Text) {
    exists v :: v in stops && v <= text
  }

  /** `text` ends in U+FFFD and stands for a text that has another non-ASCII character there,
      or nothing yet. */
  ghost predicate Changes(text: Text, final: Text) {
    && EndsWithReplacement(text)
    && var n := |text| - 3;
       text[..n] <= final && (n < |final| ==> final[n] >= 0x80)
  }

  /** The stop `u` has a non-ASCII character other than U+FFFD at offset `k`. While that character
      still decodes to U+FFFD, the stream lets the beginning of `u` through: it finds another stop
      further on, or holds back too little to keep the first character of `u`. */
  ghost predicate Splits(stops: seq<Text>, u: Text, k: nat) {
    && u in stops && 1 <= k < |u| && u[k] >= 0xC0 && !(REPLACEMENT <= u[k..])
    && !StartsWithStop(stops, u[..k] + REPLACEMENT)
    && (!NoStop(u[..k] + REPLACEMENT, stops) || CharLength(u[0]) + MaxLength(stops) <= k + 4)
  }

  /** The stop `t` ends in U+FFFD and can be found in place of a text that has no stop there. */
  ghost predicate Swallows(stops: seq<Text>, t: Text) {
    && t in stops && EndsWithReplacement(t) && !StartsWithStop(stops, t[..|t| - 3])
    && (|t| > 3 || !AllCharsStop(stops))
  }

  /** Every non-ASCII character but U+FFFD is a stop. */
  ghost predicate AllCharsStop(stops: seq<Text>) {
    forall c :: IsChar(c) && c[0] >= 0x80 && c != REPLACEMENT ==> c in stops
  }

  ghost predicate Fragile(stops: seq<Text>) {
    Nested(stops) || (exists u, k :: Splits(stops, u, k)) || (exists t :: Swallows(stops, t))
  }

  ghost predicate AllUtf8(texts: seq<Text>) {
    forall i :: 0 <= i < |texts| ==> IsUtf8(texts[i])
  }

  ghost predicate Ascii(text: Text) {
    forall i :: 0 <= i < |text| ==> text[i] < 0x80
  }

  /** For ASCII stops only nesting matters. */
  lemma AsciiStops(stops: seq<Text>)
    requires forall s :: s in stops ==> Ascii(s)
    ensures Fragile(stops) <==> Nested(stops)
  {
    forall u, k ensures !Splits(stops, u, k) {
      assert u in stops ==> Ascii(u);
    }
    forall t | t in stops ensures !EndsWithReplacement(t) {
      assert Ascii(t) && (|t| >= 3 ==> t[|t| - 3..][0] == t[|t| - 3]);
    }
  }

  /** What an intermediate text may be, given what is known of the stops: a prefix of the final
      text, or one up to a trailing U+FFFD. */
  ghost predicate Settles(stops: seq<Text>, text: Text, final: Text) {
    || (!Nested(stops) && text <= final)
    || (!Fragile(stops) && AllUtf8(stops) && IsUtf8(text) && IsUtf8(final) && Changes(text, final))
  }

  ghost predicate SettleAll(stops: seq<Text>, texts: seq<Text>, final: Text) {
    forall i :: 0 <= i < |texts| ==> Settles(stops, texts[i], final)
  }

  // --------------------------------------------------------------------- prefix texts

  lemma StopInPrefix(text: Text, final: Text, n: nat, u: Text, q: nat)
    requires n <= |text| && n <= |final| && text[..n] == final[..n] && q + |u| <= n
    ensures OccursAt(final, u, q) <==> OccursAt(text, u, q)
  {
    assert text[q..q + |u|] == text[..n][q..q + |u|];
    assert final[q..q + |u|] == final[..n][q..q + |u|];
  }

  /** Among the stops at one position there is a shortest one. */
  lemma {:induction false} ShortestAt(stops: seq<Text>, text: Text, p: nat, u: Text) returns (w: Text)
    requires u in stops && OccursAt(text, u, p)
    ensures w in stops && OccursAt(text, w, p)
    ensures forall v :: v in stops ==> !(v < w)
    decreases |u|
  {
    if v :| v in stops && v < u {
      assert text[p..p + |v|] == text[p..p + |u|][..|v|];
      w := ShortestAt(stops, text, p, v);
    } else {
      w := u;
    }
  }

  lemma OccursInside(text: Text, u: Text, q: nat, t: Text, p: nat)
    requires OccursAt(text, u, q) && OccursAt(text, t, p) && q <= p && p + |t| <= q + |u|
    ensures OccursAt(u, t, p - q)
  {
    forall i | 0 <= i < |t| ensures u[p - q + i] == t[i] {
      assert text[q..q + |u|][p - q + i] == text[p + i] == text[p..p + |t|][i];
    }
  }

  /** A stop found in a prefix is the earliest stop of the final text. */
  lemma EarliestIsFinal(stops: seq<Text>, text: Text, final: Text, p: nat)
    requires !Nested(stops) && text <= final && IsEarliest(text, stops, p)
    ensures IsEarliest(final, stops, p) && p <= |text| && text[..p] == final[..p]
  {
    var t :| t in stops && OccursAt(text, t, p);
    StopInPrefix(text, final, |text|, t, p);
    forall s, q | s in stops && 0 <= q < p
      ensures !OccursAt(final, s, q)
    {
      if OccursAt(final, s, q) {
        var u := ShortestAt(stops, final, q, s);
        if q + |u| <= |text| {
          StopInPrefix(text, final, |text|, u, q);
        } else {
          OccursInside(final, u, q, t, p);
          assert IsNested(stops, u, t, p - q);
        }
      }
    }
  }

  /** What a stream emits before a stop is found stays before the final text's stop. */
  lemma HeldIsFinal(stops: seq<Text>, text: Text, final: Text)
    requires text <= final && NoStop(text, stops)
    ensures text[..HoldEnd(stops, text)] <= Batch(stops, final)
  {
    var e, r := HoldEnd(stops, text), EarliestStop(final, stops);
    if r.Some? && r.value.0 < e {
      var (q, u) := r.value;
      assert |u| <= MaxLength(stops);
      StopInPrefix(text, final, |text|, u, q);
    }
  }

  // --------------------------------------------- texts with a U+FFFD that is going to change

  /** Where the two texts part. */
  lemma PartingPoint(text: Text, final: Text)
    requires IsUtf8(text) && IsUtf8(final) && Changes(text, final)
    ensures var n := |text| - 3;
            && n <= |final| && text[..n] == final[..n] && IsUtf8(text[..n]) && IsUtf8(final[n..])
            && Boundary(text, n) && Boundary(final, n) && !Boundary(text, n + 1) && !Boundary(text, n + 2)
            && (n < |final| ==> final[n] >= 0xC0)
  {
    var n := |text| - 3;
    assert text[n] == text[n..][0] && text[n + 1] == text[n..][1] && text[n + 2] == text[n..][2];
    SplitAt(text, n);
    AfterPrefix(text[..n], final);
    if n < |final| {
      FirstByte(final[n..]);
    }
  }

  /** A stop in the intermediate text lies before the U+FFFD or ends with it. */
  lemma StopAtReplacement(text: Text, final: Text, t: Text, p: nat)
    requires IsUtf8(text) && IsUtf8(final) && Changes(text, final) && IsUtf8(t) && OccursAt(text, t, p)
    requires |t| > 0 && p + |t| > |text| - 3
    ensures p <= |text| - 3 && p + |t| == |text| && t == text[p..]
  {
    OccurrenceAligned(text, t, p);
    AtReplacement(text, t, p);
  }

  lemma AtReplacement(text: Text, t: Text, p: nat)
    requires EndsWithReplacement(text) && OccursAt(text, t, p) && |t| > 0 && p + |t| > |text| - 3
    requires Boundary(text, p) && Boundary(text, p + |t|)
    ensures p <= |text| - 3 && p + |t| == |text| && t == text[p..]
  {
    var n := |text| - 3;
    assert text[n + 1] == text[n..][1] && text[n + 2] == text[n..][2];
  }

  /** A stop of the final text that begins before the parting point and ends after it, when the
      stream would let its beginning through. */
  lemma StraddleSplits(stops: seq<Text>, text: Text, final: Text, u: Text, q: nat)
    requires IsUtf8(text) && IsUtf8(final) && Changes(text, final) && !(text <= final) && IsUtf8(u)
    requires u in stops && OccursAt(final, u, q) && q < |text| - 3 < q + |u|
    requires forall v :: v in stops ==> !OccursAt(text, v, q)
    requires !NoStop(text[q..], stops) || q < HoldEnd(stops, text)
    ensures Splits(stops, u, |text| - 3 - q)
  {
    ByteAfter(text, final);
    StraddleText(text, final, u, q, |text| - 3);
    NoStopStarts(stops, text, q);
    if NoStop(text[q..], stops) {
      HoldTooLittle(stops, text, u, q);
    }
    SplitsWhole(stops, u, |text| - 3 - q, text[q..]);
  }

  lemma SplitsWhole(stops: seq<Text>, u: Text, k: nat, rest: Text)
    requires u in stops && 1 <= k < |u| && u[k] >= 0xC0 && !(REPLACEMENT <= u[k..]) && u[..k] + REPLACEMENT == rest
    requires !StartsWithStop(stops, rest) && (!NoStop(rest, stops) || CharLength(u[0]) + MaxLength(stops) <= k + 4)
    ensures Splits(stops, u, k)
  {
  }

  lemma ByteAfter(text: Text, final: Text)
    requires IsUtf8(text) && IsUtf8(final) && Changes(text, final)
    ensures |text| - 3 <= |final| && text[..|text| - 3] == final[..|text| - 3]
    ensures |text| - 3 < |final| ==> final[|text| - 3] >= 0xC0
  {
    PartingPoint(text, final);
  }

  lemma NoStopStarts(stops: seq<Text>, text: Text, q: nat)
    requires q <= |text| && forall v :: v in stops ==> !OccursAt(text, v, q)
    ensures !StartsWithStop(stops, text[q..])
  {
    forall v | v in stops ensures !(v <= text[q..]) {
      StartsAt(text, q, v);
    }
  }

  lemma StraddleText(text: Text, final: Text, u: Text, q: nat, n: nat)
    requires EndsWithReplacement(text) && n == |text| - 3 && n <= |final| && text[..n] == final[..n] && !(text <= final)
    requires OccursAt(final, u, q) && q < n < q + |u|
    ensures u[n - q] == final[n] && u[..n - q] + REPLACEMENT == text[q..] && u[0] == text[q]
    ensures !(REPLACEMENT <= u[n - q..])
  {
    OccursPointwise(final, u, q, n - q);
    OccursPointwise(final, u, q, 0);
    assert text == text[..n] + REPLACEMENT;
    assert u[..n - q] == final[q..n] == final[..n][q..] == text[q..n];
    SameReplacement(text, final, n);
    assert u[n - q..] == final[n..][..q + |u| - n];
  }

  /** If the final text has a U+FFFD there too, nothing changes. */
  lemma SameReplacement(text: Text, final: Text, n: nat)
    requires EndsWithReplacement(text) && n == |text| - 3 && n <= |final| && text[..n] == final[..n]
    ensures REPLACEMENT <= final[n..] ==> text <= final
  {
    assert text == text[..n] + REPLACEMENT && final == final[..n] + final[n..];
  }

  lemma StartsAt(text: Text, q: nat, v: Text)
    requires q <= |text|
    ensures v <= text[q..] <==> OccursAt(text, v, q)
  {
    if |v| <= |text| - q {
      assert text[q..][..|v|] == text[q..q + |v|];
    }
  }

  lemma HoldTooLittle(stops: seq<Text>, text: Text, u: Text, q: nat)
    requires IsUtf8(text) && EndsWithReplacement(text) && IsUtf8(u) && u in stops && |u| > 0
    requires q < HoldEnd(stops, text) && u[0] == text[q]
    ensures CharLength(u[0]) + MaxLength(stops) <= |text| - 3 - q + 4
  {
    FirstByte(u);
    CharAt(text, q);
    HoldEndBounds(stops, text);
    assert Boundary(text, HoldEnd(stops, text));
  }

  /** No stop of the final text begins before one that the intermediate text has. */
  lemma NothingEarlier(stops: seq<Text>, text: Text, final: Text, p: nat, s: Text, q: nat)
    requires !Fragile(stops) && AllUtf8(stops) && IsUtf8(text) && IsUtf8(final) && Changes(text, final) && !(text <= final)
    requires IsEarliest(text, stops, p) && s in stops && q < p
    ensures !OccursAt(final, s, q)
  {
    var n := |text| - 3;
    var t :| t in stops && OccursAt(text, t, p);
    assert |t| == 0 ==> OccursAt(text, t, 0);
    assert IsUtf8(s);
    PartingPoint(text, final);
    if OccursAt(final, s, q) {
      if q + |s| <= n {
        StopInPrefix(text, final, n, s, q);
      } else {
        StopBegins(stops, text, final, t, p);
        assert OccursAt(text[q..], t, p - q) by { assert text[q..][p - q..p - q + |t|] == text[p..p + |t|]; }
        StraddleSplits(stops, text, final, s, q);
      }
    }
  }

  /** A stop of the intermediate text begins no later than the U+FFFD, unless it is empty. */
  lemma StopBegins(stops: seq<Text>, text: Text, final: Text, t: Text, p: nat)
    requires AllUtf8(stops) && IsUtf8(text) && IsUtf8(final) && Changes(text, final)
    requires t in stops && OccursAt(text, t, p)
    ensures p <= |text| - 3 || |t| == 0
  {
    assert IsUtf8(t);
    if |t| > 0 && p + |t| > |text| - 3 {
      StopAtReplacement(text, final, t, p);
    }
  }

  /** Where the intermediate text has its earliest stop, the final text is cut too. */
  lemma StopCarriesOver(stops: seq<Text>, text: Text, final: Text, p: nat)
    requires !Fragile(stops) && AllUtf8(stops) && IsUtf8(text) && IsUtf8(final) && Changes(text, final) && !(text <= final)
    requires IsEarliest(text, stops, p)
    ensures p <= |final| && text[..p] == final[..p]
    ensures (exists s :: s in stops && OccursAt(final, s, p)) || p == |final|
  {
    var n := |text| - 3;
    var t :| t in stops && OccursAt(text, t, p);
    assert IsUtf8(t);
    assert |t| == 0 ==> OccursAt(text, t, 0);
    ChangesAfter(text, final);
    if p + |t| > n {
      StopAtReplacement(text, final, t, p);
    }
    assert text[..p] == text[..n][..p] && final[..p] == final[..n][..p];
    if p + |t| <= n {
      StopInPrefix(text, final, n, t, p);
    } else if StartsWithStop(stops, text[p..n]) {
      var v :| v in stops && v <= text[p..n];
      assert OccursAt(text, v, p) by { assert text[p..p + |v|] == text[p..n][..|v|]; }
      StopInPrefix(text, final, n, v, p);
    } else {
      SwallowedStop(stops, text, final, t, p);
    }
  }

  /** A stop that ends with the U+FFFD and does not swallow is the U+FFFD itself. */
  lemma SwallowedStop(stops: seq<Text>, text: Text, final: Text, t: Text, p: nat)
    requires IsUtf8(text) && IsUtf8(final) && Changes(text, final) && !(text <= final)
    requires t in stops && !Swallows(stops, t) && p <= |text| - 3 && t == text[p..] && !StartsWithStop(stops, text[p..|text| - 3])
    ensures (exists s :: s in stops && OccursAt(final, s, p)) || p == |final|
  {
    var n := |text| - 3;
    assert t[|t| - 3..] == text[n..] && t[..|t| - 3] == text[p..n];
    ChangesAfter(text, final);
    if n < |final| {
      var end := CharAfter(text, final);
      NextChar(stops, text, final, n, end);
    }
  }

  lemma CharAfter(text: Text, final: Text) returns (end: nat)
    requires IsUtf8(text) && IsUtf8(final) && Changes(text, final) && |text| - 3 < |final|
    ensures |text| - 3 < end <= |final| && IsChar(final[|text| - 3..end])
  {
    PartingPoint(text, final);
    CharAt(final, |text| - 3);
    end := |text| - 3 + CharLength(final[|text| - 3]);
  }

  lemma NextChar(stops: seq<Text>, text: Text, final: Text, n: nat, end: nat)
    requires EndsWithReplacement(text) && n == |text| - 3 < end <= |final| && text[..n] == final[..n] && !(text <= final)
    requires IsChar(final[n..end]) && final[n] >= 0x80
    requires AllCharsStop(stops)
    ensures exists s :: s in stops && OccursAt(final, s, n)
  {
    var c := final[n..end];
    SameReplacement(text, final, n);
    assert c <= final[n..] && OccursAt(final, c, n);
  }

  /** A text with a U+FFFD that changes keeps the stream on the way to the batch result. */
  lemma ChangedIsFinal(stops: seq<Text>, text: Text, final: Text)
    requires !Fragile(stops) && AllUtf8(stops) && IsUtf8(text) && IsUtf8(final) && Changes(text, final) && !(text <= final)
    ensures var r := EarliestStop(text, stops);
            if r.Some? then Batch(stops, final) == text[..r.value.0] else text[..HoldEnd(stops, text)] <= Batch(stops, final)
  {
    var r := EarliestStop(text, stops);
    if r.Some? {
      var p := r.value.0;
      StopCarriesOver(stops, text, final, p);
      forall s, q | s in stops && 0 <= q < p ensures !OccursAt(final, s, q) {
        NothingEarlier(stops, text, final, p, s, q);
      }
      CutThere(stops, final, p);
    } else {
      HeldBeforeChange(stops, text, final);
    }
  }

  lemma CutThere(stops: seq<Text>, final: Text, p: nat)
    requires p <= |final| && forall s, q :: s in stops && 0 <= q < p ==> !OccursAt(final, s, q)
    requires (exists s :: s in stops && OccursAt(final, s, p)) || p == |final|
    ensures Batch(stops, final) == final[..p]
  {
    var r := EarliestStop(final, stops);
    if r.Some? {
      assert r.value.0 >= p;
      assert OccursAt(final, r.value.1, r.value.0);
    }
  }

  lemma HeldBeforeChange(stops: seq<Text>, text: Text, final: Text)
    requires !Fragile(stops) && AllUtf8(stops) && IsUtf8(text) && IsUtf8(final) && Changes(text, final) && !(text <= final)
    requires NoStop(text, stops)
    ensures text[..HoldEnd(stops, text)] <= Batch(stops, final)
  {
    var r := EarliestStop(final, stops);
    if r.Some? && r.value.0 < HoldEnd(stops, text) {
      HeldSplits(stops, text, final, r.value.1, r.value.0);
    }
    HeldIsBefore(stops, text, final);
  }

  lemma HeldIsBefore(stops: seq<Text>, text: Text, final: Text)
    requires Changes(text, final)
    requires EarliestStop(final, stops).Some? ==> HoldEnd(stops, text) <= EarliestStop(final, stops).value.0
    ensures text[..HoldEnd(stops, text)] <= Batch(stops, final)
  {
    HoldEndBounds(stops, text);
    ChangesAfter(text, final);
    PrefixOfBatch(stops, text, final, HoldEnd(stops, text), |text| - 3);
  }

  /** A stop of the final text before what is held back would be split. */
  lemma HeldSplits(stops: seq<Text>, text: Text, final: Text, u: Text, q: nat)
    requires AllUtf8(stops) && IsUtf8(text) && IsUtf8(final) && Changes(text, final) && !(text <= final)
    requires NoStop(text, stops) && u in stops && OccursAt(final, u, q) && q < HoldEnd(stops, text)
    ensures Fragile(stops)
  {
    assert IsUtf8(u);
    HoldEndBounds(stops, text);
    PastParting(stops, text, final, u, q);
    StraddleSplits(stops, text, final, u, q);
  }

  lemma PastParting(stops: seq<Text>, text: Text, final: Text, u: Text, q: nat)
    requires Changes(text, final) && NoStop(text, stops) && u in stops && OccursAt(final, u, q)
    ensures q + |u| > |text| - 3
  {
    ChangesAfter(text, final);
    if q + |u| <= |text| - 3 {
      StopInPrefix(text, final, |text| - 3, u, q);
    }
  }

  lemma ChangesAfter(text: Text, final: Text)
    requires Changes(text, final)
    ensures |text| - 3 <= |final| && text[..|text| - 3] == final[..|text| - 3]
  {
  }

  lemma HoldEndBounds(stops: seq<Text>, text: Text)
    requires EndsWithReplacement(text)
    ensures HoldEnd(stops, text) <= |text| - 3 && IsCharBoundary(text, HoldEnd(stops, text))
    ensures HoldEnd(stops, text) > 0 ==> HoldEnd(stops, text) + MaxLength(stops) <= |text| + 1
  {
  }

  lemma PrefixOfBatch(stops: seq<Text>, text: Text, final: Text, e: nat, n: nat)
    requires e <= n <= |text| && n <= |final| && text[..n] == final[..n]
    requires EarliestStop(final, stops).Some? ==> e <= EarliestStop(final, stops).value.0
    ensures text[..e] <= Batch(stops, final)
  {
    assert text[..e] == text[..n][..e] && final[..e] == final[..n][..e];
  }

  // ------------------------------------------------------------------ streaming agrees

  /** What has been emitted is a prefix of the batch result, and all of it once stopped. */
  ghost predicate OnTrack(stops: seq<Text>, stream: Stream, final: Text) {
    stream.emitted <= Batch(stops, final) && (stream.stopped ==> stream.emitted == Batch(stops, final))
  }

  /** One update keeps what is emitted a prefix of the batch result, and reaches all of it
      when it stops. */
  lemma StepIsFinal(stops: seq<Text>, stream: Stream, text: Text, final: Text)
    requires Settles(stops, text, final) && OnTrack(stops, stream, final)
    ensures OnTrack(stops, Step(stops, stream, text, false), final)
  {
    var stop := EarliestStop(text, stops);
    if !(text <= final) {
      ChangedIsFinal(stops, text, final);
    } else if stop.Some? {
      EarliestIsFinal(stops, text, final, stop.value.0);
      assert Batch(stops, final) == final[..stop.value.0];
    } else {
      HeldIsFinal(stops, text, final);
    }
  }

  /** The state of a stream fed with settling texts. */
  lemma {:induction false} FeedIsFinal(stops: seq<Text>, texts: seq<Text>, final: Text)
    requires SettleAll(stops, texts, final)
    ensures OnTrack(stops, Feed(stops, texts), final)
  {
    if |texts| > 0 {
      var before, text := texts[..|texts| - 1], texts[|texts| - 1];
      FeedIsFinal(stops, before, final);
      StepIsFinal(stops, Feed(stops, before), text, final);
    }
  }

  /** Cutting a text at its earliest stop leaves no stop but possibly an empty one. */
  lemma BatchAgain(stops: seq<Text>, text: Text)
    ensures Batch(stops, Batch(stops, text)) == Batch(stops, text)
  {
    var cut := Batch(stops, text);
    var r := EarliestStop(cut, stops);
    if r.Some? {
      OccursInLonger(cut, text, r.value.1, r.value.0);
    }
  }

  lemma OccursInLonger(cut: Text, text: Text, s: Text, q: nat)
    requires cut <= text && OccursAt(cut, s, q)
    ensures OccursAt(text, s, q)
  {
    assert text[q..q + |s|] == cut[q..q + |s|];
  }

  /** Streaming settling texts emits exactly the batch result. */
  lemma StreamingAgrees(stops: seq<Text>, texts: seq<Text>, final: Text)
    requires SettleAll(stops, texts, final)
    ensures Streamed(stops, texts, final) == Batch(stops, final)
  {
    FeedIsFinal(stops, texts, final);
    BatchAgain(stops, final);
  }

  /** A history in which each text is a prefix of all later ones. */
  ghost predicate PrefixMonotone(texts: seq<Text>, final: Text) {
    && (forall i :: 0 <= i < |texts| ==> texts[i] <= final)
    && (forall i, j :: 0 <= i < j < |texts| ==> texts[i] <= texts[j])
  }

  /** With nested stops, the text up to the end of the inner stop, followed by the outer
      stop, streams a non-empty text although the batch result is empty. */
  lemma NestedDisagrees(stops: seq<Text>, u: Text, t: Text, k: nat)
    requires IsNested(stops, u, t, k)
    ensures PrefixMonotone([u[..k + |t|], u], u)
    ensures Streamed(stops, [u[..k + |t|], u], u) != Batch(stops, u)
  {
    var first, texts := u[..k + |t|], [u[..k + |t|], u];
    assert OccursAt(u, u, 0);
    var r := EarliestStop(first, stops);
    assert OccursAt(first, t, k) by { assert first[k..k + |t|] == u[k..k + |t|]; }
    assert r.Some?;
    assert texts[..1] == [first] && [first][..0] == [];
    assert Feed(stops, [first]) == Stream(first[..r.value.0], true);
    assert Feed(stops, texts) == Feed(stops, [first]);
  }

  /** The stop lists for which every prefix-monotone history streams the batch result are
      exactly those that are not nested. */
  lemma ExactCondition(stops: seq<Text>)
    ensures (forall texts, final :: PrefixMonotone(texts, final) ==> Streamed(stops, texts, final) == Batch(stops, final))
            <==> !Nested(stops)
  {
    if Nested(stops) {
      var u, t, k :| IsNested(stops, u, t, k);
      NestedDisagrees(stops, u, t, k);
    } else {
      forall texts, final | PrefixMonotone(texts, final)
        ensures Streamed(stops, texts, final) == Batch(stops, final)
      {
        StreamingAgrees(stops, texts, final);
      }
    }
  }

  // ------------------------------------------- the exact condition for changing decodings

  /** All texts are well formed, and each is a prefix of the final one up to a trailing U+FFFD
      that changes. */
  ghost predicate PrefixUpToChange(texts: seq<Text>, final: Text) {
    && IsUtf8(final) && AllUtf8(texts)
    && forall i :: 0 <= i < |texts| ==> texts[i] <= final || Changes(texts[i], final)
  }

  lemma FeedOne(stops: seq<Text>, text: Text)
    ensures Feed(stops, [text]) == Step(stops, Stream([], false), text, false)
  {
    assert [text][..0] == [];
  }

  /** A stop that splits streams its beginning although the batch result is empty. */
  lemma SplitDisagrees(stops: seq<Text>, u: Text, k: nat)
    requires AllUtf8(stops) && Splits(stops, u, k)
    ensures PrefixUpToChange([u[..k] + REPLACEMENT], u)
    ensures Streamed(stops, [u[..k] + REPLACEMENT], u) != Batch(stops, u)
  {
    var text := u[..k] + REPLACEMENT;
    assert IsUtf8(u);
    SplitText(u, k);
    SomethingEmitted(stops, u, k, text);
    EmitsTooMuch(stops, u, text);
  }

  lemma SplitText(u: Text, k: nat)
    requires IsUtf8(u) && k < |u| && u[k] >= 0xC0
    ensures var text := u[..k] + REPLACEMENT;
            IsUtf8(text) && EndsWithReplacement(text) && PrefixUpToChange([text], u)
  {
    var text := u[..k] + REPLACEMENT;
    SplitAt(u, k);
    ReplacementIsChar();
    Join(u[..k], REPLACEMENT);
    assert text[|text| - 3..] == REPLACEMENT && text[..k] == u[..k];
  }

  lemma EmitsTooMuch(stops: seq<Text>, u: Text, text: Text)
    requires u in stops && Target(stops, text, false) > 0
    ensures Streamed(stops, [text], u) != Batch(stops, u)
  {
    FeedOne(stops, text);
    WholeStop(stops, u);
  }

  lemma ReplacementIsChar()
    ensures IsChar(REPLACEMENT) && IsUtf8(REPLACEMENT)
  {
    CharIsUtf8(REPLACEMENT);
  }

  /** A text that starts with a stop is cut to nothing. */
  lemma WholeStop(stops: seq<Text>, u: Text)
    requires StartsWithStop(stops, u) || u in stops
    ensures Batch(stops, u) == []
  {
    if u in stops {
      assert OccursAt(u, u, 0);
    } else {
      var v :| v in stops && v <= u;
      assert OccursAt(u, v, 0);
    }
  }

  /** A text that does not start with a stop is not cut to nothing. */
  lemma NoWholeStop(stops: seq<Text>, text: Text)
    requires !StartsWithStop(stops, text) && |text| > 0
    ensures Batch(stops, text) != []
    ensures var r := EarliestStop(text, stops); r.Some? ==> r.value.0 > 0
  {
    var r := EarliestStop(text, stops);
    if r.Some? {
      assert text[r.value.0..r.value.0 + |r.value.1|] == r.value.1;
    }
  }

  lemma SomethingEmitted(stops: seq<Text>, u: Text, k: nat, text: Text)
    requires Splits(stops, u, k) && IsUtf8(u) && text == u[..k] + REPLACEMENT && IsUtf8(text) && EndsWithReplacement(text)
    ensures Target(stops, text, false) > 0
  {
    NoWholeStop(stops, text);
    if EarliestStop(text, stops).None? {
      var m := CharLength(u[0]);
      CharAt(text, 0);
      assert text[0] == u[0];
      FirstCharEnds(u);
      assert u[k] >= 0xC0 && Boundary(u, k) && m <= k;
      assert Boundary(text, m) && IsCharBoundary(text, m);
    }
  }

  /** A stop that swallows ends the stream although the batch result is not empty. */
  lemma SwallowDisagrees(stops: seq<Text>, t: Text) returns (final: Text)
    requires AllUtf8(stops) && Swallows(stops, t)
    ensures PrefixUpToChange([t], final) && Streamed(stops, [t], final) != Batch(stops, final)
  {
    var n := |t| - 3;
    assert IsUtf8(t);
    if n > 0 {
      assert t[n] == t[n..][0];
      SplitAt(t, n);
      final := t[..n];
    } else {
      final :| IsChar(final) && final[0] >= 0x80 && final != REPLACEMENT && final !in stops;
      CharIsUtf8(final);
      assert t[..n] == [];
      CharNotSplit(stops, final);
    }
    StreamsNothing(stops, t, final);
    NoWholeStop(stops, final);
  }

  lemma StreamsNothing(stops: seq<Text>, t: Text, final: Text)
    requires t in stops
    ensures Streamed(stops, [t], final) == []
  {
    assert OccursAt(t, t, 0);
    FeedOne(stops, t);
    assert EarliestStop(t, stops).Some? && EarliestStop(t, stops).value.0 == 0;
    assert Target(stops, t, false) == 0 && t[..0] == [];
  }

  lemma CharNotSplit(stops: seq<Text>, c: Text)
    requires AllUtf8(stops) && IsChar(c) && c !in stops && !StartsWithStop(stops, [])
    ensures !StartsWithStop(stops, c)
  {
    forall v | v in stops && v <= c ensures |v| == 0 || v == c {
      assert IsUtf8(v);
      CharPrefix(v, c);
    }
    assert forall v :: v in stops && |v| == 0 ==> v <= [];
  }

  lemma CharPrefix(v: Text, c: Text)
    requires IsUtf8(v) && IsChar(c) && v <= c
    ensures |v| == 0 || v == c
  {
    CharIsUtf8(c);
    FirstCharEnds(c);
    AfterPrefix(v, c);
  }

  /** The inner stop of a nested pair of well-formed stops ends at a boundary. */
  lemma NestedWellFormed(stops: seq<Text>, u: Text, t: Text, k: nat)
    requires AllUtf8(stops) && IsNested(stops, u, t, k)
    ensures PrefixUpToChange([u[..k + |t|], u], u)
  {
    assert IsUtf8(u) && IsUtf8(t) && !(t < u);
    if |t| > 0 {
      OccurrenceAligned(u, t, k);
      SplitAt(u, k + |t|);
    }
  }

  /** The lists of well-formed stops for which all well-formed histories, up to a trailing U+FFFD
      that changes, stream the batch result are exactly those that are not fragile. */
  lemma ChangingCondition(stops: seq<Text>)
    requires AllUtf8(stops)
    ensures (forall texts, final :: PrefixUpToChange(texts, final) ==> Streamed(stops, texts, final) == Batch(stops, final))
            <==> !Fragile(stops)
  {
    if Nested(stops) {
      var u, t, k :| IsNested(stops, u, t, k);
      NestedWellFormed(stops, u, t, k);
      NestedDisagrees(stops, u, t, k);
    } else if u, k :| Splits(stops, u, k) {
      SplitDisagrees(stops, u, k);
    } else if t :| Swallows(stops, t) {
      var final := SwallowDisagrees(stops, t);
    } else {
      forall texts, final | PrefixUpToChange(texts, final)
        ensures Streamed(stops, texts, final) == Batch(stops, final)
      {
        assert AllUtf8(texts) && SettleAll(stops, texts, final);
        StreamingAgrees(stops, texts, final);
      }
    }
  }
}
