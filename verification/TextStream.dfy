/** Stop sequences and the streaming of generated text in the server: what a batch result keeps,
    and the bytes that a stream holds back. Texts are byte sequences. */
module TextStream {
  import opened Options
  import opened Search
  import opened Utf8

  // ------------------------------------------------------------------ stop sequences

  /** `p` is where the first stop occurs in `text`. */
  ghost predicate IsEarliest(text: Text, stops: seq<Text>, p: nat) {
    && (exists s :: s in stops && OccursAt(text, s, p))
    && forall s, q :: s in stops && 0 <= q < p ==> !OccursAt(text, s, q)
  }

  ghost predicate NoStop(text: Text, stops: seq<Text>) {
    forall s, q: nat :: s in stops ==> !OccursAt(text, s, q)
  }

  /** `stops[i]` is the first stop of the list that occurs at `p`. */
  ghost predicate FirstInList(text: Text, stops: seq<Text>, p: nat, i: nat) {
    i < |stops| && OccursAt(text, stops[i], p) && forall j :: 0 <= j < i ==> !OccursAt(text, stops[j], p)
  }

  /** The reported stop is the first one in list order among those at the earliest position. */
  lemma {:induction false} TieBreak(text: Text, stops: seq<Text>) returns (i: nat)
    requires EarliestStop(text, stops).Some?
    ensures FirstInList(text, stops, EarliestStop(text, stops).value.0, i)
    ensures stops[i] == EarliestStop(text, stops).value.1
  {
    var n := |stops| - 1;
    var before, here := EarliestStop(text, stops[..n]), FindFrom(text, stops[n], 0);
    if before.Some? && (here.None? || before.value.0 <= here.value) {
      i := TieBreak(text, stops[..n]);
    } else {
      i := n;
      assert forall j :: 0 <= j < n ==> stops[j] in stops[..n];
    }
  }

  /** `earliest_stop`: the least position, and the first stop in list order found there. */
  function EarliestStop(text: Text, stops: seq<Text>): (r: Option<(nat, Text)>)
    ensures r.Some? ==> r.value.1 in stops && OccursAt(text, r.value.1, r.value.0) && IsEarliest(text, stops, r.value.0)
    ensures r.None? ==> NoStop(text, stops)
  {
    if |stops| == 0 then None
    else
      var n := |stops| - 1;
      var before, here := EarliestStop(text, stops[..n]), FindFrom(text, stops[n], 0);
      assert forall s :: s in stops <==> s in stops[..n] || s == stops[n];
      if here.None? then before
      else if before.Some? && before.value.0 <= here.value then before
      else Some((here.value, stops[n]))
  }

  /** The text up to the earliest stop. */
  function Batch(stops: seq<Text>, text: Text): Text {
    var r := EarliestStop(text, stops);
    if r.Some? then text[..r.value.0] else text
  }

  // ---------------------------------------------------------------- the stream state

  const REPLACEMENT: Text := [0xEF, 0xBF, 0xBD] // U+FFFD

  predicate EndsWithReplacement(text: Text) {
    |text| >= 3 && text[|text| - 3..] == REPLACEMENT
  }

  predicate IsCharBoundary(text: Text, i: nat)
    requires i <= |text|
  {
    i == 0 || i == |text| || !IsContinuation(text[i])
  }

  function MaxLength(stops: seq<Text>): (n: nat)
    ensures forall s :: s in stops ==> |s| <= n
    ensures n == 0 || exists s :: s in stops && |s| == n
  {
    if |stops| == 0 then 0
    else
      var m, s := MaxLength(stops[..|stops| - 1]), stops[|stops| - 1];
      assert forall t :: t in stops <==> t in stops[..|stops| - 1] || t == s;
      if m < |s| then |s| else m
  }

  /** Bytes held back while more text may follow. */
  function HoldBytes(stops: seq<Text>, text: Text): nat {
    var longest := if stops == [] then 1 else MaxLength(stops);
    var hold := if longest == 0 then 0 else longest - 1;
    if EndsWithReplacement(text) && hold < 3 then 3 else hold
  }

  function BoundaryAtMost(text: Text, i: nat): (r: nat)
    requires i <= |text|
    ensures r <= i && IsCharBoundary(text, r)
    ensures forall j :: r < j <= i ==> !IsCharBoundary(text, j)
  {
    if IsCharBoundary(text, i) then i else BoundaryAtMost(text, i - 1)
  }

  /** How much of a text may be emitted before it is final. */
  function HoldEnd(stops: seq<Text>, text: Text): (r: nat)
    ensures r <= |text|
  {
    var hold := HoldBytes(stops, text);
    BoundaryAtMost(text, if |text| < hold then 0 else |text| - hold)
  }

  datatype Stream = Stream(emitted: Text, stopped: bool)

  /** How much of `full` an update wants emitted. */
  function Target(stops: seq<Text>, full: Text, final: bool): (end: nat)
    ensures end <= |full|
  {
    var stop := EarliestStop(full, stops);
    if stop.Some? then stop.value.0 else if final then |full| else HoldEnd(stops, full)
  }

  /** The effect of `TextStreamState::update` on what has been emitted so far. */
  function Step(stops: seq<Text>, stream: Stream, full: Text, final: bool): Stream {
    if stream.stopped then stream
    else
      var target := full[..Target(stops, full, final)];
      Stream(if stream.emitted <= target then target else stream.emitted, EarliestStop(full, stops).Some?)
  }

  function Feed(stops: seq<Text>, texts: seq<Text>): Stream {
    if |texts| == 0 then Stream([], false)
    else Step(stops, Feed(stops, texts[..|texts| - 1]), texts[|texts| - 1], false)
  }

  /** All that a stream emits: the updates for the growing text, then the final update with
      the finalised text. */
  function Streamed(stops: seq<Text>, texts: seq<Text>, final: Text): Text {
    Step(stops, Feed(stops, texts), Batch(stops, final), true).emitted
  }

  // ------------------------------------------------------------------ what is let through

  /** Letting through `full[..end]` leaves out one byte less than the longest stop has, and a trailing
      U+FFFD. */
  ghost predicate LeavesEnough(stops: seq<Text>, full: Text, end: nat) {
    && end <= |full| && (forall s :: s in stops ==> |s| - 1 <= |full| - end)
    && (|full| >= 3 && full[|full| - 3..] == [0xEF, 0xBF, 0xBD] ==> 3 <= |full| - end)
  }

  ghost predicate StartsOrBoundary(full: Text, end: nat) {
    end == 0 || Boundary(full, end)
  }

  /** `end` is the greatest character boundary that leaves out enough, or 0 if there is none. */
  ghost predicate IsHeld(stops: seq<Text>, full: Text, end: nat) {
    && StartsOrBoundary(full, end) && end <= |full| && (end > 0 ==> LeavesEnough(stops, full, end))
    && forall b: nat :: end < b <= |full| && StartsOrBoundary(full, b) ==> !LeavesEnough(stops, full, b)
  }

  lemma HoldIsHeld(stops: seq<Text>, full: Text)
    ensures IsHeld(stops, full, HoldEnd(stops, full))
  {
    var end, hold := HoldEnd(stops, full), HoldBytes(stops, full);
    forall b: nat | end < b <= |full| && StartsOrBoundary(full, b) ensures !LeavesEnough(stops, full, b) {
      assert IsCharBoundary(full, b);
    }
  }

  /** With no stops and no trailing U+FFFD everything is let through. */
  lemma NothingHeld(full: Text, end: nat)
    requires IsHeld([], full, end) && !(|full| >= 3 && full[|full| - 3..] == [0xEF, 0xBF, 0xBD])
    ensures end == |full|
  {
    if end < |full| {
      assert StartsOrBoundary(full, |full|) && LeavesEnough([], full, |full|);
    }
  }

  /** What an update does to the emitted text: an open stream goes on to the earliest stop, or to
      the end of a final text, or else as far as may be let through, unless it has emitted
      something that is no prefix of that. */
  ghost predicate Proceeds(stops: seq<Text>, before: Stream, after: Stream, full: Text, final: bool) {
    if before.stopped then after == before
    else
      && (after.stopped <==> !NoStop(full, stops))
      && exists end: nat ::
           && end <= |full|
           && (if !NoStop(full, stops) then IsEarliest(full, stops, end) else if final then end == |full| else IsHeld(stops, full, end))
           && after.emitted == if before.emitted <= full[..end] then full[..end] else before.emitted
  }

  lemma StepProceeds(stops: seq<Text>, stream: Stream, full: Text, final: bool)
    ensures Proceeds(stops, stream, Step(stops, stream, full, final), full, final)
  {
    if !stream.stopped {
      HoldIsHeld(stops, full);
      var end := Target(stops, full, final);
      assert EarliestStop(full, stops).Some? <==> !NoStop(full, stops);
      assert if !NoStop(full, stops) then IsEarliest(full, stops, end) else if final then end == |full| else IsHeld(stops, full, end);
    }
  }

  // --------------------------------------------------------------- the stream object

  method TargetEnd(stops: seq<Text>, full: Text, finalUpdate: bool) returns (end: nat, found: bool)
    ensures end == Target(stops, full, finalUpdate) && (found <==> EarliestStop(full, stops).Some?)
  {
    end := |full|;
    var stop := EarliestStop(full, stops);
    found := stop.Some?;
    if stop.Some? {
      end := stop.value.0;
    } else if !finalUpdate {
      var hold := HoldBytes(stops, full);
      end := if end < hold then 0 else end - hold;
      ghost var start := end;
      while end > 0 && !IsCharBoundary(full, end)
        invariant end <= start <= |full|
        invariant BoundaryAtMost(full, start) == BoundaryAtMost(full, end)
      {
        end := end - 1;
      }
    }
  }

  class TextStreamState {
    var emitted: Text
    var stopped: bool
    const stops: seq<Text>

    constructor (stops: seq<Text>)
      ensures this.stops == stops && View() == Stream([], false)
    {
      emitted, stopped, this.stops := [], false, stops;
    }

    ghost function View(): Stream
      reads this
    {
      Stream(emitted, stopped)
    }

    method Update(full: Text, finalUpdate: bool) returns (delta: Option<Text>)
      modifies this
      ensures View() == Step(stops, old(View()), full, finalUpdate)
      ensures Proceeds(stops, old(View()), View(), full, finalUpdate)
      ensures delta.Some? ==> delta.value != [] && emitted == old(emitted) + delta.value
      ensures delta.None? ==> emitted == old(emitted)
    {
      StepProceeds(stops, View(), full, finalUpdate);
      if stopped {
        return None;
      }
      var end;
      end, stopped := TargetEnd(stops, full, finalUpdate);
      var target := full[..end];
      if !(emitted <= target) {
        return None;
      }
      var more := target[|emitted|..];
      emitted := emitted + more;
      delta := if more != [] then Some(more) else None;
    }
  }
}
