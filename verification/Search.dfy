/** Substring search. */
module Search {
  import opened Options

  predicate OccursAt<T(==)>(text: seq<T>, pattern: seq<T>, p: nat) {
    p + |pattern| <= |text| && text[p..p + |pattern|] == pattern
  }

  /** `str::find`: the first occurrence at or after `from`. */
  function FindFrom<T(==)>(text: seq<T>, pattern: seq<T>, from: nat): (r: Option<nat>)
    ensures r.Some? ==> from <= r.value && OccursAt(text, pattern, r.value)
                        && forall q :: from <= q < r.value ==> !OccursAt(text, pattern, q)
    ensures r.None? ==> forall q :: from <= q ==> !OccursAt(text, pattern, q)
    decreases |text| - from
  {
    if OccursAt(text, pattern, from) then Some(from)
    else if from >= |text| then None
    else FindFrom(text, pattern, from + 1)
  }

  /** `str::rfind`: the last occurrence at or before `to`. */
  function FindLast<T(==)>(text: seq<T>, pattern: seq<T>, to: nat): (r: Option<nat>)
    ensures r.Some? ==> r.value <= to && OccursAt(text, pattern, r.value)
                        && forall q :: r.value < q <= to ==> !OccursAt(text, pattern, q)
    ensures r.None? ==> forall q :: 0 <= q <= to ==> !OccursAt(text, pattern, q)
  {
    if OccursAt(text, pattern, to) then Some(to) else if to == 0 then None else FindLast(text, pattern, to - 1)
  }

  ghost predicate Avoids<T>(text: seq<T>, pattern: seq<T>) {
    forall q: nat :: !OccursAt(text, pattern, q)
  }

  /** What is before and after the first occurrence of `pattern`. */
  function Cut<T(==)>(text: seq<T>, pattern: seq<T>): (r: Option<(seq<T>, seq<T>)>)
    ensures r.Some? ==> |r.value.0| + |pattern| + |r.value.1| == |text|
  {
    var p := FindFrom(text, pattern, 0);
    if p.None? then None else Some((text[..p.value], text[p.value + |pattern|..]))
  }

  /** What is before and after the last occurrence of `pattern`. */
  function CutLast<T(==)>(text: seq<T>, pattern: seq<T>): (r: Option<(seq<T>, seq<T>)>)
    ensures r.Some? ==> |r.value.0| + |pattern| + |r.value.1| == |text|
  {
    var p := FindLast(text, pattern, |text|);
    if p.None? then None else Some((text[..p.value], text[p.value + |pattern|..]))
  }

  /** The first element of the pattern does not come again. */
  ghost predicate Anchored<T>(pattern: seq<T>) {
    |pattern| > 0 && forall i :: 1 <= i < |pattern| ==> pattern[i] != pattern[0]
  }

  lemma OccursPointwise<T>(text: seq<T>, pattern: seq<T>, p: nat, i: nat)
    requires OccursAt(text, pattern, p) && i < |pattern|
    ensures text[p + i] == pattern[i]
  {
    assert text[p..p + |pattern|][i] == text[p + i];
  }

  lemma OccursInFront<T>(a: seq<T>, b: seq<T>, pattern: seq<T>, q: nat)
    requires OccursAt(a + b, pattern, q) && q + |pattern| <= |a|
    ensures OccursAt(a, pattern, q)
  {
    assert (a + b)[q..q + |pattern|] == a[q..q + |pattern|];
  }

  lemma OccursInBack<T>(a: seq<T>, b: seq<T>, pattern: seq<T>, q: nat)
    requires OccursAt(a + b, pattern, q) && |a| <= q
    ensures OccursAt(b, pattern, q - |a|)
  {
    assert (a + b)[q..q + |pattern|] == b[q - |a|..q - |a| + |pattern|];
  }

  /** Cutting at an anchored pattern finds the one that was put after a text without it. */
  lemma CutAt<T>(a: seq<T>, pattern: seq<T>, b: seq<T>)
    requires Anchored(pattern) && Avoids(a, pattern)
    ensures Cut(a + (pattern + b), pattern) == Some((a, b))
  {
    var text := a + (pattern + b);
    assert text[|a|..|a| + |pattern|] == pattern;
    assert OccursAt(text, pattern, |a|);
    var p := FindFrom(text, pattern, 0).value;
    if p < |a| {
      if p + |pattern| <= |a| {
        OccursInFront(a, pattern + b, pattern, p);
      } else {
        OccursPointwise(text, pattern, p, |a| - p);
      }
    }
    assert text[..|a|] == a && text[|a| + |pattern|..] == b;
  }

  lemma CutLastAt<T>(a: seq<T>, pattern: seq<T>)
    requires |pattern| > 0
    ensures CutLast(a + pattern, pattern) == Some((a, []))
  {
    var text := a + pattern;
    assert text[|a|..|a| + |pattern|] == pattern;
    assert OccursAt(text, pattern, |a|);
    assert text[..|a|] == a && text[|a| + |pattern|..] == [];
  }

  /** Nothing occurs across the border when the second text starts with something that the
      pattern does not continue with. */
  lemma AvoidsJoin<T>(a: seq<T>, b: seq<T>, pattern: seq<T>)
    requires |pattern| > 0 && Avoids(a, pattern) && Avoids(b, pattern)
    requires |b| > 0 ==> forall i :: 1 <= i < |pattern| ==> pattern[i] != b[0]
    ensures Avoids(a + b, pattern)
  {
    forall q: nat ensures !OccursAt(a + b, pattern, q) {
      if OccursAt(a + b, pattern, q) {
        if q + |pattern| <= |a| {
          OccursInFront(a, b, pattern, q);
        } else if q >= |a| {
          OccursInBack(a, b, pattern, q);
        } else {
          OccursPointwise(a + b, pattern, q, |a| - q);
        }
      }
    }
  }

  /** Wherever the pattern could start in `a`, its second element does not follow. */
  ghost predicate Inert<T>(a: seq<T>, pattern: seq<T>)
    requires |pattern| > 1
  {
    forall k :: 0 <= k < |a| && a[k] == pattern[0] ==> k + 1 < |a| && a[k + 1] != pattern[1]
  }

  lemma InertJoin<T>(a: seq<T>, b: seq<T>, pattern: seq<T>)
    requires |pattern| > 1 && Inert(a, pattern) && Avoids(b, pattern)
    ensures Avoids(a + b, pattern)
  {
    forall q: nat ensures !OccursAt(a + b, pattern, q) {
      if OccursAt(a + b, pattern, q) {
        if q >= |a| {
          OccursInBack(a, b, pattern, q);
        } else {
          OccursPointwise(a + b, pattern, q, 0);
          OccursPointwise(a + b, pattern, q, 1);
        }
      }
    }
  }

  lemma AvoidsByFirst<T>(a: seq<T>, pattern: seq<T>)
    requires |pattern| > 0 && pattern[0] !in a
    ensures Avoids(a, pattern)
  {
    assert forall q: nat :: OccursAt(a, pattern, q) ==> a[q..q + |pattern|][0] in a;
  }
}
