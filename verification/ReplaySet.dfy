/** The replay set of a larger window: the analysis puts every row into the bucket of its nearest
    excluded distance, and the replay collects the buckets up to the target window. */
module ReplaySet {
  import opened Options
  import opened RouteReplay
  import opened Sequences

  ghost predicate Listed(ids: seq<Id>, nearest: seq<Option<int>>, d: int, n: nat, id: Id)
    requires n <= |ids| == |nearest|
  {
    exists i :: 0 <= i < n && ids[i] == id && nearest[i] == Some(d)
  }

  /** Rows of the first `n` whose nearest excluded distance is `d`, in row order. */
  function Bucket(ids: seq<Id>, nearest: seq<Option<int>>, d: int, n: nat): (r: seq<Id>)
    requires n <= |ids| == |nearest|
    ensures forall id :: id in r <==> Listed(ids, nearest, d, n, id)
  {
    if n == 0 then []
    else
      var before := Bucket(ids, nearest, d, n - 1);
      if nearest[n - 1] == Some(d) then before + [ids[n - 1]] else before
  }

  /** `larger_window_entry` of `analyze`. */
  method BuildBuckets(ids: seq<Id>, nearest: seq<Option<int>>, active: int, analysis: int) returns (buckets: map<int, seq<Id>>)
    requires |ids| == |nearest| && active <= analysis
    requires forall i :: 0 <= i < |nearest| && nearest[i].Some? ==> active < nearest[i].value <= analysis
    ensures forall d :: d in buckets <==> active < d <= analysis
    ensures forall d :: active < d <= analysis ==> buckets[d] == Bucket(ids, nearest, d, |ids|)
  {
    buckets := map[];
    for d := active + 1 to analysis + 1
      invariant forall c :: c in buckets <==> active < c < d
      invariant forall c :: active < c < d ==> buckets[c] == []
    {
      buckets := buckets[d := []];
    }
    for i := 0 to |ids|
      invariant forall d :: d in buckets <==> active < d <= analysis
      invariant forall d :: active < d <= analysis ==> buckets[d] == Bucket(ids, nearest, d, i)
    {
      if nearest[i].Some? {
        var d := nearest[i].value;
        buckets := buckets[d := buckets[d] + [ids[i]]];
      }
    }
  }

  function Keep(order: seq<Id>, selected: set<Id>): (r: seq<Id>)
    ensures forall id :: id in r <==> id in order && id in selected
  {
    if |order| == 0 then []
    else
      var before, last := Keep(order[..|order| - 1], selected), order[|order| - 1];
      assert forall id :: id in order <==> id in order[..|order| - 1] || id == last;
      if last in selected then before + [last] else before
  }

  /** The selected rows keep their order: those of a list are those of its parts, one after the
      other. */
  lemma {:induction false} KeepInOrder(a: seq<Id>, b: seq<Id>, selected: set<Id>)
    ensures Keep(a + b, selected) == Keep(a, selected) + Keep(b, selected)
    decreases |b|
  {
    if |b| == 0 {
      assert a + b == a;
    } else {
      var n := |b| - 1;
      assert (a + b)[..|a| + n] == a + b[..n] && (a + b)[|a| + n] == b[n];
      KeepInOrder(a, b[..n], selected);
    }
  }

  /** A bucket lists its rows in row order: later rows only add to its end. */
  lemma {:induction false} BucketInOrder(ids: seq<Id>, nearest: seq<Option<int>>, d: int, m: nat, n: nat)
    requires m <= n <= |ids| == |nearest|
    ensures Bucket(ids, nearest, d, m) <= Bucket(ids, nearest, d, n)
    ensures |Bucket(ids, nearest, d, n)| <= |Bucket(ids, nearest, d, m)| + (n - m)
    decreases n
  {
    if m < n {
      BucketInOrder(ids, nearest, d, m, n - 1);
    }
  }

  /** All rows of the buckets after `active` and up to `d`. */
  ghost function Union(buckets: map<int, seq<Id>>, active: int, d: int): set<Id>
    decreases d - active
  {
    if d <= active then {} else Union(buckets, active, d - 1) + if d in buckets then Elements(buckets[d]) else {}
  }

  /** The bucket of `d` exists, lists no row twice and does not overlap those before it. */
  ghost predicate Fits(buckets: map<int, seq<Id>>, active: int, d: int) {
    d in buckets && |Elements(buckets[d])| == |buckets[d]| && Union(buckets, active, d - 1) !! Elements(buckets[d])
  }

  ghost predicate AllFit(buckets: map<int, seq<Id>>, active: int, target: int) {
    forall d :: active < d <= target ==> Fits(buckets, active, d)
  }

  method CollectBuckets(buckets: map<int, seq<Id>>, active: int, target: int) returns (r: Option<set<Id>>)
    requires active < target
    ensures r.Some? <==> AllFit(buckets, active, target)
    ensures r.Some? ==> r.value == Union(buckets, active, target)
  {
    var selected, d := {}, active;
    while d < target
      invariant active <= d <= target && AllFit(buckets, active, d) && selected == Union(buckets, active, d)
    {
      d := d + 1;
      if d !in buckets {
        assert !Fits(buckets, active, d);
        return None;
      }
      var bucket := Elements(buckets[d]);
      if |bucket| != |buckets[d]| || !(selected !! bucket) {
        assert !Fits(buckets, active, d);
        return None;
      }
      selected := selected + bucket;
    }
    r := Some(selected);
  }

  /** `expected_replay_ids` for a target beyond the active window: nothing when the buckets are
      inconsistent with each other or with the base results. */
  method ExpectedReplayIds(buckets: map<int, seq<Id>>, active: int, target: int, order: seq<Id>) returns (r: Option<seq<Id>>)
    requires active < target && Distinct(order)
    ensures r.Some? <==> AllFit(buckets, active, target) && Union(buckets, active, target) <= Elements(order)
    ensures r.Some? ==> r.value == Keep(order, Union(buckets, active, target))
  {
    var selected := CollectBuckets(buckets, active, target);
    if selected.None? {
      return None;
    }
    var ordered := Keep(order, selected.value);
    AllKept(order, selected.value);
    r := if |ordered| != |selected.value| then None else Some(ordered);
  }

  /** The length check of the replay order says that every selected row is a base row. */
  lemma {:induction false} AllKept(order: seq<Id>, selected: set<Id>)
    requires Distinct(order)
    ensures |Keep(order, selected)| <= |selected|
    ensures |Keep(order, selected)| == |selected| <==> forall id :: id in selected ==> id in order
  {
    if |order| == 0 {
      assert |selected| == 0 <==> selected == {};
    } else {
      var front, last := order[..|order| - 1], order[|order| - 1];
      AllKept(front, selected - {last});
      KeepWithout(front, selected, last);
      assert order == front + [last];
    }
  }

  lemma {:induction false} KeepWithout(order: seq<Id>, selected: set<Id>, id: Id)
    requires id !in order
    ensures Keep(order, selected - {id}) == Keep(order, selected)
  {
    if |order| > 0 {
      KeepWithout(order[..|order| - 1], selected, id);
    }
  }

  // ---------------------------------------------------------------- the two fit together

  lemma {:induction false} BucketDistinct(ids: seq<Id>, nearest: seq<Option<int>>, d: int, n: nat)
    requires n <= |ids| == |nearest| && Distinct(ids)
    ensures Distinct(Bucket(ids, nearest, d, n))
  {
    if n > 0 {
      var before := Bucket(ids, nearest, d, n - 1);
      BucketDistinct(ids, nearest, d, n - 1);
      assert ids[n - 1] !in before;
      assert forall i :: 0 <= i < |before| ==> before[i] in before;
    }
  }

  /** Rows whose nearest excluded distance is within `d`. */
  ghost predicate Reached(ids: seq<Id>, nearest: seq<Option<int>>, d: int, id: Id)
    requires |ids| == |nearest|
  {
    exists i :: 0 <= i < |ids| && ids[i] == id && InReplay(nearest[i], d)
  }

  lemma BucketAfter(ids: seq<Id>, nearest: seq<Option<int>>, d: int, id: Id)
    requires |ids| == |nearest| && Distinct(ids)
    ensures !(Reached(ids, nearest, d - 1, id) && id in Bucket(ids, nearest, d, |ids|))
    ensures Reached(ids, nearest, d, id) <==> Reached(ids, nearest, d - 1, id) || id in Bucket(ids, nearest, d, |ids|)
  {
    if Reached(ids, nearest, d, id) {
      var i :| 0 <= i < |ids| && ids[i] == id && InReplay(nearest[i], d);
      assert nearest[i].value <= d - 1 ==> InReplay(nearest[i], d - 1);
    }
  }

  /** The buckets hold what the analysis put there. */
  ghost predicate Built(ids: seq<Id>, nearest: seq<Option<int>>, active: int, d: int, buckets: map<int, seq<Id>>)
    requires |ids| == |nearest|
  {
    && (forall i :: 0 <= i < |nearest| && nearest[i].Some? ==> active < nearest[i].value)
    && forall c :: active < c <= d ==> c in buckets && buckets[c] == Bucket(ids, nearest, c, |ids|)
  }

  lemma {:induction false} UnionReached(ids: seq<Id>, nearest: seq<Option<int>>, active: int, d: int, buckets: map<int, seq<Id>>, id: Id)
    requires |ids| == |nearest| && Distinct(ids) && active <= d && Built(ids, nearest, active, d, buckets)
    ensures id in Union(buckets, active, d) <==> Reached(ids, nearest, d, id)
    decreases d - active
  {
    if d > active {
      UnionReached(ids, nearest, active, d - 1, buckets, id);
      BucketAfter(ids, nearest, d, id);
    }
  }

  lemma NotAgain(ids: seq<Id>, nearest: seq<Option<int>>, active: int, d: int, buckets: map<int, seq<Id>>, id: Id)
    requires |ids| == |nearest| && Distinct(ids) && active < d && Built(ids, nearest, active, d, buckets)
    requires id in Union(buckets, active, d - 1)
    ensures id !in buckets[d]
  {
    UnionReached(ids, nearest, active, d - 1, buckets, id);
    BucketAfter(ids, nearest, d, id);
  }

  lemma BuiltFits(ids: seq<Id>, nearest: seq<Option<int>>, active: int, d: int, buckets: map<int, seq<Id>>)
    requires |ids| == |nearest| && Distinct(ids) && active < d && Built(ids, nearest, active, d, buckets)
    ensures Fits(buckets, active, d)
  {
    BucketDistinct(ids, nearest, d, |ids|);
    DistinctElements(buckets[d]);
    forall id | id in Union(buckets, active, d - 1) ensures id !in buckets[d] {
      NotAgain(ids, nearest, active, d, buckets, id);
    }
  }

  lemma BuiltReplay(ids: seq<Id>, nearest: seq<Option<int>>, active: int, target: int, buckets: map<int, seq<Id>>)
    requires |ids| == |nearest| && Distinct(ids) && active < target && Built(ids, nearest, active, target, buckets)
    ensures AllFit(buckets, active, target) && Union(buckets, active, target) <= Elements(ids)
    ensures forall i :: 0 <= i < |ids| ==> (ids[i] in Union(buckets, active, target) <==> InReplay(nearest[i], target))
  {
    forall d | active < d <= target ensures Fits(buckets, active, d) {
      BuiltFits(ids, nearest, active, d, buckets);
    }
    forall id | id in Union(buckets, active, target) ensures id in ids {
      UnionReached(ids, nearest, active, target, buckets, id);
    }
    forall i | 0 <= i < |ids|
      ensures ids[i] in Union(buckets, active, target) <==> InReplay(nearest[i], target)
    {
      UnionReached(ids, nearest, active, target, buckets, ids[i]);
    }
  }

  /** Analysing distinct rows and collecting the buckets gives, in row order, exactly the rows
      that a larger window can change. */
  method ReplayRows(ids: seq<Id>, nearest: seq<Option<int>>, active: int, analysis: int, target: int) returns (r: seq<Id>)
    requires |ids| == |nearest| && Distinct(ids) && active < target <= analysis
    requires forall i :: 0 <= i < |nearest| && nearest[i].Some? ==> active < nearest[i].value <= analysis
    ensures forall i :: 0 <= i < |ids| ==> (ids[i] in r <==> InReplay(nearest[i], target))
    ensures exists selected :: r == Keep(ids, selected)
  {
    var buckets := BuildBuckets(ids, nearest, active, analysis);
    BuiltReplay(ids, nearest, active, target, buckets);
    var replay := ExpectedReplayIds(buckets, active, target, ids);
    r := replay.value;
  }
}
