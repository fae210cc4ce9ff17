/** Replaying only the rows that another window can change: the replay set of a larger window,
    the rows that cannot become correct, and the bounds of the final score. */
module RouteReplay {
  import opened Options
  import opened LetterRun
  import opened WindowSteps
  import opened InverseWindow

  type Id = nat

  // -------------------------------------------------------------------- the replay set

  /** Distances of all candidates of all steps. */
  function AllDistances(steps: seq<Step>): (r: seq<int>)
    requires forall i :: 0 <= i < |steps| ==> Parsed(steps[i])
    ensures forall i, k :: 0 <= i < |steps| && 0 <= k < |steps[i].ids| ==> RawDistances(steps[i])[k] in r
  {
    if |steps| == 0 then []
    else
      var n := |steps| - 1;
      assert forall i :: 0 <= i < n ==> steps[..n][i] == steps[i];
      AllDistances(steps[..n]) + RawDistances(steps[n])
  }

  /** Every listed distance is that of some candidate. */
  lemma {:induction false} DistanceListed(steps: seq<Step>, d: int) returns (i: nat, k: nat)
    requires (forall j :: 0 <= j < |steps| ==> Parsed(steps[j])) && d in AllDistances(steps)
    ensures i < |steps| && k < |steps[i].ids| && RawDistances(steps[i])[k] == d
  {
    var n := |steps| - 1;
    if d in AllDistances(steps[..n]) {
      i, k := DistanceListed(steps[..n], d);
    } else {
      i := n;
      k :| 0 <= k < |RawDistances(steps[n])| && RawDistances(steps[n])[k] == d;
    }
  }

  /** The nearest distance beyond the active window, up to the analysed one. */
  function NearestExcluded(distances: seq<int>, active: int, analysis: int): (r: Option<int>)
    ensures r.Some? ==> active < r.value <= analysis && r.value in distances
    ensures r.Some? ==> forall d :: d in distances && active < d ==> r.value <= d
    ensures r.None? ==> forall d :: d in distances ==> !(active < d <= analysis)
  {
    if |distances| == 0 then None
    else
      var before, last := NearestExcluded(distances[..|distances| - 1], active, analysis), distances[|distances| - 1];
      assert forall d :: d in distances <==> d in distances[..|distances| - 1] || d == last;
      if active < last <= analysis && (before.None? || last < before.value) then Some(last) else before
  }

  /** A row is replayed for `target` when its nearest excluded distance is within it. */
  predicate InReplay(nearest: Option<int>, target: int) {
    nearest.Some? && nearest.value <= target
  }

  /** No candidate of any step lies between the two windows. */
  ghost predicate NoneBetween(steps: seq<Step>, active: int, target: int)
    requires forall k :: 0 <= k < |steps| ==> Parsed(steps[k])
  {
    forall i, k :: 0 <= i < |steps| && 0 <= k < |steps[i].ids| ==> !(active < RawDistances(steps[i])[k] <= target)
  }

  lemma OutsideMeansNoneBetween(steps: seq<Step>, active: int, analysis: int, target: int)
    requires forall k :: 0 <= k < |steps| ==> Parsed(steps[k])
    requires target <= analysis && !InReplay(NearestExcluded(AllDistances(steps), active, analysis), target)
    ensures NoneBetween(steps, active, target)
  {
    forall i, k | 0 <= i < |steps| && 0 <= k < |steps[i].ids|
      ensures !(active < RawDistances(steps[i])[k] <= target)
    {
      assert RawDistances(steps[i])[k] in AllDistances(steps);
    }
  }

  /** Then the larger window admits the same candidates at every logged step. */
  lemma SameWindow(step: Step, candidates: Candidates, active: int, target: int, t: Token)
    requires Observes(step, candidates) && active < target
    requires forall k :: 0 <= k < |step.ids| ==> !(active < RawDistances(step)[k] <= target)
    ensures Eligible(candidates, target, t) <==> Eligible(candidates, active, t)
  {
    if t in candidates {
      var k :| 0 <= k < |step.ids| && step.ids[k] == t;
      DistanceOf(step, candidates, k);
    }
  }

  lemma SameWinner(step: Step, candidates: Candidates, path: seq<Token>, rank: Ranking, active: int, target: int, t: Token, u: Token)
    requires Observes(step, candidates) && active < target
    requires forall k :: 0 <= k < |step.ids| ==> !(active < RawDistances(step)[k] <= target)
    requires IsWinner(candidates, path, rank, active, t) && IsWinner(candidates, path, rank, target, u)
    ensures t == u
  {
    SameWindow(step, candidates, active, target, t);
    SameWindow(step, candidates, active, target, u);
  }

  /** A run under the target window follows the log up to step `i`. */
  lemma {:induction false} OutsideFollows(row: Row, steps: seq<Step>, active: int, target: int, capacity: nat,
                                          oracle: Oracle, rank: Ranking, next: seq<Token> -> Option<Token>, run: seq<Token>, i: nat)
    requires World(row, steps, active, target, capacity, oracle, rank, next, run) && i <= |steps| && active < target
    requires (forall k :: 0 <= k < |steps| ==> Parsed(steps[k])) && NoneBetween(steps, active, target)
    ensures Path(steps)[..i] <= run
  {
    if i > 0 {
      var n := i - 1;
      var here, step := Path(steps)[..n], steps[n];
      OutsideFollows(row, steps, active, target, capacity, oracle, rank, next, run, n);
      RunGoesOn(steps, next, capacity, run, n);
      assert Observes(step, oracle(here)) && IsWinner(oracle(here), here, rank, active, step.sampled);
      SameWinner(step, oracle(here), here, rank, active, target, step.sampled, run[n]);
      PathExtends(steps, run, n);
    }
  }

  /** Rows outside the replay set follow exactly the logged path under the larger window. */
  lemma OutsideUnchanged(row: Row, steps: seq<Step>, active: int, analysis: int, target: int, capacity: nat,
                         oracle: Oracle, rank: Ranking, next: seq<Token> -> Option<Token>, run: seq<Token>)
    requires World(row, steps, active, target, capacity, oracle, rank, next, run)
    requires forall k :: 0 <= k < |steps| ==> Parsed(steps[k])
    requires active < target <= analysis && !InReplay(NearestExcluded(AllDistances(steps), active, analysis), target)
    ensures run == Path(steps) && row.correct == (Final(run) == Some(row.answer))
  {
    OutsideMeansNoneBetween(steps, active, analysis, target);
    NoneBetweenUnchanged(row, steps, active, target, capacity, oracle, rank, next, run);
  }

  lemma NoneBetweenUnchanged(row: Row, steps: seq<Step>, active: int, target: int, capacity: nat,
                             oracle: Oracle, rank: Ranking, next: seq<Token> -> Option<Token>, run: seq<Token>)
    requires World(row, steps, active, target, capacity, oracle, rank, next, run) && active < target
    requires (forall k :: 0 <= k < |steps| ==> Parsed(steps[k])) && NoneBetween(steps, active, target)
    ensures run == Path(steps) && row.correct == (Final(run) == Some(row.answer))
  {
    OutsideFollows(row, steps, active, target, capacity, oracle, rank, next, run, |steps|);
    assert Path(steps)[..|steps|] == Path(steps);
    RunEnds(steps, next, capacity, run);
  }

  // ------------------------------------------------------------------ possible correctness

  /** Candidate `k` of a step is a choice of the larger window that leaves the log, and that is
      no wrong answer. */
  predicate Opens(row: Row, step: Step, target: int, k: nat)
    requires Parsed(step) && k < |step.ids|
  {
    && RawDistances(step)[k] <= target && step.ids[k] != step.sampled
    && (AnswerFor(step.ids[k]).None? || AnswerFor(step.ids[k]) == Some(row.answer))
  }

  ghost predicate Could(row: Row, steps: seq<Step>, target: int)
    requires forall i :: 0 <= i < |steps| ==> Parsed(steps[i])
  {
    row.prediction == Some(row.answer) || OpenBefore(row, steps, target, |steps|)
  }

  /** A candidate of the step leaves the log and is no wrong answer. */
  ghost predicate StepOpens(row: Row, step: Step, target: int)
    requires Parsed(step)
  {
    exists k :: 0 <= k < |step.ids| && Opens(row, step, target, k)
  }

  ghost predicate OpenBefore(row: Row, steps: seq<Step>, target: int, n: nat)
    requires n <= |steps| && forall i :: 0 <= i < |steps| ==> Parsed(steps[i])
  {
    exists i :: 0 <= i < n && StepOpens(row, steps[i], target)
  }

  /** As for every logged row: only the last token may be a letter, and it is the prediction. */
  ghost predicate EndsAtLetter(row: Row, steps: seq<Step>) {
    && (forall i :: 0 <= i < |steps| - 1 ==> !IsLetter(steps[i].sampled))
    && |steps| > 0 && row.prediction == AnswerFor(steps[|steps| - 1].sampled)
  }

  /** `row_could_be_correct_under_larger_window`: nothing when the input is refused. */
  method CouldBeCorrect(row: Row, steps: seq<Step>, target: int) returns (r: Option<bool>)
    requires forall i :: 0 <= i < |steps| ==> Parsed(steps[i])
    ensures (forall i :: 0 <= i < |steps| ==> Accepted(steps[i])) && row.answer < 10 ==> r.Some?
    ensures r.Some? && EndsAtLetter(row, steps) ==> (r.value <==> Could(row, steps, target))
  {
    if row.answer >= 10 {
      return None;
    }
    var open, i := false, 0;
    while i < |steps|
      invariant 0 <= i <= |steps|
      invariant open <==> OpenBefore(row, steps, target, i)
    {
      AcceptedDefined(steps[i]);
      if Distances(steps[i]).None? {
        return None;
      }
      var unknown, answered := Alternatives(row, steps[i], target);
      OpenNext(row, steps, target, i);
      if answered {
        OpenStays(row, steps, target, i + 1);
        return Some(true);
      }
      open, i := open || unknown, i + 1;
      var active := AnswerFor(steps[i - 1].sampled);
      if active.Some? {
        return Some(open || active == Some(row.answer));
      }
    }
    return Some(open || row.prediction == Some(row.answer));
  }

  lemma OpenNext(row: Row, steps: seq<Step>, target: int, n: nat)
    requires n < |steps| && forall i :: 0 <= i < |steps| ==> Parsed(steps[i])
    ensures OpenBefore(row, steps, target, n + 1) <==> OpenBefore(row, steps, target, n) || StepOpens(row, steps[n], target)
  {
  }

  lemma OpenStays(row: Row, steps: seq<Step>, target: int, n: nat)
    requires n <= |steps| && forall i :: 0 <= i < |steps| ==> Parsed(steps[i])
    requires OpenBefore(row, steps, target, n)
    ensures OpenBefore(row, steps, target, |steps|)
  {
  }

  /** The inner loop over one step's candidates. */
  method Alternatives(row: Row, step: Step, target: int) returns (unknown: bool, answered: bool)
    requires Parsed(step)
    ensures unknown || answered <==> StepOpens(row, step, target)
  {
    unknown, answered := false, false;
    var distances := RawDistances(step);
    for k := 0 to |step.ids|
      invariant !answered
      invariant unknown <==> exists j :: 0 <= j < k && Opens(row, step, target, j)
    {
      if distances[k] <= target && step.ids[k] != step.sampled {
        var alternate := AnswerFor(step.ids[k]);
        if alternate.None? {
          assert Opens(row, step, target, k);
          unknown := true;
        } else if alternate == Some(row.answer) {
          assert Opens(row, step, target, k);
          answered := true;
          return;
        }
      }
    }
  }

  /** `next` picks some candidate of the target window at every point. */
  ghost predicate Within(next: seq<Token> -> Option<Token>, oracle: Oracle, target: int) {
    forall path :: next(path).Some? ==> Eligible(oracle(path), target, next(path).value)
  }

  lemma {:induction false} StaysIncorrect(row: Row, steps: seq<Step>, target: int, capacity: nat, oracle: Oracle,
                                          next: seq<Token> -> Option<Token>, run: seq<Token>, i: nat)
    requires Logged(row, steps, oracle, capacity) && Within(next, oracle, target) && IsRun(next, capacity, run)
    requires forall k :: 0 <= k < |steps| ==> Parsed(steps[k])
    requires !Could(row, steps, target) && i <= |steps| && Path(steps)[..i] <= run
    ensures Final(run) != Some(row.answer)
    decreases |steps| - i
  {
    if i == |steps| {
      assert Path(steps)[..i] == Path(steps);
      RunEnds(steps, next, capacity, run);
    } else {
      var here := Path(steps)[..i];
      RunGoesOn(steps, next, capacity, run, i);
      assert Observes(steps[i], oracle(here));
      if run[i] == steps[i].sampled {
        PathExtends(steps, run, i);
        StaysIncorrect(row, steps, target, capacity, oracle, next, run, i + 1);
      } else {
        var k :| 0 <= k < |steps[i].ids| && steps[i].ids[k] == run[i];
        DistanceOf(steps[i], oracle(here), k);
        assert !StepOpens(row, steps[i], target) && !Opens(row, steps[i], target, k);
        LetterEnds(next, capacity, run, i);
      }
    }
  }

  /** A row judged unable to be correct is incorrect, whatever candidate of the target window is
      picked at each point and wherever the model's other continuations lead. */
  lemma JudgedIncorrect(row: Row, steps: seq<Step>, target: int, capacity: nat, oracle: Oracle,
                        next: seq<Token> -> Option<Token>, run: seq<Token>)
    requires Logged(row, steps, oracle, capacity) && Within(next, oracle, target) && IsRun(next, capacity, run)
    requires forall k :: 0 <= k < |steps| ==> Parsed(steps[k])
    requires !Could(row, steps, target)
    ensures Final(run) != Some(row.answer)
  {
    assert Path(steps)[..0] == [];
    StaysIncorrect(row, steps, target, capacity, oracle, next, run, 0);
  }

  // ----------------------------------------------------------------------- score interval

  /** What is known of a row: its base result, whether it belongs to the replay set, the replayed
      result if there is one, and whether it could be correct. */
  datatype Known = Known(base: bool, expected: bool, replayed: Option<bool>, could: bool)

  ghost predicate Explains(known: Known, truth: bool) {
    if !known.expected then truth == known.base
    else if known.replayed.Some? then truth == known.replayed.value
    else truth ==> known.could
  }

  ghost predicate ExplainsAll(rows: seq<Known>, truth: seq<bool>) {
    |rows| == |truth| && forall i :: 0 <= i < |rows| ==> Explains(rows[i], truth[i])
  }

  lemma {:induction false} CountMonotone(a: seq<bool>, b: seq<bool>)
    requires |a| == |b| && forall i :: 0 <= i < |a| ==> a[i] ==> b[i]
    ensures Count(a) <= Count(b)
  {
    if |a| > 0 {
      CountMonotone(a[..|a| - 1], b[..|a| - 1]);
      assert a[|a| - 1] ==> b[|a| - 1];
    }
  }

  lemma CountPush(a: seq<bool>, x: bool)
    ensures Count(a + [x]) == Count(a) + if x then 1 else 0
  {
    assert (a + [x])[..|a|] == a;
  }

  ghost function Lowest(row: Known): bool {
    if !row.expected then row.base else row.replayed == Some(true)
  }

  ghost function Highest(row: Known): bool {
    if !row.expected then row.base else if row.replayed.Some? then row.replayed.value else row.could
  }

  ghost function Lows(rows: seq<Known>): seq<bool> {
    seq(|rows|, i requires 0 <= i < |rows| => Lowest(rows[i]))
  }

  ghost function Highs(rows: seq<Known>): seq<bool> {
    seq(|rows|, i requires 0 <= i < |rows| => Highest(rows[i]))
  }

  lemma BoundsPush(rows: seq<Known>, i: nat)
    requires i < |rows|
    ensures Count(Lows(rows[..i + 1])) == Count(Lows(rows[..i])) + if Lowest(rows[i]) then 1 else 0
    ensures Count(Highs(rows[..i + 1])) == Count(Highs(rows[..i])) + if Highest(rows[i]) then 1 else 0
  {
    assert Lows(rows[..i + 1]) == Lows(rows[..i]) + [Lowest(rows[i])];
    assert Highs(rows[..i + 1]) == Highs(rows[..i]) + [Highest(rows[i])];
    CountPush(Lows(rows[..i]), Lowest(rows[i]));
    CountPush(Highs(rows[..i]), Highest(rows[i]));
  }

  lemma Between(rows: seq<Known>, truth: seq<bool>)
    requires ExplainsAll(rows, truth)
    ensures Count(Lows(rows)) <= Count(truth) <= Count(Highs(rows))
  {
    forall i | 0 <= i < |rows|
      ensures (Lowest(rows[i]) ==> truth[i]) && (truth[i] ==> Highest(rows[i]))
    {
      assert Explains(rows[i], truth[i]);
    }
    CountMonotone(Lows(rows), truth);
    CountMonotone(truth, Highs(rows));
  }

  /** The score bounds of `analyze`. They enclose every total that the results leave possible,
      and are attained. */
  method ScoreBounds(rows: seq<Known>) returns (minimum: int, maximum: int, ghost low: seq<bool>, ghost high: seq<bool>)
    requires forall i :: 0 <= i < |rows| && rows[i].replayed.Some? ==> rows[i].expected
    ensures forall truth :: ExplainsAll(rows, truth) ==> minimum <= Count(truth) <= maximum
    ensures low == Lows(rows) && ExplainsAll(rows, low) && Count(low) == minimum
    ensures high == Highs(rows) && ExplainsAll(rows, high) && Count(high) == maximum
  {
    var baseCorrect, expectedBase, observed, missing := 0, 0, 0, 0;
    for i := 0 to |rows|
      invariant Count(Lows(rows[..i])) == baseCorrect - expectedBase + observed
      invariant Count(Highs(rows[..i])) == Count(Lows(rows[..i])) + missing
    {
      var row := rows[i];
      baseCorrect := baseCorrect + if row.base then 1 else 0;
      expectedBase := expectedBase + if row.expected && row.base then 1 else 0;
      observed := observed + if row.replayed == Some(true) then 1 else 0;
      missing := missing + if row.expected && row.replayed.None? && row.could then 1 else 0;
      BoundsPush(rows, i);
    }
    minimum := baseCorrect - expectedBase + observed;
    maximum := minimum + missing;
    assert rows[..|rows|] == rows;
    low, high := Lows(rows), Highs(rows);
    forall truth | ExplainsAll(rows, truth)
      ensures minimum <= Count(truth) <= maximum
    {
      Between(rows, truth);
    }
  }

  /** What is known of a row explains its true result under the larger window. */
  lemma WorldExplains(row: Row, steps: seq<Step>, active: int, analysis: int, target: int, capacity: nat,
                      oracle: Oracle, rank: Ranking, next: seq<Token> -> Option<Token>, run: seq<Token>, known: Known)
    requires World(row, steps, active, target, capacity, oracle, rank, next, run)
    requires (forall k :: 0 <= k < |steps| ==> Parsed(steps[k])) && active < target <= analysis
    requires known.base == row.correct
    requires known.expected <==> InReplay(NearestExcluded(AllDistances(steps), active, analysis), target)
    requires known.replayed.Some? ==> known.replayed.value == (Final(run) == Some(row.answer))
    requires known.expected && known.replayed.None? && Could(row, steps, target) ==> known.could
    ensures Explains(known, Final(run) == Some(row.answer))
  {
    if !known.expected {
      OutsideUnchanged(row, steps, active, analysis, target, capacity, oracle, rank, next, run);
    } else if known.replayed.None? && !known.could {
      assert Within(next, oracle, target);
      JudgedIncorrect(row, steps, target, capacity, oracle, next, run);
    }
  }
}
