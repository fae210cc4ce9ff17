/** The smaller-window projection leaves no row open without need: what the log does not decide can
    go either way, and the reported score interval is attained. */
module WindowTightness {
  import opened Options
  import opened LetterRun
  import opened WindowSteps
  import opened InverseWindow

  /** A model and a hidden order that explain the log of a row. */
  ghost predicate Explained(row: Row, steps: seq<Step>, active: int, capacity: nat, oracle: Oracle, rank: Ranking) {
    Logged(row, steps, oracle, capacity) && ChosenUnder(steps, oracle, rank, active)
  }

  /** The first step whose logged token the smaller window excludes. */
  ghost predicate DivergesAt(steps: seq<Step>, target: int, i: nat) {
    && i < |steps| && (forall j :: 0 <= j < |steps| ==> Parsed(steps[j]))
    && (forall j :: 0 <= j < i ==> RawDistances(steps[j])[0] <= target) && RawDistances(steps[i])[0] > target
  }

  // -------------------------------------------------------------------------- chosen runs

  /** The rule that takes one fixed run. */
  ghost function Along(run: seq<Token>): seq<Token> -> Option<Token> {
    path => if |path| < |run| && path == run[..|path|] then Some(run[|path|]) else None
  }

  ghost predicate Wins(oracle: Oracle, rank: Ranking, target: int, run: seq<Token>, j: nat)
    requires j < |run|
  {
    IsWinner(oracle(run[..j]), run[..j], rank, target, run[j])
  }

  lemma AlongRun(oracle: Oracle, rank: Ranking, target: int, capacity: nat, run: seq<Token>)
    requires forall j :: 0 <= j < |run| ==> Wins(oracle, rank, target, run, j)
    requires |run| <= capacity && Finished(run, capacity) && forall j :: 0 <= j < |run| - 1 ==> !IsLetter(run[j])
    ensures Follows(Along(run), oracle, rank, target) && IsRun(Along(run), capacity, run)
  {
    var next := Along(run);
    forall path | next(path).Some? ensures IsWinner(oracle(path), path, rank, target, next(path).value) {
      assert Wins(oracle, rank, target, run, |path|);
    }
    assert forall i :: 0 <= i < |run| ==> run[..i] == run[..|run[..i]|];
  }

  /** A winner that stays eligible wins in the smaller window. */
  lemma WinnerStays(candidates: Candidates, path: seq<Token>, rank: Ranking, active: int, target: int, t: Token)
    requires target <= active && IsWinner(candidates, path, rank, active, t) && Eligible(candidates, target, t)
    ensures IsWinner(candidates, path, rank, target, t)
  {
    assert forall u :: Eligible(candidates, target, u) ==> Eligible(candidates, active, u);
  }

  /** Before the divergence the smaller window takes the logged tokens. */
  lemma LoggedWins(row: Row, steps: seq<Step>, active: int, target: int, capacity: nat, oracle: Oracle, rank: Ranking, j: nat)
    requires Explained(row, steps, active, capacity, oracle, rank) && target <= active && j < |steps|
    requires Parsed(steps[j]) && RawDistances(steps[j])[0] <= target
    ensures IsWinner(oracle(Path(steps)[..j]), Path(steps)[..j], rank, target, Path(steps)[j])
  {
    var here := Path(steps)[..j];
    assert Observes(steps[j], oracle(here)) && IsWinner(oracle(here), here, rank, active, steps[j].sampled);
    DistanceOf(steps[j], oracle(here), 0);
    WinnerStays(oracle(here), here, rank, active, target, steps[j].sampled);
  }

  /** The log is explained by another order that differs at the divergence only, and by a model
      that differs only after another token there. */
  lemma ReExplained(row: Row, steps: seq<Step>, active: int, capacity: nat, oracle: Oracle, rank: Ranking,
                    oracle': Oracle, rank': Ranking, i: nat, t: Token)
    requires Explained(row, steps, active, capacity, oracle, rank) && i < |steps| && t != steps[i].sampled
    requires forall path :: path != Path(steps)[..i] + [t] ==> oracle'(path) == oracle(path)
    requires forall path, u :: path != Path(steps)[..i] ==> rank'(path, u) == rank(path, u)
    requires IsWinner(oracle(Path(steps)[..i]), Path(steps)[..i], rank', active, steps[i].sampled)
    ensures Explained(row, steps, active, capacity, oracle', rank')
  {
    var path := Path(steps);
    forall j | 0 <= j < |steps|
      ensures Observes(steps[j], oracle'(path[..j])) && IsWinner(oracle'(path[..j]), path[..j], rank', active, steps[j].sampled)
    {
      OtherPath(steps, i, t, j);
      assert Observes(steps[j], oracle(path[..j])) && IsWinner(oracle(path[..j]), path[..j], rank, active, steps[j].sampled);
      assert j != i ==> |path[..j]| != |path[..i]|;
    }
  }

  lemma OtherPath(steps: seq<Step>, i: nat, t: Token, j: nat)
    requires i < |steps| && t != steps[i].sampled && j < |steps|
    ensures Path(steps)[..j] != Path(steps)[..i] + [t]
  {
    if j == i + 1 {
      assert Path(steps)[..j][i] == Path(steps)[i];
    }
  }

  /** The run that leaves the log for `t` at the divergence and then takes `more`. */
  ghost function Leaving(steps: seq<Step>, i: nat, t: Token, more: seq<Token>): seq<Token>
    requires i < |steps|
  {
    (Path(steps)[..i] + [t]) + more
  }

  /** A run that leaves the log for an eligible token is possible: the order and, after that token,
      the model can be chosen. */
  lemma LeavingPossible(row: Row, steps: seq<Step>, active: int, target: nat, capacity: nat, oracle: Oracle, rank: Ranking,
                        i: nat, t: Token, more: seq<Token>)
    requires Explained(row, steps, active, capacity, oracle, rank) && target <= active && DivergesAt(steps, target, i)
    requires Eligible(oracle(Path(steps)[..i]), target, t) && |more| <= 1 && (more != [] ==> !IsLetter(t))
    requires var run := Leaving(steps, i, t, more); |run| <= capacity && Finished(run, capacity)
    ensures Possible(row, steps, active, target, capacity, Final(Leaving(steps, i, t, more)) == Some(row.answer))
  {
    var run, here := Leaving(steps, i, t, more), Path(steps)[..i];
    assert Observes(steps[i], oracle(here)) && IsWinner(oracle(here), here, rank, active, steps[i].sampled);
    DistanceOf(steps[i], oracle(here), 0);
    var rank' := AnyEligibleCanWin(oracle(here), here, rank, active, target, steps[i].sampled, t);
    var oracle' := After(oracle, here + [t], more);
    ReExplained(row, steps, active, capacity, oracle, rank, oracle', rank', i, t);
    forall j | 0 <= j < |run| ensures Wins(oracle', rank', target, run, j) {
      LeavingWins(row, steps, active, target, capacity, oracle, rank, oracle', rank', i, t, more, j);
    }
    LeavingLetters(row, steps, oracle, capacity, i, t, more);
    AlongRun(oracle', rank', target, capacity, run);
    assert World(row, steps, active, target, capacity, oracle', rank', Along(run), run);
  }

  /** The model whose only candidate after `path` is the first token of `more`. */
  ghost function After(oracle: Oracle, path: seq<Token>, more: seq<Token>): Oracle {
    p => if p == path && |more| > 0 then map[more[0] := 0] else oracle(p)
  }

  lemma LeavingLetters(row: Row, steps: seq<Step>, oracle: Oracle, capacity: nat, i: nat, t: Token, more: seq<Token>)
    requires Logged(row, steps, oracle, capacity) && i < |steps| && |more| <= 1 && (more != [] ==> !IsLetter(t))
    ensures var run := Leaving(steps, i, t, more); forall j :: 0 <= j < |run| - 1 ==> !IsLetter(run[j])
  {
    var run := Leaving(steps, i, t, more);
    forall j | 0 <= j < |run| - 1 ensures !IsLetter(run[j]) {
      if j < i {
        assert run[j] == Path(steps)[j];
      }
    }
  }

  lemma LeavingWins(row: Row, steps: seq<Step>, active: int, target: nat, capacity: nat, oracle: Oracle, rank: Ranking,
                    oracle': Oracle, rank': Ranking, i: nat, t: Token, more: seq<Token>, j: nat)
    requires Explained(row, steps, active, capacity, oracle', rank') && target <= active && DivergesAt(steps, target, i)
    requires |more| <= 1 && j < |Leaving(steps, i, t, more)| && oracle' == After(oracle, Path(steps)[..i] + [t], more)
    requires IsWinner(oracle'(Path(steps)[..i]), Path(steps)[..i], rank', target, t)
    ensures Wins(oracle', rank', target, Leaving(steps, i, t, more), j)
  {
    LeavingParts(steps, i, t, more, j);
    if j < i {
      LoggedWins(row, steps, active, target, capacity, oracle', rank', j);
    } else if j > i {
      OnlyCandidate(Path(steps)[..i] + [t], rank', target, more[0]);
    }
  }

  lemma LeavingParts(steps: seq<Step>, i: nat, t: Token, more: seq<Token>, j: nat)
    requires i < |steps| && |more| <= 1 && j < |Leaving(steps, i, t, more)|
    ensures var run := Leaving(steps, i, t, more);
            && (j < i ==> run[..j] == Path(steps)[..j] && run[j] == Path(steps)[j])
            && (j == i ==> run[..j] == Path(steps)[..i] && run[j] == t)
            && (j > i ==> run[..j] == Path(steps)[..i] + [t] && |more| == 1 && run[j] == more[0])
  {
  }

  lemma LeavingFinal(steps: seq<Step>, i: nat, t: Token, more: seq<Token>)
    requires i < |steps| && |more| <= 1
    ensures Final(Leaving(steps, i, t, more)) == AnswerFor(if more == [] then t else more[0])
  {
  }

  lemma OnlyCandidate(path: seq<Token>, rank: Ranking, target: nat, t: Token)
    ensures IsWinner(map[t := 0], path, rank, target, t)
  {
  }

  // ------------------------------------------------------------------- rows that stay open

  lemma ProjectSome(row: Row, steps: seq<Step>, target: nat, i: nat)
    requires i < |steps| && (forall k :: 0 <= k < |steps| ==> Parsed(steps[k])) && ProjectFrom(row, steps, target, i).Some?
    ensures Accepted(steps[i])
  {
    AcceptedDefined(steps[i]);
  }

  /** The projection is that of a divergence at step `d`. */
  ghost predicate ProjectedAt(row: Row, steps: seq<Step>, target: nat, d: nat, outcome: Outcome) {
    && DivergesAt(steps, target, d)
    && var answers := EligibleAnswers(steps[d], target, |steps[d].ids|); answers != [] && outcome == Diverged(answers, row.answer)
  }

  lemma KeepsOn(row: Row, steps: seq<Step>, target: nat, i: nat)
    requires i < |steps| && (forall k :: 0 <= k < |steps| ==> Parsed(steps[k])) && ProjectFrom(row, steps, target, i).Some?
    requires RawDistances(steps[i])[0] <= target
    ensures ProjectFrom(row, steps, target, i) == ProjectFrom(row, steps, target, i + 1)
  {
    ProjectSome(row, steps, target, i);
    ProjectUnfolds(row, steps, target, i);
  }

  lemma LeavesHere(row: Row, steps: seq<Step>, target: nat, i: nat)
    requires DivergesAt(steps, target, i) && ProjectFrom(row, steps, target, i).Some?
    ensures ProjectedAt(row, steps, target, i, ProjectFrom(row, steps, target, i).value)
  {
    ProjectSome(row, steps, target, i);
    ProjectUnfolds(row, steps, target, i);
  }

  lemma {:induction false} ProjectReaches(row: Row, steps: seq<Step>, target: nat, n: nat)
    requires n <= |steps| && (forall k :: 0 <= k < |steps| ==> Parsed(steps[k])) && ProjectFrom(row, steps, target, 0).Some?
    requires forall j :: 0 <= j < n ==> RawDistances(steps[j])[0] <= target
    ensures ProjectFrom(row, steps, target, n) == ProjectFrom(row, steps, target, 0)
  {
    if n > 0 {
      ProjectReaches(row, steps, target, n - 1);
      KeepsOn(row, steps, target, n - 1);
    }
  }

  /** The first step whose logged token the window excludes, if there is one. */
  lemma FirstBeyond(steps: seq<Step>, target: nat) returns (d: nat)
    requires forall k :: 0 <= k < |steps| ==> Parsed(steps[k])
    ensures d <= |steps| && (forall j :: 0 <= j < d ==> RawDistances(steps[j])[0] <= target)
    ensures d < |steps| ==> DivergesAt(steps, target, d)
  {
    d := 0;
    while d < |steps| && RawDistances(steps[d])[0] <= target
      invariant d <= |steps| && forall j :: 0 <= j < d ==> RawDistances(steps[j])[0] <= target
    {
      d := d + 1;
    }
  }

  /** An open projection comes from a divergence where some eligible candidate is no answer, or
      right and wrong answers are both eligible. */
  lemma OpenDiverges(row: Row, steps: seq<Step>, target: nat) returns (d: nat)
    requires forall k :: 0 <= k < |steps| ==> Parsed(steps[k])
    requires ProjectFrom(row, steps, target, 0).Some? && !ProjectFrom(row, steps, target, 0).value.kept
    ensures ProjectedAt(row, steps, target, d, ProjectFrom(row, steps, target, 0).value)
  {
    d := FirstBeyond(steps, target);
    ProjectReaches(row, steps, target, d);
    if d < |steps| {
      LeavesHere(row, steps, target, d);
    }
  }

  /** A candidate within the window, found by its answer. */
  lemma EligibleWith(step: Step, candidates: Candidates, target: int, a: Option<Answer>) returns (t: Token)
    requires Observes(step, candidates) && a in EligibleAnswers(step, target, |step.ids|)
    ensures Eligible(candidates, target, t) && AnswerFor(t) == a
  {
    var k :| 0 <= k < |step.ids| && RawDistances(step)[k] <= target && AnswerFor(step.ids[k]) == a;
    DistanceOf(step, candidates, k);
    t := step.ids[k];
  }

  /** Leaving the log for an answer ends the run with it. */
  lemma AnswerPossible(row: Row, steps: seq<Step>, active: int, target: nat, capacity: nat, oracle: Oracle, rank: Ranking,
                       i: nat, a: Answer)
    requires Explained(row, steps, active, capacity, oracle, rank) && target <= active && DivergesAt(steps, target, i)
    requires Some(a) in EligibleAnswers(steps[i], target, |steps[i].ids|)
    ensures Possible(row, steps, active, target, capacity, a == row.answer)
  {
    var here := Path(steps)[..i];
    assert Observes(steps[i], oracle(here));
    var t := EligibleWith(steps[i], oracle(here), target, Some(a));
    LeavingPossible(row, steps, active, target, capacity, oracle, rank, i, t, []);
  }

  /** Leaving the log for something else lets the run end with any answer, or with none when there
      is no room left. */
  lemma OtherPossible(row: Row, steps: seq<Step>, active: int, target: nat, capacity: nat, oracle: Oracle, rank: Ranking,
                      i: nat, a: Answer)
    requires Explained(row, steps, active, capacity, oracle, rank) && target <= active && DivergesAt(steps, target, i)
    requires None in EligibleAnswers(steps[i], target, |steps[i].ids|) && a < 10
    ensures Possible(row, steps, active, target, capacity, i + 1 < capacity && a == row.answer)
  {
    var here := Path(steps)[..i];
    assert Observes(steps[i], oracle(here));
    var t := EligibleWith(steps[i], oracle(here), target, None);
    var more := if i + 1 < capacity then [FIRST_LETTER + a] else [];
    LeavingFinal(steps, i, t, more);
    LeavingPossible(row, steps, active, target, capacity, oracle, rank, i, t, more);
  }

  /** The row can be correct unless the divergence is at the last position and no eligible
      candidate is the right answer. */
  ghost predicate RoomForAnswer(row: Row, steps: seq<Step>, target: nat, capacity: nat, i: nat)
    requires DivergesAt(steps, target, i)
  {
    i + 1 < capacity || Some(row.answer) in EligibleAnswers(steps[i], target, |steps[i].ids|)
  }

  /** With no room for it, no run under the smaller window ends with the right answer. */
  lemma NoRoom(row: Row, steps: seq<Step>, active: int, target: nat, capacity: nat, i: nat, correct: bool)
    requires target <= active && DivergesAt(steps, target, i) && Possible(row, steps, active, target, capacity, correct) && correct
    ensures RoomForAnswer(row, steps, target, capacity, i)
  {
    var oracle, rank, next, run :|
      World(row, steps, active, target, capacity, oracle, rank, next, run) && (correct <==> Final(run) == Some(row.answer));
    AnswerAt(row, steps, active, target, capacity, oracle, rank, next, run, i);
    RoomFromRun(row, steps, target, capacity, run, i);
  }

  lemma RoomFromRun(row: Row, steps: seq<Step>, target: nat, capacity: nat, run: seq<Token>, i: nat)
    requires DivergesAt(steps, target, i) && i < |run| <= capacity && Final(run) == Some(row.answer)
    requires AnswerFor(run[i]) in EligibleAnswers(steps[i], target, |steps[i].ids|)
    ensures RoomForAnswer(row, steps, target, capacity, i)
  {
    if i + 1 >= capacity {
      assert |run| == i + 1;
    }
  }

  /** The answer of the run's token at the divergence is among the eligible ones. */
  lemma AnswerAt(row: Row, steps: seq<Step>, active: int, target: int, capacity: nat, oracle: Oracle, rank: Ranking,
                 next: seq<Token> -> Option<Token>, run: seq<Token>, i: nat)
    requires World(row, steps, active, target, capacity, oracle, rank, next, run) && target <= active && DivergesAt(steps, target, i)
    ensures i < |run| <= capacity && AnswerFor(run[i]) in EligibleAnswers(steps[i], target, |steps[i].ids|)
  {
    FollowsTo(row, steps, active, target, capacity, oracle, rank, next, run, i);
    RunChoice(row, steps, active, target, capacity, oracle, rank, next, run, i);
    AnswerListed(steps[i], oracle(Path(steps)[..i]), target, run[i]);
  }

  lemma {:induction false} FollowsTo(row: Row, steps: seq<Step>, active: int, target: int, capacity: nat, oracle: Oracle,
                                     rank: Ranking, next: seq<Token> -> Option<Token>, run: seq<Token>, i: nat)
    requires World(row, steps, active, target, capacity, oracle, rank, next, run) && target <= active && i <= |steps|
    requires forall j :: 0 <= j < i ==> Parsed(steps[j]) && RawDistances(steps[j])[0] <= target
    ensures Path(steps)[..i] <= run
  {
    if i > 0 {
      FollowsTo(row, steps, active, target, capacity, oracle, rank, next, run, i - 1);
      RunChoice(row, steps, active, target, capacity, oracle, rank, next, run, i - 1);
    }
  }

  /** A row that the projection leaves open can be incorrect, and can be correct exactly when there
      is room for the right answer. */
  lemma OpenIsUndecided(row: Row, steps: seq<Step>, active: int, target: nat, capacity: nat, oracle: Oracle, rank: Ranking)
    returns (i: nat)
    requires Explained(row, steps, active, capacity, oracle, rank) && target <= active && row.answer < 10
    requires forall k :: 0 <= k < |steps| ==> Parsed(steps[k])
    requires ProjectSmaller(row, steps, target).Some? && ProjectSmaller(row, steps, target).value.correctness.None?
    ensures DivergesAt(steps, target, i)
    ensures Possible(row, steps, active, target, capacity, false)
    ensures Possible(row, steps, active, target, capacity, true) <==> RoomForAnswer(row, steps, target, capacity, i)
  {
    NotKept(row, steps, target, 0);
    i := OpenDiverges(row, steps, target);
    var answers := EligibleAnswers(steps[i], target, |steps[i].ids|);
    if None in answers {
      var wrong := if row.answer == 0 then 1 else 0;
      OtherPossible(row, steps, active, target, capacity, oracle, rank, i, wrong);
      OtherPossible(row, steps, active, target, capacity, oracle, rank, i, row.answer);
    } else {
      MixedAnswers(answers, row.answer);
      var a :| a in answers && a != Some(row.answer);
      AnswerPossible(row, steps, active, target, capacity, oracle, rank, i, a.value);
    }
    if Some(row.answer) in answers {
      AnswerPossible(row, steps, active, target, capacity, oracle, rank, i, row.answer);
    }
    if Possible(row, steps, active, target, capacity, true) {
      NoRoom(row, steps, active, target, capacity, i, true);
    }
  }

  lemma {:induction false} NotKept(row: Row, steps: seq<Step>, target: int, i: nat)
    requires i <= |steps| && forall k :: 0 <= k < |steps| ==> Parsed(steps[k])
    requires ProjectFrom(row, steps, target, i).Some? && ProjectFrom(row, steps, target, i).value.correctness.None?
    ensures !ProjectFrom(row, steps, target, i).value.kept
    decreases |steps| - i
  {
    if i < |steps| && Distances(steps[i]).Some? && Distances(steps[i]).value[0] <= target {
      NotKept(row, steps, target, i + 1);
    }
  }

  lemma MixedAnswers(answers: seq<Option<Answer>>, answer: Answer)
    requires answers != [] && None !in answers && Diverged(answers, answer).correctness.None?
    ensures Some(answer) in answers && exists a :: a in answers && a != Some(answer)
  {
    assert answers[0] in answers;
  }

  // -------------------------------------------------------------------- every field, exactly

  /** A step that is not accepted stands where the projection gets to. */
  ghost predicate RefusedAt(steps: seq<Step>, target: int, i: nat, j: int)
    requires forall k :: 0 <= k < |steps| ==> Parsed(steps[k])
  {
    i <= j < |steps| && !Accepted(steps[j]) && forall k :: i <= k < j ==> RawDistances(steps[k])[0] <= target
  }

  lemma ProjectRefused(row: Row, steps: seq<Step>, target: nat, i: nat)
    requires i < |steps| && forall k :: 0 <= k < |steps| ==> Parsed(steps[k])
    ensures ProjectFrom(row, steps, target, i).None? <==>
              || !Accepted(steps[i])
              || (RawDistances(steps[i])[0] <= target && ProjectFrom(row, steps, target, i + 1).None?)
  {
    AcceptedDefined(steps[i]);
    if Accepted(steps[i]) {
      var k := SomeEligible(steps[i], target);
      assert AnswerFor(steps[i].ids[k]) in EligibleAnswers(steps[i], target, |steps[i].ids|);
    }
  }

  lemma {:induction false} RefusedFrom(row: Row, steps: seq<Step>, target: nat, i: nat)
    requires i <= |steps| && forall k :: 0 <= k < |steps| ==> Parsed(steps[k])
    ensures ProjectFrom(row, steps, target, i).None? <==> exists j :: RefusedAt(steps, target, i, j)
    decreases |steps| - i
  {
    if i < |steps| {
      var n := i + 1;
      ProjectRefused(row, steps, target, i);
      RefusedFrom(row, steps, target, n);
      if !Accepted(steps[i]) {
        assert RefusedAt(steps, target, i, i);
      } else {
        if j :| RefusedAt(steps, target, i, j) {
          assert RefusedAt(steps, target, n, j);
        }
        if j :| RefusedAt(steps, target, n, j) {
          assert RawDistances(steps[i])[0] <= target ==> RefusedAt(steps, target, i, j);
        }
      }
    }
  }

  /** What is refused: wrong answers, negative windows and steps that are not accepted, if the
      projection gets to them. */
  lemma RefusedExactly(row: Row, steps: seq<Step>, target: int)
    requires forall k :: 0 <= k < |steps| ==> Parsed(steps[k])
    ensures ProjectSmaller(row, steps, target).None? <==>
              row.answer >= 10 || target < 0 || exists j :: RefusedAt(steps, target, 0, j)
  {
    if row.answer < 10 && target >= 0 {
      RefusedFrom(row, steps, target, 0);
    }
  }

  /** A projection keeps the log exactly when the window admits every logged token. */
  lemma KeptExactly(row: Row, steps: seq<Step>, target: nat)
    requires (forall k :: 0 <= k < |steps| ==> Parsed(steps[k])) && ProjectFrom(row, steps, target, 0).Some?
    ensures var outcome := ProjectFrom(row, steps, target, 0).value;
            && (outcome.kept <==> forall j :: 0 <= j < |steps| ==> RawDistances(steps[j])[0] <= target)
            && (outcome.kept ==> outcome == Outcome(Some(row.correct), row.prediction, true))
  {
    if ProjectFrom(row, steps, target, 0).value.kept {
      KeptDistances(row, steps, target, 0);
      KeptPrediction(row, steps, target, 0);
    } else {
      var i := OpenDiverges(row, steps, target);
    }
  }

  /** Otherwise it predicts an answer exactly when that is the only candidate left. */
  lemma LeftExactly(row: Row, steps: seq<Step>, target: nat) returns (i: nat)
    requires (forall k :: 0 <= k < |steps| ==> Parsed(steps[k])) && ProjectFrom(row, steps, target, 0).Some?
    requires !ProjectFrom(row, steps, target, 0).value.kept
    ensures DivergesAt(steps, target, i) && Foretells(steps[i], target, ProjectFrom(row, steps, target, 0).value.prediction)
  {
    i := OpenDiverges(row, steps, target);
    DivergedForetells(EligibleAnswers(steps[i], target, |steps[i].ids|), row.answer);
  }

  lemma DivergedForetells(answers: seq<Option<Answer>>, answer: Answer)
    requires answers != []
    ensures Diverged(answers, answer).prediction == if |answers| == 1 then answers[0] else None
  {
    if |answers| == 1 {
      assert answers[0] in answers && forall a :: a in answers ==> a == answers[0];
    }
  }

  /** One candidate is left, and it is the predicted answer; or nothing is predicted. */
  ghost predicate Foretells(step: Step, target: int, prediction: Option<Answer>)
    requires Parsed(step)
  {
    var answers := EligibleAnswers(step, target, |step.ids|);
    if |answers| == 1 then prediction == answers[0] else prediction == None
  }

  lemma {:induction false} KeptPrediction(row: Row, steps: seq<Step>, target: int, i: nat)
    requires i <= |steps| && forall k :: 0 <= k < |steps| ==> Parsed(steps[k])
    requires ProjectFrom(row, steps, target, i).Some? && ProjectFrom(row, steps, target, i).value.kept
    ensures ProjectFrom(row, steps, target, i).value.prediction == row.prediction
    decreases |steps| - i
  {
    if i < |steps| {
      AcceptedDefined(steps[i]);
      ProjectUnfolds(row, steps, target, i);
      KeptPrediction(row, steps, target, i + 1);
    }
  }

  // --------------------------------------------------------------------- definite rows

  /** A definite projection is possible. */
  lemma DefinitePossible(row: Row, steps: seq<Step>, active: int, target: nat, capacity: nat, oracle: Oracle, rank: Ranking)
    requires Explained(row, steps, active, capacity, oracle, rank) && target <= active && row.answer < 10
    requires forall k :: 0 <= k < |steps| ==> Parsed(steps[k])
    requires ProjectSmaller(row, steps, target).Some? && ProjectSmaller(row, steps, target).value.correctness.Some?
    ensures Possible(row, steps, active, target, capacity, ProjectSmaller(row, steps, target).value.correctness.value)
  {
    var outcome := ProjectSmaller(row, steps, target).value;
    if outcome.kept {
      KeptDistances(row, steps, target, 0);
      LogPossible(row, steps, active, target, capacity, oracle, rank);
    } else {
      var i := OpenDiverges(row, steps, target);
      var answers := EligibleAnswers(steps[i], target, |steps[i].ids|);
      assert answers[0] in answers && answers[0].Some?;
      AnswerPossible(row, steps, active, target, capacity, oracle, rank, i, answers[0].value);
    }
  }

  lemma {:induction false} KeptDistances(row: Row, steps: seq<Step>, target: int, i: nat)
    requires i <= |steps| && forall k :: 0 <= k < |steps| ==> Parsed(steps[k])
    requires ProjectFrom(row, steps, target, i).Some? && ProjectFrom(row, steps, target, i).value.kept
    ensures ProjectFrom(row, steps, target, i).value.correctness == Some(row.correct)
    ensures forall j :: i <= j < |steps| ==> RawDistances(steps[j])[0] <= target
    decreases |steps| - i
  {
    if i < |steps| {
      AcceptedDefined(steps[i]);
      KeptDistances(row, steps, target, i + 1);
    }
  }

  lemma LogPossible(row: Row, steps: seq<Step>, active: int, target: nat, capacity: nat, oracle: Oracle, rank: Ranking)
    requires Explained(row, steps, active, capacity, oracle, rank) && target <= active
    requires forall j :: 0 <= j < |steps| ==> Parsed(steps[j]) && RawDistances(steps[j])[0] <= target
    ensures Possible(row, steps, active, target, capacity, row.correct)
  {
    var run := Path(steps);
    forall j | 0 <= j < |run| ensures Wins(oracle, rank, target, run, j) {
      LoggedWins(row, steps, active, target, capacity, oracle, rank, j);
    }
    AlongRun(oracle, rank, target, capacity, run);
    assert World(row, steps, active, target, capacity, oracle, rank, Along(run), run);
  }

  // -------------------------------------------------------------------------- the interval

  ghost predicate Explainable(row: Row, steps: seq<Step>, active: int, capacity: nat) {
    exists oracle, rank :: Explained(row, steps, active, capacity, oracle, rank)
  }

  /** The row, if it is open, can be correct. */
  ghost predicate CanBeCorrect(row: Row, steps: seq<Step>, target: nat, capacity: nat, outcome: Outcome) {
    outcome.correctness.None? ==> exists i :: DivergesAt(steps, target, i) && RoomForAnswer(row, steps, target, capacity, i)
  }

  ghost function Low(outcome: Outcome): bool {
    outcome.correctness == Some(true)
  }

  ghost function High(outcome: Outcome): bool {
    outcome.correctness != Some(false)
  }

  lemma RowAttains(row: Row, steps: seq<Step>, active: int, target: nat, capacity: nat, outcome: Outcome)
    requires target <= active && Explainable(row, steps, active, capacity) && Projects(row, steps, target, outcome)
    ensures Possible(row, steps, active, target, capacity, Low(outcome))
    ensures CanBeCorrect(row, steps, target, capacity, outcome) ==> Possible(row, steps, active, target, capacity, High(outcome))
  {
    var oracle, rank :| Explained(row, steps, active, capacity, oracle, rank);
    if outcome.correctness.Some? {
      DefinitePossible(row, steps, active, target, capacity, oracle, rank);
    } else {
      var i := OpenIsUndecided(row, steps, active, target, capacity, oracle, rank);
      if CanBeCorrect(row, steps, target, capacity, outcome) {
        var d :| DivergesAt(steps, target, d) && RoomForAnswer(row, steps, target, capacity, d);
        OneDivergence(steps, target, i, d);
      }
    }
  }

  lemma OneDivergence(steps: seq<Step>, target: int, i: nat, j: nat)
    requires DivergesAt(steps, target, i) && DivergesAt(steps, target, j)
    ensures i == j
  {
  }

  lemma {:induction false} CountLow(outcomes: seq<Outcome>, truth: seq<bool>)
    requires |truth| == |outcomes| && forall i :: 0 <= i < |truth| ==> truth[i] == Low(outcomes[i])
    ensures Count(truth) == Verdicts(outcomes, Some(true))
  {
    if |truth| > 0 {
      CountLow(outcomes[..|truth| - 1], truth[..|truth| - 1]);
    }
  }

  lemma {:induction false} CountHigh(outcomes: seq<Outcome>, truth: seq<bool>)
    requires |truth| == |outcomes| && forall i :: 0 <= i < |truth| ==> truth[i] == High(outcomes[i])
    ensures Count(truth) == Verdicts(outcomes, Some(true)) + Verdicts(outcomes, None)
  {
    if |truth| > 0 {
      CountHigh(outcomes[..|truth| - 1], truth[..|truth| - 1]);
      match outcomes[|truth| - 1].correctness
      case None =>
      case Some(true) =>
      case Some(false) =>
    }
  }

  /** The reported minimum is attained, and so is the maximum when every open row has room for its
      right answer. */
  lemma IntervalAttained(rows: seq<Row>, groups: seq<seq<Step>>, active: int, target: nat, capacity: nat, outcomes: seq<Outcome>)
    returns (low: seq<bool>, high: seq<bool>)
    requires target <= active && |rows| == |groups| == |outcomes|
    requires forall i :: 0 <= i < |rows| ==> Explainable(rows[i], groups[i], active, capacity)
    requires forall i :: 0 <= i < |rows| ==> Projects(rows[i], groups[i], target, outcomes[i])
    ensures |low| == |high| == |rows|
    ensures Count(low) == Verdicts(outcomes, Some(true))
    ensures Count(high) == Verdicts(outcomes, Some(true)) + Verdicts(outcomes, None)
    ensures forall i :: 0 <= i < |rows| ==> Possible(rows[i], groups[i], active, target, capacity, low[i])
    ensures forall i :: 0 <= i < |rows| && CanBeCorrect(rows[i], groups[i], target, capacity, outcomes[i]) ==>
              Possible(rows[i], groups[i], active, target, capacity, high[i])
  {
    low := seq(|rows|, i requires 0 <= i < |rows| => Low(outcomes[i]));
    high := seq(|rows|, i requires 0 <= i < |rows| => High(outcomes[i]));
    CountLow(outcomes, low);
    CountHigh(outcomes, high);
    forall i | 0 <= i < |rows|
      ensures Possible(rows[i], groups[i], active, target, capacity, low[i])
      ensures CanBeCorrect(rows[i], groups[i], target, capacity, outcomes[i]) ==>
                Possible(rows[i], groups[i], active, target, capacity, high[i])
    {
      RowAttains(rows[i], groups[i], active, target, capacity, outcomes[i]);
    }
  }
}
