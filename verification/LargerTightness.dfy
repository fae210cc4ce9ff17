/** What a larger window can make of a logged row, exactly: which rows it can change, and which
    it can make correct or incorrect. */
module LargerTightness {
  import opened Options
  import opened LetterRun
  import opened WindowSteps
  import opened InverseWindow
  import opened WindowTightness
  import opened RouteReplay

  /** Candidate `k` of step `i` is admitted by the larger window only. */
  ghost predicate Admitted(steps: seq<Step>, active: int, target: int, i: int, k: int)
    requires forall j :: 0 <= j < |steps| ==> Parsed(steps[j])
  {
    0 <= i < |steps| && 0 <= k < |steps[i].ids| && active < RawDistances(steps[i])[k] <= target
  }

  // ------------------------------------------------------------------------- a hidden order

  /** The hidden order in which the logged token comes first everywhere, but `t` at step `i`. */
  ghost function Steered(steps: seq<Step>, i: nat, t: Token): Ranking {
    (p: seq<Token>, u: Token) =>
      if |p| < |steps| && p == Path(steps)[..|p|] then
        (if |p| == i && u == t then 0 else if u == steps[|p|].sampled then 1 else 2)
      else 0
  }

  /** The logged token wins wherever `t` does not stand before it. */
  lemma SteeredWins(steps: seq<Step>, i: nat, t: Token, candidates: Candidates, window: int, j: nat)
    requires j < |steps| && Eligible(candidates, window, steps[j].sampled)
    requires j == i ==> !Eligible(candidates, window, t)
    ensures IsWinner(candidates, Path(steps)[..j], Steered(steps, i, t), window, steps[j].sampled)
  {
  }

  lemma SteeredLeaves(steps: seq<Step>, i: nat, t: Token, candidates: Candidates, window: int)
    requires i < |steps| && Eligible(candidates, window, t)
    ensures IsWinner(candidates, Path(steps)[..i], Steered(steps, i, t), window, t)
  {
  }

  lemma LoggedEligible(row: Row, steps: seq<Step>, active: int, target: int, capacity: nat, oracle: Oracle, rank: Ranking, j: nat)
    requires Explained(row, steps, active, capacity, oracle, rank) && active < target && j < |steps|
    ensures Observes(steps[j], oracle(Path(steps)[..j]))
    ensures Eligible(oracle(Path(steps)[..j]), active, steps[j].sampled) && Eligible(oracle(Path(steps)[..j]), target, steps[j].sampled)
  {
    var here := Path(steps)[..j];
    assert Observes(steps[j], oracle(here)) && IsWinner(oracle(here), here, rank, active, steps[j].sampled);
  }

  /** The order explains the log, with any model that differs only after `t` at step `i`. */
  lemma SteeredExplains(row: Row, steps: seq<Step>, active: int, target: int, capacity: nat, oracle: Oracle, rank: Ranking,
                        i: nat, t: Token, oracle': Oracle)
    requires Explained(row, steps, active, capacity, oracle, rank) && active < target
    requires i < |steps| ==> t != steps[i].sampled && !Eligible(oracle(Path(steps)[..i]), active, t)
    requires forall j :: 0 <= j < |steps| ==> oracle'(Path(steps)[..j]) == oracle(Path(steps)[..j])
    ensures Explained(row, steps, active, capacity, oracle', Steered(steps, i, t))
  {
    var path := Path(steps);
    forall j | 0 <= j < |steps|
      ensures Observes(steps[j], oracle'(path[..j])) && IsWinner(oracle'(path[..j]), path[..j], Steered(steps, i, t), active, steps[j].sampled)
    {
      LoggedEligible(row, steps, active, target, capacity, oracle, rank, j);
      SteeredWins(steps, i, t, oracle(path[..j]), active, j);
    }
  }

  // --------------------------------------------------------------------------- chosen runs

  /** The larger window can always take the logged path. */
  lemma LogStaysPossible(row: Row, steps: seq<Step>, active: int, target: int, capacity: nat, oracle: Oracle, rank: Ranking)
    requires Explained(row, steps, active, capacity, oracle, rank) && active < target
    ensures Possible(row, steps, active, target, capacity, row.correct)
  {
    var run, rank' := Path(steps), Steered(steps, |steps|, 0);
    SteeredExplains(row, steps, active, target, capacity, oracle, rank, |steps|, 0, oracle);
    forall j | 0 <= j < |run| ensures Wins(oracle, rank', target, run, j) {
      LoggedEligible(row, steps, active, target, capacity, oracle, rank, j);
      SteeredWins(steps, |steps|, 0, oracle(run[..j]), target, j);
    }
    AlongRun(oracle, rank', target, capacity, run);
    assert World(row, steps, active, target, capacity, oracle, rank', Along(run), run);
  }

  lemma AdmittedEligible(row: Row, steps: seq<Step>, active: int, target: int, capacity: nat, oracle: Oracle, rank: Ranking, i: nat, k: nat)
    requires Explained(row, steps, active, capacity, oracle, rank) && (forall j :: 0 <= j < |steps| ==> Parsed(steps[j]))
    requires active < target && Admitted(steps, active, target, i, k)
    ensures var here, t := Path(steps)[..i], steps[i].ids[k];
            Eligible(oracle(here), target, t) && !Eligible(oracle(here), active, t) && t != steps[i].sampled
  {
    LoggedEligible(row, steps, active, target, capacity, oracle, rank, i);
    DistanceOf(steps[i], oracle(Path(steps)[..i]), k);
  }

  /** A run that leaves the log for a candidate that only the larger window admits. */
  ghost predicate LeavesIn(row: Row, steps: seq<Step>, active: int, target: int, capacity: nat, run: seq<Token>) {
    exists oracle, rank, next :: World(row, steps, active, target, capacity, oracle, rank, next, run)
  }

  lemma AdmittedRun(row: Row, steps: seq<Step>, active: int, target: nat, capacity: nat, oracle: Oracle, rank: Ranking,
                    i: nat, k: nat, more: seq<Token>)
    requires Explained(row, steps, active, capacity, oracle, rank) && (forall j :: 0 <= j < |steps| ==> Parsed(steps[j]))
    requires active < target && Admitted(steps, active, target, i, k)
    requires |more| <= 1 && (more != [] ==> !IsLetter(steps[i].ids[k]))
    requires var run := Leaving(steps, i, steps[i].ids[k], more); |run| <= capacity && Finished(run, capacity)
    ensures LeavesIn(row, steps, active, target, capacity, Leaving(steps, i, steps[i].ids[k], more))
  {
    var t := steps[i].ids[k];
    var run, rank' := Leaving(steps, i, t, more), Steered(steps, i, t);
    var oracle' := After(oracle, Path(steps)[..i] + [t], more);
    AdmittedEligible(row, steps, active, target, capacity, oracle, rank, i, k);
    forall j | 0 <= j < |steps| ensures oracle'(Path(steps)[..j]) == oracle(Path(steps)[..j]) {
      OtherPath(steps, i, t, j);
    }
    SteeredExplains(row, steps, active, target, capacity, oracle, rank, i, t, oracle');
    forall j | 0 <= j < |run| ensures Wins(oracle', rank', target, run, j) {
      LeavingParts(steps, i, t, more, j);
      if j < i {
        LoggedEligible(row, steps, active, target, capacity, oracle', rank', j);
        SteeredWins(steps, i, t, oracle'(run[..j]), target, j);
      } else if j == i {
        OtherPath(steps, i, t, i);
        SteeredLeaves(steps, i, t, oracle'(run[..j]), target);
      } else {
        OnlyCandidate(run[..j], rank', target, more[0]);
      }
    }
    LeavingLetters(row, steps, oracle, capacity, i, t, more);
    AlongRun(oracle', rank', target, capacity, run);
    assert World(row, steps, active, target, capacity, oracle', rank', Along(run), run);
  }

  // --------------------------------------------------------------------------- where runs go

  /** Where a run under the larger window leaves the log, it takes a candidate that only the larger
      window admits. */
  lemma {:induction false} LeavesForAdmitted(row: Row, steps: seq<Step>, active: int, target: int, capacity: nat, oracle: Oracle,
                                             rank: Ranking, next: seq<Token> -> Option<Token>, run: seq<Token>, n: nat)
    returns (i: nat, k: nat)
    requires World(row, steps, active, target, capacity, oracle, rank, next, run) && active < target && n <= |steps|
    requires (forall j :: 0 <= j < |steps| ==> Parsed(steps[j])) && Path(steps)[..n] <= run && run != Path(steps)
    ensures Admitted(steps, active, target, i, k) && i < |run| && run[i] == steps[i].ids[k]
    decreases |steps| - n
  {
    if n == |steps| {
      assert Path(steps)[..n] == Path(steps);
      RunEnds(steps, next, capacity, run);
    } else {
      var here, step := Path(steps)[..n], steps[n];
      RunGoesOn(steps, next, capacity, run, n);
      assert Observes(step, oracle(here)) && IsWinner(oracle(here), here, rank, active, step.sampled);
      if run[n] == step.sampled {
        PathExtends(steps, run, n);
        i, k := LeavesForAdmitted(row, steps, active, target, capacity, oracle, rank, next, run, n + 1);
      } else {
        i := n;
        k := AdmittedAt(step, oracle(here), here, rank, active, target, run[n]);
      }
    }
  }

  lemma AdmittedAt(step: Step, candidates: Candidates, path: seq<Token>, rank: Ranking, active: int, target: int, t: Token)
    returns (k: nat)
    requires Observes(step, candidates) && active < target && t != step.sampled
    requires IsWinner(candidates, path, rank, active, step.sampled) && IsWinner(candidates, path, rank, target, t)
    ensures k < |step.ids| && step.ids[k] == t && active < RawDistances(step)[k] <= target
  {
    k :| 0 <= k < |step.ids| && step.ids[k] == t;
    DistanceOf(step, candidates, k);
    assert Eligible(candidates, target, step.sampled);
  }

  /** The replay set is exact: a row belongs to it exactly when some model and some hidden order that
      explain its log make the larger window take another path. */
  lemma ReplayExactly(row: Row, steps: seq<Step>, active: int, analysis: int, target: nat, capacity: nat, oracle: Oracle, rank: Ranking)
    requires Explained(row, steps, active, capacity, oracle, rank) && active < target <= analysis
    requires forall j :: 0 <= j < |steps| ==> Parsed(steps[j])
    ensures InReplay(NearestExcluded(AllDistances(steps), active, analysis), target) <==>
              exists run :: LeavesIn(row, steps, active, target, capacity, run) && run != Path(steps)
  {
    var nearest := NearestExcluded(AllDistances(steps), active, analysis);
    if InReplay(nearest, target) {
      var i, k := DistanceListed(steps, nearest.value);
      var t := steps[i].ids[k];
      var more := if IsLetter(t) || i + 1 == capacity then [] else [FIRST_LETTER];
      var run := Leaving(steps, i, t, more);
      AdmittedEligible(row, steps, active, target, capacity, oracle, rank, i, k);
      AdmittedRun(row, steps, active, target, capacity, oracle, rank, i, k, more);
      assert run[i] == t && Path(steps)[i] == steps[i].sampled;
    } else if run :| LeavesIn(row, steps, active, target, capacity, run) && run != Path(steps) {
      var oracle', rank', next :| World(row, steps, active, target, capacity, oracle', rank', next, run);
      OutsideUnchanged(row, steps, active, analysis, target, capacity, oracle', rank', next, run);
    }
  }

  // -------------------------------------------------------------------------- exact verdicts

  /** A newly admitted candidate is the right answer, or no answer with room left for one. */
  ghost predicate CanTurnRight(row: Row, steps: seq<Step>, active: int, target: int, capacity: nat, i: int, k: int)
    requires forall j :: 0 <= j < |steps| ==> Parsed(steps[j])
  {
    && Admitted(steps, active, target, i, k)
    && (AnswerFor(steps[i].ids[k]) == Some(row.answer) || (!IsLetter(steps[i].ids[k]) && i + 1 < capacity))
  }

  ghost predicate CanTurnWrong(row: Row, steps: seq<Step>, active: int, target: int, i: int, k: int)
    requires forall j :: 0 <= j < |steps| ==> Parsed(steps[j])
  {
    Admitted(steps, active, target, i, k) && AnswerFor(steps[i].ids[k]) != Some(row.answer)
  }

  lemma TurnsTo(row: Row, steps: seq<Step>, active: int, target: nat, capacity: nat, oracle: Oracle, rank: Ranking,
                i: nat, k: nat, a: Answer)
    requires Explained(row, steps, active, capacity, oracle, rank) && (forall j :: 0 <= j < |steps| ==> Parsed(steps[j]))
    requires active < target && Admitted(steps, active, target, i, k) && a < 10
    ensures var t := steps[i].ids[k];
            Possible(row, steps, active, target, capacity,
                     if IsLetter(t) then AnswerFor(t) == Some(row.answer) else i + 1 < capacity && a == row.answer)
  {
    var t := steps[i].ids[k];
    var more := if IsLetter(t) || i + 1 == capacity then [] else [FIRST_LETTER + a];
    var run := Leaving(steps, i, t, more);
    LeavingFinal(steps, i, t, more);
    AdmittedRun(row, steps, active, target, capacity, oracle, rank, i, k, more);
    var oracle', rank', next :| World(row, steps, active, target, capacity, oracle', rank', next, run);
  }

  /** A larger window can make the row correct exactly when it is correct already, or when it admits a
      candidate that is the right answer or leaves room for it. */
  lemma RightExactly(row: Row, steps: seq<Step>, active: int, target: nat, capacity: nat, oracle: Oracle, rank: Ranking)
    requires Explained(row, steps, active, capacity, oracle, rank) && active < target && row.answer < 10
    requires forall j :: 0 <= j < |steps| ==> Parsed(steps[j])
    ensures Possible(row, steps, active, target, capacity, true) <==>
              row.correct || exists i, k :: CanTurnRight(row, steps, active, target, capacity, i, k)
  {
    if row.correct {
      LogStaysPossible(row, steps, active, target, capacity, oracle, rank);
    }
    if i, k :| CanTurnRight(row, steps, active, target, capacity, i, k) {
      TurnsTo(row, steps, active, target, capacity, oracle, rank, i, k, row.answer);
    }
    if Possible(row, steps, active, target, capacity, true) && !row.correct {
      var i, k := RightCause(row, steps, active, target, capacity);
    }
  }

  lemma RightCause(row: Row, steps: seq<Step>, active: int, target: int, capacity: nat) returns (i: nat, k: nat)
    requires Possible(row, steps, active, target, capacity, true) && !row.correct && active < target
    requires forall j :: 0 <= j < |steps| ==> Parsed(steps[j])
    ensures CanTurnRight(row, steps, active, target, capacity, i, k)
  {
    var oracle, rank, next, run :|
      World(row, steps, active, target, capacity, oracle, rank, next, run) && Final(run) == Some(row.answer);
    assert Path(steps)[..0] == [];
    i, k := LeavesForAdmitted(row, steps, active, target, capacity, oracle, rank, next, run, 0);
    if IsLetter(run[i]) {
      LetterEnds(next, capacity, run, i);
    } else {
      assert |run| != i + 1;
    }
  }

  /** And it can make the row incorrect exactly when it is incorrect already, or when it admits a
      candidate that is not the right answer. */
  lemma WrongExactly(row: Row, steps: seq<Step>, active: int, target: nat, capacity: nat, oracle: Oracle, rank: Ranking)
    requires Explained(row, steps, active, capacity, oracle, rank) && active < target && row.answer < 10
    requires forall j :: 0 <= j < |steps| ==> Parsed(steps[j])
    ensures Possible(row, steps, active, target, capacity, false) <==>
              !row.correct || exists i, k :: CanTurnWrong(row, steps, active, target, i, k)
  {
    if !row.correct {
      LogStaysPossible(row, steps, active, target, capacity, oracle, rank);
    }
    if i, k :| CanTurnWrong(row, steps, active, target, i, k) {
      TurnsTo(row, steps, active, target, capacity, oracle, rank, i, k, if row.answer == 0 then 1 else 0);
    }
    if Possible(row, steps, active, target, capacity, false) && row.correct {
      var i, k := WrongCause(row, steps, active, target, capacity);
    }
  }

  lemma WrongCause(row: Row, steps: seq<Step>, active: int, target: int, capacity: nat) returns (i: nat, k: nat)
    requires Possible(row, steps, active, target, capacity, false) && row.correct && active < target
    requires forall j :: 0 <= j < |steps| ==> Parsed(steps[j])
    ensures CanTurnWrong(row, steps, active, target, i, k)
  {
    var oracle, rank, next, run :|
      World(row, steps, active, target, capacity, oracle, rank, next, run) && Final(run) != Some(row.answer);
    assert Path(steps)[..0] == [];
    i, k := LeavesForAdmitted(row, steps, active, target, capacity, oracle, rank, next, run, 0);
    if IsLetter(run[i]) {
      LetterEnds(next, capacity, run, i);
    }
  }

  // ------------------------------------------------------------------- the judgement is wider

  /** The judgement that a row could be correct holds wherever it can be, */
  lemma RightIsJudged(row: Row, steps: seq<Step>, active: int, target: int, capacity: nat, oracle: Oracle)
    requires Logged(row, steps, oracle, capacity) && active < target
    requires forall j :: 0 <= j < |steps| ==> Parsed(steps[j])
    requires Possible(row, steps, active, target, capacity, true)
    ensures Could(row, steps, target)
  {
    if !Could(row, steps, target) {
      var oracle', rank, next, run :|
        World(row, steps, active, target, capacity, oracle', rank, next, run) && Final(run) == Some(row.answer);
      assert Within(next, oracle', target);
      JudgedIncorrect(row, steps, target, capacity, oracle', next, run);
    }
  }

  /** but not only there: a candidate that the active window admits already, and did not pick, opens
      the row as well. */
  lemma JudgedTooWide() returns (row: Row, step: Step, candidates: Candidates)
    ensures Parsed(step) && Could(row, [step], 1)
    ensures Observes(step, candidates) && Explainable(row, [step], 0, 1)
    ensures !Possible(row, [step], 0, 1, 1, true)
  {
    step := Step(100, 0x3F80, [100, FIRST_LETTER], [0x3F80, 0x3F80]);
    row := Row(0, None, false);
    candidates := map[100 := 0x3F80, FIRST_LETTER := 0x3F80];
    EqualLogits(step);
    OpenedByOld(row, step);
    TwoObserved(step, candidates);
    TwoCandidates(row, step, candidates);
    NothingNew(row, step);
  }

  lemma NothingNew(row: Row, step: Step)
    requires Parsed(step) && RawDistances(step) == [0, 0] && !row.correct
    ensures !Possible(row, [step], 0, 1, 1, true)
  {
    if Possible(row, [step], 0, 1, 1, true) {
      var i, k := RightCause(row, [step], 0, 1, 1);
      assert false;
    }
  }

  lemma TwoObserved(step: Step, candidates: Candidates)
    requires step == Step(100, 0x3F80, [100, FIRST_LETTER], [0x3F80, 0x3F80])
    requires candidates == map[100 := 0x3F80, FIRST_LETTER := 0x3F80]
    ensures Observes(step, candidates)
  {
  }

  lemma EqualLogits(step: Step)
    requires step.ids == [100, FIRST_LETTER] && step.logits == [0x3F80, 0x3F80] && step.sampledLogit == 0x3F80
    ensures Parsed(step) && RawDistances(step) == [0, 0]
  {
    assert step.logits[..1] == [0x3F80];
    assert MaxLogit(step.logits) == 0x3F80;
  }

  lemma OpenedByOld(row: Row, step: Step)
    requires Parsed(step) && step.sampled == 100 && step.ids == [100, FIRST_LETTER] && RawDistances(step) == [0, 0] && row.answer == 0
    ensures Could(row, [step], 1)
  {
    assert Opens(row, step, 1, 1);
    assert StepOpens(row, [step][0], 1);
  }

  lemma TwoCandidates(row: Row, step: Step, candidates: Candidates)
    requires step == Step(100, 0x3F80, [100, FIRST_LETTER], [0x3F80, 0x3F80]) && row == Row(0, None, false)
    requires Observes(step, candidates)
    ensures Explainable(row, [step], 0, 1)
  {
    var oracle: Oracle := path => candidates;
    var rank: Ranking := (path: seq<Token>, t: Token) => if t == 100 then 0 else 1;
    assert Path([step]) == [100];
    assert Observes([step][0], oracle(Path([step])[..0]));
    assert Explained(row, [step], 0, 1, oracle, rank);
  }
}
