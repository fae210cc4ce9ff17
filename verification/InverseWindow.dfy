/** Projecting what a different arbitration window would have produced from the log of one run.
    Among the candidates within the window, the rule picks the one whose hidden exact logit is
    least; the log shows only BF16 logits. */
module InverseWindow {
  import opened Options
  import opened LetterRun
  import opened WindowSteps

  /** The hidden order of the exact logits at each point of a generation. */
  type Ranking = (seq<Token>, Token) -> int

  ghost predicate IsWinner(candidates: Candidates, path: seq<Token>, rank: Ranking, window: int, t: Token) {
    && Eligible(candidates, window, t)
    && forall u :: Eligible(candidates, window, u) && u != t ==> rank(path, t) < rank(path, u)
  }

  /** `next` applies the window rule at every point. */
  ghost predicate Follows(next: seq<Token> -> Option<Token>, oracle: Oracle, rank: Ranking, window: int) {
    forall path :: next(path).Some? ==> IsWinner(oracle(path), path, rank, window, next(path).value)
  }

  /** The logged tokens were chosen under the active window. */
  ghost predicate ChosenUnder(steps: seq<Step>, oracle: Oracle, rank: Ranking, active: int) {
    forall i :: 0 <= i < |steps| ==> IsWinner(oracle(Path(steps)[..i]), Path(steps)[..i], rank, active, steps[i].sampled)
  }

  /** Everything hidden that the log is consistent with, and a run under another window. */
  ghost predicate World(row: Row, steps: seq<Step>, active: int, target: int, capacity: nat,
                        oracle: Oracle, rank: Ranking, next: seq<Token> -> Option<Token>, run: seq<Token>) {
    && Logged(row, steps, oracle, capacity) && ChosenUnder(steps, oracle, rank, active)
    && Follows(next, oracle, rank, target) && IsRun(next, capacity, run)
  }

  // -------------------------------------------------------------------- smaller windows

  datatype Outcome = Outcome(correctness: Option<bool>, prediction: Option<Answer>, kept: bool)

  /** Answers of the first `n` candidates that are within the window. */
  function EligibleAnswers(step: Step, window: int, n: nat): (r: seq<Option<Answer>>)
    requires Parsed(step) && n <= |step.ids|
    ensures forall i :: 0 <= i < n && RawDistances(step)[i] <= window ==> AnswerFor(step.ids[i]) in r
    ensures forall a :: a in r ==> exists i :: 0 <= i < n && RawDistances(step)[i] <= window && AnswerFor(step.ids[i]) == a
  {
    if n == 0 then []
    else
      var before := EligibleAnswers(step, window, n - 1);
      if RawDistances(step)[n - 1] <= window then before + [AnswerFor(step.ids[n - 1])] else before
  }

  /** What a smaller window makes of a step whose logged token it excludes. */
  function Diverged(answers: seq<Option<Answer>>, answer: Answer): Outcome
    requires answers != []
  {
    if None in answers then Outcome(None, None, false)
    else
      var first := answers[0] == Some(answer);
      if exists a :: a in answers && (a == Some(answer)) != first then Outcome(None, None, false)
      else Outcome(Some(first), if |answers| == 1 then answers[0] else None, false)
  }

  /** `project_smaller_window_outcome` from step `i` on: nothing when the input is refused. */
  function ProjectFrom(row: Row, steps: seq<Step>, target: int, i: nat): (r: Option<Outcome>)
    requires i <= |steps| && forall k :: 0 <= k < |steps| ==> Parsed(steps[k])
    decreases |steps| - i
  {
    if i == |steps| then Some(Outcome(Some(row.correct), row.prediction, true))
    else
      var distances := Distances(steps[i]);
      if distances.None? then None
      else if distances.value[0] <= target then ProjectFrom(row, steps, target, i + 1)
      else
        var answers := EligibleAnswers(steps[i], target, |steps[i].ids|);
        if answers == [] then None else Some(Diverged(answers, row.answer))
  }

  function ProjectSmaller(row: Row, steps: seq<Step>, target: int): (r: Option<Outcome>)
    requires forall k :: 0 <= k < |steps| ==> Parsed(steps[k])
  {
    if row.answer >= 10 || target < 0 then None else ProjectFrom(row, steps, target, 0)
  }

  /** An outcome tells the truth about a run. */
  ghost predicate Truthful(outcome: Outcome, row: Row, steps: seq<Step>, run: seq<Token>)
    requires |run| > 0
  {
    && (outcome.correctness.Some? ==> outcome.correctness.value == (Final(run) == Some(row.answer)))
    && (outcome.prediction.Some? ==> outcome.prediction == Final(run))
    && (outcome.kept ==> run == Path(steps))
  }

  /** A winner that stays eligible in a smaller window stays the winner. */
  lemma SmallerKeepsWinner(candidates: Candidates, path: seq<Token>, rank: Ranking, active: int, target: int, t: Token, u: Token)
    requires target <= active && IsWinner(candidates, path, rank, active, t) && Eligible(candidates, target, t)
    requires IsWinner(candidates, path, rank, target, u)
    ensures t == u
  {
    assert Eligible(candidates, active, u);
  }

  /** A definite divergence holds for every one of the answers. */
  lemma DivergedMeans(answers: seq<Option<Answer>>, answer: Answer, actual: Option<Answer>)
    requires actual in answers
    ensures var outcome := Diverged(answers, answer);
            && (outcome.correctness.Some? || outcome.prediction.Some? ==> actual.Some?)
            && (outcome.correctness.Some? ==> outcome.correctness.value == (actual == Some(answer)))
            && (outcome.prediction.Some? ==> outcome.prediction == actual)
            && !outcome.kept
  {
  }

  /** The answer of the run's token is one of the eligible answers. */
  lemma AnswerListed(step: Step, candidates: Candidates, target: int, t: Token)
    requires Observes(step, candidates) && Eligible(candidates, target, t)
    ensures AnswerFor(t) in EligibleAnswers(step, target, |step.ids|)
  {
    var k :| 0 <= k < |step.ids| && step.ids[k] == t;
    DistanceOf(step, candidates, k);
  }

  /** A run that leaves the log at step `i` ends there with one of the eligible answers, if all
      of them are letters. */
  lemma DivergedTruthful(row: Row, steps: seq<Step>, oracle: Oracle, target: int, next: seq<Token> -> Option<Token>,
                         capacity: nat, run: seq<Token>, i: nat)
    requires IsRun(next, capacity, run) && i < |steps| && i < |run|
    requires Observes(steps[i], oracle(Path(steps)[..i])) && Eligible(oracle(Path(steps)[..i]), target, run[i])
    requires EligibleAnswers(steps[i], target, |steps[i].ids|) != []
    ensures Truthful(Diverged(EligibleAnswers(steps[i], target, |steps[i].ids|), row.answer), row, steps, run)
  {
    var answers := EligibleAnswers(steps[i], target, |steps[i].ids|);
    AnswerListed(steps[i], oracle(Path(steps)[..i]), target, run[i]);
    DivergedMeans(answers, row.answer, AnswerFor(run[i]));
    if IsLetter(run[i]) {
      LetterEnds(next, capacity, run, i);
    }
  }

  /** Where the run under the smaller window goes from a point of the log. */
  lemma RunChoice(row: Row, steps: seq<Step>, active: int, target: int, capacity: nat, oracle: Oracle,
                  rank: Ranking, next: seq<Token> -> Option<Token>, run: seq<Token>, i: nat)
    requires World(row, steps, active, target, capacity, oracle, rank, next, run)
    requires target <= active && i < |steps| && Path(steps)[..i] <= run
    ensures Observes(steps[i], oracle(Path(steps)[..i]))
    ensures i < |run| && Eligible(oracle(Path(steps)[..i]), target, run[i])
    ensures RawDistances(steps[i])[0] <= target ==> Path(steps)[..i + 1] <= run
  {
    var step, here := steps[i], Path(steps)[..i];
    assert Observes(step, oracle(here)) && IsWinner(oracle(here), here, rank, active, step.sampled);
    RunGoesOn(steps, next, capacity, run, i);
    DistanceOf(step, oracle(here), 0);
    if RawDistances(step)[0] <= target {
      SmallerKeepsWinner(oracle(here), here, rank, active, target, step.sampled, run[i]);
      PathExtends(steps, run, i);
    }
  }

  lemma ProjectUnfolds(row: Row, steps: seq<Step>, target: int, i: nat)
    requires i < |steps| && (forall k :: 0 <= k < |steps| ==> Parsed(steps[k])) && Accepted(steps[i])
    ensures var answers := EligibleAnswers(steps[i], target, |steps[i].ids|);
            ProjectFrom(row, steps, target, i)
            == if RawDistances(steps[i])[0] <= target then ProjectFrom(row, steps, target, i + 1)
               else if answers == [] then None else Some(Diverged(answers, row.answer))
  {
    AcceptedDefined(steps[i]);
  }

  lemma {:induction false} ProjectFromTruthful(row: Row, steps: seq<Step>, active: int, target: int, capacity: nat, oracle: Oracle,
                                               rank: Ranking, next: seq<Token> -> Option<Token>, run: seq<Token>, i: nat)
    requires World(row, steps, active, target, capacity, oracle, rank, next, run)
    requires target <= active && i <= |steps| && Path(steps)[..i] <= run
    ensures forall k :: 0 <= k < |steps| ==> Parsed(steps[k])
    ensures ProjectFrom(row, steps, target, i).Some? ==> Truthful(ProjectFrom(row, steps, target, i).value, row, steps, run)
    decreases |steps| - i
  {
    var path := Path(steps);
    if i == |steps| {
      assert path[..i] == path;
      RunEnds(steps, next, capacity, run);
    } else {
      RunChoice(row, steps, active, target, capacity, oracle, rank, next, run, i);
      ProjectUnfolds(row, steps, target, i);
      if RawDistances(steps[i])[0] <= target {
        ProjectFromTruthful(row, steps, active, target, capacity, oracle, rank, next, run, i + 1);
      } else if EligibleAnswers(steps[i], target, |steps[i].ids|) != [] {
        DivergedTruthful(row, steps, oracle, target, next, capacity, run, i);
      }
    }
  }

  /** Whatever the hidden logits and the model's other continuations are, a definite projection
      is what the smaller window produces. */
  lemma SmallerWindowSound(row: Row, steps: seq<Step>, active: int, target: int, capacity: nat, oracle: Oracle,
                           rank: Ranking, next: seq<Token> -> Option<Token>, run: seq<Token>)
    requires World(row, steps, active, target, capacity, oracle, rank, next, run) && target <= active
    ensures forall k :: 0 <= k < |steps| ==> Parsed(steps[k])
    ensures ProjectSmaller(row, steps, target).Some? ==> Truthful(ProjectSmaller(row, steps, target).value, row, steps, run)
  {
    assert Path(steps)[..0] == [];
    ProjectFromTruthful(row, steps, active, target, capacity, oracle, rank, next, run, 0);
  }

  /** Accepted steps, a valid answer and a non-negative window are never refused. */
  lemma {:induction false} ProjectionDefined(row: Row, steps: seq<Step>, target: nat, i: nat)
    requires forall k :: 0 <= k < |steps| ==> Parsed(steps[k]) && Accepted(steps[k])
    requires i <= |steps|
    ensures ProjectFrom(row, steps, target, i).Some?
    decreases |steps| - i
  {
    if i < |steps| {
      AcceptedDefined(steps[i]);
      var k := SomeEligible(steps[i], target);
      assert AnswerFor(steps[i].ids[k]) in EligibleAnswers(steps[i], target, |steps[i].ids|);
      ProjectionDefined(row, steps, target, i + 1);
    }
  }

  /** Leaving a divergence with mixed answers open is necessary: every eligible candidate is the
      smaller window's choice for some hidden order that explains the log. */
  lemma AnyEligibleCanWin(candidates: Candidates, path: seq<Token>, rank: Ranking, active: int, target: int, sampled: Token, t: Token)
    returns (other: Ranking)
    requires target <= active && IsWinner(candidates, path, rank, active, sampled)
    requires !Eligible(candidates, target, sampled) && Eligible(candidates, target, t)
    ensures IsWinner(candidates, path, other, active, sampled) && IsWinner(candidates, path, other, target, t)
    ensures forall p, u :: p != path ==> other(p, u) == rank(p, u)
  {
    other := (p: seq<Token>, u: Token) => if p != path then rank(p, u) else if u == sampled then 0 else if u == t then 1 else 2;
  }

  // ---------------------------------------------------------------------- score interval

  function Count(flags: seq<bool>): (n: nat)
    ensures n <= |flags|
  {
    if |flags| == 0 then 0 else Count(flags[..|flags| - 1]) + if flags[|flags| - 1] then 1 else 0
  }

  function Verdicts(outcomes: seq<Outcome>, verdict: Option<bool>): (n: nat) {
    if |outcomes| == 0 then 0
    else Verdicts(outcomes[..|outcomes| - 1], verdict) + if outcomes[|outcomes| - 1].correctness == verdict then 1 else 0
  }

  /** The score partition of `analyze`. */
  method ScorePartition(outcomes: seq<Outcome>) returns (correct: nat, incorrect: nat, unresolved: nat)
    ensures correct == Verdicts(outcomes, Some(true)) && incorrect == Verdicts(outcomes, Some(false))
    ensures unresolved == Verdicts(outcomes, None)
    ensures correct + incorrect + unresolved == |outcomes|
  {
    correct, incorrect, unresolved := 0, 0, 0;
    for i := 0 to |outcomes|
      invariant correct == Verdicts(outcomes[..i], Some(true)) && incorrect == Verdicts(outcomes[..i], Some(false))
      invariant unresolved == Verdicts(outcomes[..i], None)
      invariant correct + incorrect + unresolved == i
    {
      assert outcomes[..i + 1][..i] == outcomes[..i];
      match outcomes[i].correctness
      case None => unresolved := unresolved + 1;
      case Some(true) => correct := correct + 1;
      case Some(false) => incorrect := incorrect + 1;
    }
    assert outcomes[..|outcomes|] == outcomes;
  }

  lemma {:induction false} CountWithin(outcomes: seq<Outcome>, truth: seq<bool>)
    requires |outcomes| == |truth|
    requires forall i :: 0 <= i < |truth| && outcomes[i].correctness.Some? ==> truth[i] == outcomes[i].correctness.value
    ensures Verdicts(outcomes, Some(true)) <= Count(truth) <= Verdicts(outcomes, Some(true)) + Verdicts(outcomes, None)
  {
    if |truth| > 0 {
      var n := |truth| - 1;
      CountWithin(outcomes[..n], truth[..n]);
      assert outcomes[n].correctness.Some? ==> truth[n] == outcomes[n].correctness.value;
    }
  }

  /** `correct` can be the correctness of the row under the target window. */
  ghost predicate Possible(row: Row, steps: seq<Step>, active: int, target: int, capacity: nat, correct: bool) {
    exists oracle, rank, next, run ::
      World(row, steps, active, target, capacity, oracle, rank, next, run) && (correct <==> Final(run) == Some(row.answer))
  }

  /** The true score under a smaller window lies between the known correct rows and those plus
      the unresolved rows. */
  lemma SmallerScoreInterval(rows: seq<Row>, groups: seq<seq<Step>>, active: int, target: int, capacity: nat,
                             outcomes: seq<Outcome>, truth: seq<bool>)
    requires target <= active && |rows| == |groups| == |outcomes| == |truth|
    requires forall i :: 0 <= i < |rows| ==> Possible(rows[i], groups[i], active, target, capacity, truth[i])
    requires forall i :: 0 <= i < |rows| ==> Projects(rows[i], groups[i], target, outcomes[i])
    ensures Verdicts(outcomes, Some(true)) <= Count(truth) <= Verdicts(outcomes, Some(true)) + Verdicts(outcomes, None)
  {
    forall i | 0 <= i < |truth| && outcomes[i].correctness.Some?
      ensures truth[i] == outcomes[i].correctness.value
    {
      assert Projects(rows[i], groups[i], target, outcomes[i]);
      assert Possible(rows[i], groups[i], active, target, capacity, truth[i]);
      var oracle, rank, next, run :|
        World(rows[i], groups[i], active, target, capacity, oracle, rank, next, run)
        && (truth[i] <==> Final(run) == Some(rows[i].answer));
      SmallerWindowSound(rows[i], groups[i], active, target, capacity, oracle, rank, next, run);
    }
    CountWithin(outcomes, truth);
  }

  ghost predicate Projects(row: Row, steps: seq<Step>, target: int, outcome: Outcome) {
    && (forall k :: 0 <= k < |steps| ==> Parsed(steps[k]))
    && ProjectSmaller(row, steps, target) == Some(outcome)
  }
}
