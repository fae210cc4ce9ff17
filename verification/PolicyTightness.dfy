/** The projection of a policy leaves no question open without need: what neither log decides can
    go either way, and the reported score interval is attained. */
module PolicyTightness {
  import opened Options
  import opened LetterRun
  import opened WindowSteps
  import opened InverseWindow
  import opened WindowTightness
  import opened CardinalityPolicy

  /** The first step at which the policy leaves the log. */
  ghost predicate Departs(steps: seq<Step>, policy: Policy, i: nat) {
    && i < |steps| && (forall j :: 0 <= j < |steps| ==> Parsed(steps[j]))
    && (forall j :: 0 <= j < i ==> Select(steps[j], policy) == Some(steps[j].sampled))
    && Select(steps[i], policy).Some? && Select(steps[i], policy).value != steps[i].sampled
  }

  ghost predicate Keeps(steps: seq<Step>, policy: Policy) {
    forall j :: 0 <= j < |steps| ==> Parsed(steps[j]) && Select(steps[j], policy) == Some(steps[j].sampled)
  }

  /** What the projection is when the policy leaves the log at `d`, or never. */
  ghost predicate Cases(row: Row, steps: seq<Step>, policy: Policy, d: nat, p: Projection) {
    || (Keeps(steps, policy) && p == Projection(true, row.prediction))
    || (Departs(steps, policy, d) && p == ProjectionTo(Select(steps[d], policy).value))
  }

  ghost function ProjectionTo(t: Token): Projection {
    Projection(IsLetter(t), AnswerFor(t))
  }

  lemma ProjectUnfolds(steps: seq<Step>, policy: Policy, prediction: Option<Answer>, i: nat)
    requires i < |steps| && (forall k :: 0 <= k < |steps| ==> Parsed(steps[k])) && Select(steps[i], policy).Some?
    ensures var t := Select(steps[i], policy).value;
            ProjectPath(steps, policy, prediction, i)
            == if t == steps[i].sampled && !IsLetter(t) then ProjectPath(steps, policy, prediction, i + 1)
               else Some(Projection(IsLetter(t), AnswerFor(t)))
  {
  }

  lemma ProjectSelects(steps: seq<Step>, policy: Policy, prediction: Option<Answer>, i: nat)
    requires i < |steps| && (forall k :: 0 <= k < |steps| ==> Parsed(steps[k]))
    requires ProjectPath(steps, policy, prediction, i).Some?
    ensures Select(steps[i], policy).Some?
  {
  }

  /** Only the last logged token is an answer, and then the predicted one. */
  ghost predicate EndsLogged(row: Row, steps: seq<Step>) {
    forall k :: 0 <= k < |steps| && IsLetter(steps[k].sampled) ==> k == |steps| - 1 && row.prediction == AnswerFor(steps[k].sampled)
  }

  lemma LoggedEnds(row: Row, steps: seq<Step>, capacity: nat, oracle: Oracle)
    requires Logged(row, steps, oracle, capacity)
    ensures EndsLogged(row, steps)
  {
    assert forall k :: 0 <= k < |steps| ==> Path(steps)[k] == steps[k].sampled;
  }

  ghost predicate KeepsTo(steps: seq<Step>, policy: Policy, i: nat)
    requires i <= |steps| && forall k :: 0 <= k < |steps| ==> Parsed(steps[k])
  {
    forall j :: 0 <= j < i ==> Select(steps[j], policy) == Some(steps[j].sampled)
  }

  /** The projection is inexact only where the policy leaves the log for a token that is no answer,
      and is that token's answer wherever it has one. */
  lemma {:induction false} CasesFrom(row: Row, steps: seq<Step>, policy: Policy, i: nat) returns (d: nat)
    requires EndsLogged(row, steps) && i <= |steps| && (forall k :: 0 <= k < |steps| ==> Parsed(steps[k]))
    requires KeepsTo(steps, policy, i) && ProjectPath(steps, policy, row.prediction, i).Some?
    ensures Cases(row, steps, policy, d, ProjectPath(steps, policy, row.prediction, i).value)
    decreases |steps| - i
  {
    d := i;
    if i < |steps| {
      ProjectSelects(steps, policy, row.prediction, i);
      ProjectUnfolds(steps, policy, row.prediction, i);
      if Select(steps[i], policy).value == steps[i].sampled {
        assert KeepsTo(steps, policy, i + 1);
        if !IsLetter(steps[i].sampled) {
          d := CasesFrom(row, steps, policy, i + 1);
        }
      }
    }
  }

  lemma ProjectionCases(row: Row, steps: seq<Step>, policy: Policy, capacity: nat, oracle: Oracle) returns (d: nat)
    requires Logged(row, steps, oracle, capacity) && (forall k :: 0 <= k < |steps| ==> Parsed(steps[k]))
    requires ProjectPath(steps, policy, row.prediction, 0).Some?
    ensures Cases(row, steps, policy, d, ProjectPath(steps, policy, row.prediction, 0).value)
  {
    LoggedEnds(row, steps, capacity, oracle);
    d := CasesFrom(row, steps, policy, 0);
  }

  /** What the policy picks at each step. */
  ghost function Choices(steps: seq<Step>, policy: Policy): (r: seq<Option<Token>>)
    requires forall k :: 0 <= k < |steps| ==> Parsed(steps[k])
    ensures |r| == |steps|
  {
    seq(|steps|, i requires 0 <= i < |steps| => Select(steps[i], policy))
  }

  /** Which suffixes of the log are refused. */
  ghost function Refusals(steps: seq<Step>, policy: Policy, prediction: Option<Answer>): (r: seq<bool>)
    requires forall k :: 0 <= k < |steps| ==> Parsed(steps[k])
    ensures |r| == |steps| + 1
  {
    seq(|steps| + 1, i requires 0 <= i <= |steps| => ProjectPath(steps, policy, prediction, i).None?)
  }

  /** The walk along the log goes on from step `i` on. */
  ghost predicate GoesOn(choices: seq<Option<Token>>, path: seq<Token>, i: int)
    requires 0 <= i < |choices| == |path|
  {
    choices[i] == Some(path[i]) && !IsLetter(path[i])
  }

  ghost predicate RefusedAt(choices: seq<Option<Token>>, path: seq<Token>, i: nat, j: int)
    requires |choices| == |path|
  {
    i <= j < |choices| && choices[j].None? && forall k :: i <= k < j ==> GoesOn(choices, path, k)
  }

  ghost predicate Walks(refused: seq<bool>, choices: seq<Option<Token>>, path: seq<Token>, k: int)
    requires 0 <= k < |choices| == |path| && |refused| == |path| + 1
  {
    refused[k] <==> choices[k].None? || (GoesOn(choices, path, k) && refused[k + 1])
  }

  /** A walk that is refused at a step or goes on to the next one is refused exactly when it gets to
      a refused step. */
  lemma {:induction false} WalkRefused(refused: seq<bool>, choices: seq<Option<Token>>, path: seq<Token>, i: nat)
    requires i <= |choices| == |path| && |refused| == |path| + 1 && !refused[|path|]
    requires forall k :: 0 <= k < |path| ==> Walks(refused, choices, path, k)
    ensures refused[i] <==> exists j :: RefusedAt(choices, path, i, j)
    decreases |path| - i
  {
    if i < |path| {
      var n := i + 1;
      WalkRefused(refused, choices, path, n);
      assert Walks(refused, choices, path, i);
      if choices[i].None? {
        assert RefusedAt(choices, path, i, i);
      } else {
        if j :| RefusedAt(choices, path, i, j) {
          assert RefusedAt(choices, path, n, j);
        }
        if j :| RefusedAt(choices, path, n, j) {
          assert GoesOn(choices, path, i) ==> RefusedAt(choices, path, i, j);
        }
      }
    }
  }

  lemma RefusalStep(steps: seq<Step>, policy: Policy, prediction: Option<Answer>, i: nat)
    requires i < |steps| && forall k :: 0 <= k < |steps| ==> Parsed(steps[k])
    ensures Walks(Refusals(steps, policy, prediction), Choices(steps, policy), Path(steps), i)
  {
  }

  /** A path is refused exactly when the policy refuses a step before it leaves or ends the log. */
  lemma PathRefused(steps: seq<Step>, policy: Policy, prediction: Option<Answer>)
    requires forall k :: 0 <= k < |steps| ==> Parsed(steps[k])
    ensures Refusals(steps, policy, prediction)[0] == ProjectPath(steps, policy, prediction, 0).None?
    ensures Refusals(steps, policy, prediction)[0] <==> exists j :: RefusedAt(Choices(steps, policy), Path(steps), 0, j)
  {
    var refused, choices, path := Refusals(steps, policy, prediction), Choices(steps, policy), Path(steps);
    forall k | 0 <= k < |path| ensures Walks(refused, choices, path, k) {
      RefusalStep(steps, policy, prediction, k);
    }
    WalkRefused(refused, choices, path, 0);
  }

  lemma OneDeparture(steps: seq<Step>, policy: Policy, i: nat, j: nat)
    requires Departs(steps, policy, i) && Departs(steps, policy, j)
    ensures i == j
  {
  }

  // -------------------------------------------------------------------------- chosen runs

  ghost predicate Takes(oracle: Oracle, policy: Policy, run: seq<Token>, j: nat)
    requires j < |run|
  {
    Picks(oracle(run[..j]), policy, run[j])
  }

  lemma PolicyAlong(oracle: Oracle, policy: Policy, capacity: nat, run: seq<Token>)
    requires forall j :: 0 <= j < |run| ==> Takes(oracle, policy, run, j)
    requires |run| <= capacity && Finished(run, capacity) && forall j :: 0 <= j < |run| - 1 ==> !IsLetter(run[j])
    ensures PolicyRun(Along(run), oracle, policy, capacity, run)
  {
    var next := Along(run);
    forall path | next(path).Some? ensures Picks(oracle(path), policy, next(path).value) {
      assert Takes(oracle, policy, run, |path|);
    }
    assert forall i :: 0 <= i < |run| ==> run[..i] == run[..|run[..i]|];
  }

  lemma LoggedPicks(row: Row, steps: seq<Step>, policy: Policy, capacity: nat, oracle: Oracle, j: nat)
    requires Logged(row, steps, oracle, capacity) && j < |steps| && Parsed(steps[j]) && Select(steps[j], policy).Some?
    ensures Picks(oracle(Path(steps)[..j]), policy, Select(steps[j], policy).value)
  {
    assert Observes(steps[j], oracle(Path(steps)[..j]));
    SelectIsPolicy(steps[j], oracle(Path(steps)[..j]), policy);
  }

  lemma PicksOnly(policy: Policy, t: Token)
    requires PolicyOk(policy)
    ensures Picks(map[t := 0], policy, t)
  {
    assert Band(map[t := 0], 0, policy.window) == {t};
  }

  /** The policy's run where it leaves the log for good, or for a token with one successor. */
  lemma DepartingRun(row: Row, steps: seq<Step>, policy: Policy, capacity: nat, oracle: Oracle, i: nat, more: seq<Token>)
    requires Logged(row, steps, oracle, capacity) && Departs(steps, policy, i) && PolicyOk(policy)
    requires var t := Select(steps[i], policy).value;
             && |more| <= 1 && (more != [] ==> !IsLetter(t) && oracle(Path(steps)[..i] + [t]) == map[more[0] := 0])
             && |Leaving(steps, i, t, more)| <= capacity && Finished(Leaving(steps, i, t, more), capacity)
    ensures var run := Leaving(steps, i, Select(steps[i], policy).value, more);
            PolicyRun(Along(run), oracle, policy, capacity, run)
  {
    var t := Select(steps[i], policy).value;
    var run := Leaving(steps, i, t, more);
    forall j | 0 <= j < |run| ensures Takes(oracle, policy, run, j) {
      LeavingParts(steps, i, t, more, j);
      if j <= i {
        LoggedPicks(row, steps, policy, capacity, oracle, j);
      } else {
        PicksOnly(policy, more[0]);
      }
    }
    LeavingLetters(row, steps, oracle, capacity, i, t, more);
    PolicyAlong(oracle, policy, capacity, run);
  }

  /** Where the projection is exact, the policy has a run. */
  lemma ExactRun(row: Row, steps: seq<Step>, policy: Policy, capacity: nat, oracle: Oracle) returns (run: seq<Token>)
    requires Logged(row, steps, oracle, capacity) && PolicyOk(policy) && (forall k :: 0 <= k < |steps| ==> Parsed(steps[k]))
    requires ProjectPath(steps, policy, row.prediction, 0).Some? && ProjectPath(steps, policy, row.prediction, 0).value.exact
    ensures PolicyRun(Along(run), oracle, policy, capacity, run)
  {
    var d := ProjectionCases(row, steps, policy, capacity, oracle);
    if Keeps(steps, policy) {
      run := Path(steps);
      forall j | 0 <= j < |run| ensures Takes(oracle, policy, run, j) {
        LoggedPicks(row, steps, policy, capacity, oracle, j);
      }
      PolicyAlong(oracle, policy, capacity, run);
    } else {
      run := Leaving(steps, d, Select(steps[d], policy).value, []);
      DepartingRun(row, steps, policy, capacity, oracle, d, []);
    }
  }

  // ----------------------------------------------------------------- two logs of one model

  /** The log does not go through `path`. */
  ghost predicate Avoids(steps: seq<Step>, path: seq<Token>) {
    forall j :: 0 <= j < |steps| ==> Path(steps)[..j] != path
  }

  lemma Relogged(row: Row, steps: seq<Step>, capacity: nat, oracle: Oracle, path: seq<Token>, more: seq<Token>)
    requires Logged(row, steps, oracle, capacity) && Avoids(steps, path)
    ensures Logged(row, steps, After(oracle, path, more), capacity)
  {
    forall j | 0 <= j < |steps| ensures Observes(steps[j], After(oracle, path, more)(Path(steps)[..j])) {
      assert Observes(steps[j], oracle(Path(steps)[..j])) && Path(steps)[..j] != path;
    }
  }

  /** The point just after the policy's departure from a log. */
  ghost function Beyond(steps: seq<Step>, policy: Policy, i: nat): seq<Token>
    requires Departs(steps, policy, i)
  {
    Path(steps)[..i] + [Select(steps[i], policy).value]
  }

  /** A log that the policy leaves no later does not go past the policy's departure from another. */
  lemma EarlierAvoids(rowA: Row, a: seq<Step>, rowB: Row, b: seq<Step>, policy: Policy, capacity: nat, oracle: Oracle, i: nat, k: nat)
    requires Logged(rowA, a, oracle, capacity) && Logged(rowB, b, oracle, capacity)
    requires Departs(a, policy, i) && Departs(b, policy, k) && k <= i
    ensures Avoids(b, Beyond(a, policy, i))
  {
    forall j | 0 <= j < |b| ensures Path(b)[..j] != Beyond(a, policy, i) {
      if Path(b)[..j] == Beyond(a, policy, i) {
        SameBefore(a, b, policy, i, j, k);
        assert Observes(a[k], oracle(Path(a)[..k])) && Observes(b[k], oracle(Path(b)[..k]));
        OrderIndependent(a[k], b[k], oracle(Path(a)[..k]), policy);
      }
    }
  }

  lemma SameBefore(a: seq<Step>, b: seq<Step>, policy: Policy, i: nat, j: nat, k: nat)
    requires Departs(a, policy, i) && j < |b| && Path(b)[..j] == Beyond(a, policy, i) && k <= i
    ensures k < |b| && Path(a)[..k] == Path(b)[..k] && Select(a[k], policy) == Some(b[k].sampled)
  {
    var beyond := Beyond(a, policy, i);
    assert |Path(b)[..j]| == i + 1;
    assert Path(b)[..k] == beyond[..k] == Path(a)[..k];
    assert b[k].sampled == Path(b)[..j][k] == beyond[k];
  }

  ghost predicate ReplayAvoids(q: Question, path: seq<Token>) {
    q.replay.Some? ==> Avoids(q.replay.value.1, path)
  }

  /** The question's logs come from the model. */
  ghost predicate FromModel(q: Question, capacity: nat, oracle: Oracle) {
    && Logged(q.base, q.baseSteps, oracle, capacity)
    && (q.replay.Some? ==> Logged(q.replay.value.0, q.replay.value.1, oracle, capacity))
  }

  ghost predicate IsLogOf(q: Question, row: Row, steps: seq<Step>) {
    (row == q.base && steps == q.baseSteps) || (q.replay.Some? && (row, steps) == q.replay.value)
  }

  /** The later of the policy's departures from the question's logs: for a token that is no answer,
      to where neither log goes. */
  ghost predicate LastDeparture(q: Question, policy: Policy, row: Row, steps: seq<Step>, i: nat) {
    && IsLogOf(q, row, steps) && Departs(steps, policy, i) && !IsLetter(Select(steps[i], policy).value)
    && Avoids(q.baseSteps, Beyond(steps, policy, i)) && ReplayAvoids(q, Beyond(steps, policy, i))
    && forall k: nat :: Leaves(q, policy, k) ==> k <= i
  }

  lemma OpenPath(row: Row, steps: seq<Step>, policy: Policy, capacity: nat, oracle: Oracle) returns (d: nat)
    requires Logged(row, steps, oracle, capacity) && (forall k :: 0 <= k < |steps| ==> Parsed(steps[k]))
    requires ProjectPath(steps, policy, row.prediction, 0).Some? && !ProjectPath(steps, policy, row.prediction, 0).value.exact
    ensures Departs(steps, policy, d) && !IsLetter(Select(steps[d], policy).value)
    ensures forall k: nat :: Departs(steps, policy, k) ==> k == d
    ensures Avoids(steps, Beyond(steps, policy, d))
  {
    d := ProjectionCases(row, steps, policy, capacity, oracle);
    EarlierAvoids(row, steps, row, steps, policy, capacity, oracle, d, d);
    forall k: nat | Departs(steps, policy, k) ensures k == d {
      OneDeparture(steps, policy, k, d);
    }
  }

  /** An open question has a last departure. */
  lemma OpenDeparts(q: Question, policy: Policy, capacity: nat, oracle: Oracle) returns (row: Row, steps: seq<Step>, i: nat)
    requires QuestionParsed(q) && FromModel(q, capacity, oracle)
    requires ProjectQuestion(q, policy).Some? && !ProjectQuestion(q, policy).value.exact
    ensures LastDeparture(q, policy, row, steps, i)
  {
    var d := OpenPath(q.base, q.baseSteps, policy, capacity, oracle);
    row, steps, i := q.base, q.baseSteps, d;
    if q.replay.Some? {
      var (other, more) := q.replay.value;
      var k := OpenPath(other, more, policy, capacity, oracle);
      if k <= d {
        EarlierAvoids(row, steps, other, more, policy, capacity, oracle, d, k);
      } else {
        EarlierAvoids(other, more, row, steps, policy, capacity, oracle, k, d);
        row, steps, i := other, more, k;
      }
    }
  }

  /** The policy leaves one of the question's logs at step `k`. */
  ghost predicate Leaves(q: Question, policy: Policy, k: nat) {
    Departs(q.baseSteps, policy, k) || (q.replay.Some? && Departs(q.replay.value.1, policy, k))
  }

  /** After the last departure there is room for an answer. */
  ghost predicate Room(q: Question, policy: Policy, capacity: nat) {
    forall k: nat :: Leaves(q, policy, k) ==> k + 1 < capacity
  }

  // ------------------------------------------------------------------------ open questions

  lemma SelectedOk(step: Step, policy: Policy)
    requires Parsed(step) && Select(step, policy).Some?
    ensures PolicyOk(policy)
  {
  }

  /** With room, the run of an open question can end with any answer. */
  lemma AnyAnswer(q: Question, policy: Policy, capacity: nat, oracle: Oracle, a: Answer)
    requires QuestionParsed(q) && FromModel(q, capacity, oracle) && a < 10 && Room(q, policy, capacity)
    requires ProjectQuestion(q, policy).Some? && !ProjectQuestion(q, policy).value.exact
    ensures PolicyPossible(q, policy, capacity, a == q.base.answer)
  {
    var row, steps, i := OpenDeparts(q, policy, capacity, oracle);
    SelectedOk(steps[i], policy);
    assert Leaves(q, policy, i);
    var more := [FIRST_LETTER + a];
    var oracle' := After(oracle, Beyond(steps, policy, i), more);
    Relogged(q.base, q.baseSteps, capacity, oracle, Beyond(steps, policy, i), more);
    if q.replay.Some? {
      Relogged(q.replay.value.0, q.replay.value.1, capacity, oracle, Beyond(steps, policy, i), more);
    }
    var run := Leaving(steps, i, Select(steps[i], policy).value, more);
    assert run[|run| - 1] == FIRST_LETTER + a;
    DepartingRun(row, steps, policy, capacity, oracle', i, more);
    assert PolicyWorld(q, policy, capacity, oracle', Along(run), run);
  }

  /** Without room, the run ends without an answer. */
  lemma NoAnswer(q: Question, policy: Policy, capacity: nat, oracle: Oracle)
    requires QuestionParsed(q) && FromModel(q, capacity, oracle) && !Room(q, policy, capacity)
    requires ProjectQuestion(q, policy).Some? && !ProjectQuestion(q, policy).value.exact
    ensures PolicyPossible(q, policy, capacity, false)
  {
    var row, steps, i := OpenDeparts(q, policy, capacity, oracle);
    SelectedOk(steps[i], policy);
    var run := Leaving(steps, i, Select(steps[i], policy).value, []);
    DepartingRun(row, steps, policy, capacity, oracle, i, []);
    assert PolicyWorld(q, policy, capacity, oracle, Along(run), run);
  }

  lemma {:induction false} PolicyFollows(row: Row, steps: seq<Step>, policy: Policy, capacity: nat, oracle: Oracle,
                                         next: seq<Token> -> Option<Token>, run: seq<Token>, i: nat)
    requires Logged(row, steps, oracle, capacity) && PolicyRun(next, oracle, policy, capacity, run) && i <= |steps|
    requires forall j :: 0 <= j < i ==> Parsed(steps[j]) && Select(steps[j], policy) == Some(steps[j].sampled)
    ensures Path(steps)[..i] <= run
  {
    if i > 0 {
      PolicyFollows(row, steps, policy, capacity, oracle, next, run, i - 1);
      PolicyChoice(row, steps, policy, capacity, oracle, next, run, i - 1);
    }
  }

  lemma NoRoomNoAnswer(q: Question, policy: Policy, capacity: nat)
    requires QuestionParsed(q) && ProjectQuestion(q, policy).Some? && !ProjectQuestion(q, policy).value.exact
    requires PolicyPossible(q, policy, capacity, true)
    ensures Room(q, policy, capacity)
  {
    var oracle, next, run :|
      PolicyWorld(q, policy, capacity, oracle, next, run) && Final(run) == Some(q.base.answer);
    var row, steps, i := OpenDeparts(q, policy, capacity, oracle);
    PolicyFollows(row, steps, policy, capacity, oracle, next, run, i);
    PolicyChoice(row, steps, policy, capacity, oracle, next, run, i);
    assert run[i] == Select(steps[i], policy).value && i < |run| <= capacity;
    assert |run| != i + 1;
  }

  /** A question that the projection leaves open can be wrong, and can be right exactly when there is
      room for an answer after the policy has left the logs. */
  lemma InexactIsOpen(q: Question, policy: Policy, capacity: nat, oracle: Oracle)
    requires QuestionParsed(q) && FromModel(q, capacity, oracle) && q.base.answer < 10
    requires ProjectQuestion(q, policy).Some? && !ProjectQuestion(q, policy).value.exact
    ensures PolicyPossible(q, policy, capacity, false)
    ensures PolicyPossible(q, policy, capacity, true) <==> Room(q, policy, capacity)
  {
    if Room(q, policy, capacity) {
      AnyAnswer(q, policy, capacity, oracle, q.base.answer);
      AnyAnswer(q, policy, capacity, oracle, if q.base.answer == 0 then 1 else 0);
    } else {
      NoAnswer(q, policy, capacity, oracle);
    }
    if PolicyPossible(q, policy, capacity, true) {
      NoRoomNoAnswer(q, policy, capacity);
    }
  }

  /** An exact projection is what some model consistent with the logs gives. */
  lemma ExactPossible(q: Question, policy: Policy, capacity: nat, oracle: Oracle)
    requires QuestionParsed(q) && FromModel(q, capacity, oracle) && PolicyOk(policy)
    requires ProjectQuestion(q, policy).Some? && ProjectQuestion(q, policy).value.exact
    ensures PolicyPossible(q, policy, capacity, ProjectQuestion(q, policy).value.prediction == Some(q.base.answer))
  {
    var base := ProjectPath(q.baseSteps, policy, q.base.prediction, 0);
    var run;
    if base.value.exact {
      run := ExactRun(q.base, q.baseSteps, policy, capacity, oracle);
    } else {
      run := ExactRun(q.replay.value.0, q.replay.value.1, policy, capacity, oracle);
    }
    assert PolicyWorld(q, policy, capacity, oracle, Along(run), run);
    QuestionSound(q, policy, capacity, oracle, Along(run), run);
  }

  // -------------------------------------------------------------------------- the interval

  ghost predicate QuestionExplained(q: Question, capacity: nat) {
    q.base.answer < 10 && exists oracle :: FromModel(q, capacity, oracle)
  }

  lemma QuestionAttains(q: Question, policy: Policy, capacity: nat, outcome: Outcome)
    requires QuestionParsed(q) && PolicyOk(policy) && QuestionExplained(q, capacity) && Judges(q, policy, outcome)
    ensures PolicyPossible(q, policy, capacity, Low(outcome))
    ensures Room(q, policy, capacity) ==> PolicyPossible(q, policy, capacity, High(outcome))
  {
    var oracle :| FromModel(q, capacity, oracle);
    if outcome.correctness.Some? {
      ExactPossible(q, policy, capacity, oracle);
    } else {
      InexactIsOpen(q, policy, capacity, oracle);
    }
  }

  /** The reported minimum is attained, and so is the maximum when every open question has room for
      an answer. */
  lemma PolicyIntervalAttained(questions: seq<Question>, policy: Policy, capacity: nat, outcomes: seq<Outcome>)
    returns (low: seq<bool>, high: seq<bool>)
    requires forall i :: 0 <= i < |questions| ==> QuestionParsed(questions[i]) && QuestionExplained(questions[i], capacity)
    requires PolicyOk(policy) && AllJudged(questions, policy, outcomes)
    ensures AllPossible(questions, policy, capacity, low) && |high| == |questions|
    ensures Count(low) == Verdicts(outcomes, Some(true))
    ensures Count(high) == Verdicts(outcomes, Some(true)) + Verdicts(outcomes, None)
    ensures (forall i :: 0 <= i < |questions| ==> Room(questions[i], policy, capacity)) ==>
              AllPossible(questions, policy, capacity, high)
  {
    low := seq(|questions|, i requires 0 <= i < |questions| => Low(outcomes[i]));
    high := seq(|questions|, i requires 0 <= i < |questions| => High(outcomes[i]));
    CountLow(outcomes, low);
    CountHigh(outcomes, high);
    forall i | 0 <= i < |questions|
      ensures PolicyPossible(questions[i], policy, capacity, low[i])
      ensures Room(questions[i], policy, capacity) ==> PolicyPossible(questions[i], policy, capacity, high[i])
    {
      QuestionAttains(questions[i], policy, capacity, outcomes[i]);
    }
  }
}
