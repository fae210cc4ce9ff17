/** Logged top-k steps of a generation, the distance of each candidate from the best logit in
    BF16 units in the last place, and what a step says about the model's candidates. */
module WindowSteps {
  import opened Options
  import opened LetterRun
  import opened Bf16

  /** A parsed log line. Logits are BF16 bit patterns. */
  datatype Step = Step(sampled: Token, sampledLogit: nat, ids: seq<Token>, logits: seq<nat>)

  /** What parsing guarantees. */
  predicate Parsed(step: Step) {
    && |step.ids| == |step.logits| > 0 && step.sampledLogit < 0x1_0000
    && forall i :: 0 <= i < |step.logits| ==> step.logits[i] < 0x1_0000
  }

  predicate Finite(bits: nat) {
    bits % SIGN16 < INF16
  }

  /** The comparison `a < b` of two finite BF16 numbers. */
  predicate FloatLess(a: nat, b: nat) {
    var m, n := a % SIGN16, b % SIGN16;
    if m == 0 && n == 0 then false
    else if a >= SIGN16 then (if b >= SIGN16 then m > n else true)
    else b < SIGN16 && m < n
  }

  lemma FloatLessIsNumeric(a: nat, b: nat)
    requires a < 0x1_0000 && b < 0x1_0000
    ensures FloatLess(a, b) <==> Value16(a) < Value16(b)
    ensures FloatLess(a, b) <==> OrderedBf16(a) < OrderedBf16(b)
  {
    OrderedIsNumeric(a, b);
  }

  /** `max` over floats: the first one that no other exceeds. */
  function MaxLogit(logits: seq<nat>): (r: nat)
    requires |logits| > 0
    ensures r in logits
  {
    if |logits| == 1 then logits[0]
    else
      var before, last := MaxLogit(logits[..|logits| - 1]), logits[|logits| - 1];
      if FloatLess(before, last) then last else before
  }

  lemma {:induction false} MaxLogitIsMaximal(logits: seq<nat>, i: nat)
    requires i < |logits| && forall k :: 0 <= k < |logits| ==> logits[k] < 0x1_0000
    ensures OrderedBf16(logits[i]) <= OrderedBf16(MaxLogit(logits))
  {
    if |logits| > 1 {
      var n := |logits| - 1;
      FloatLessIsNumeric(MaxLogit(logits[..n]), logits[n]);
      if i < n {
        MaxLogitIsMaximal(logits[..n], i);
      }
    }
  }

  /** The checks on a step that do not concern distances. */
  predicate Accepted(step: Step)
    requires Parsed(step)
  {
    && (forall i, j :: 0 <= i < j < |step.ids| ==> step.ids[i] != step.ids[j])
    && step.ids[0] == step.sampled
    && !FloatLess(step.logits[0], step.sampledLogit) && !FloatLess(step.sampledLogit, step.logits[0])
    && forall i :: 0 <= i < |step.logits| ==> Finite(step.logits[i])
  }

  function RawDistances(step: Step): (r: seq<int>)
    requires Parsed(step)
    ensures |r| == |step.ids|
  {
    var maximum := OrderedBf16(MaxLogit(step.logits));
    seq(|step.logits|, i requires 0 <= i < |step.logits| => maximum - OrderedBf16(step.logits[i]))
  }

  /** `step_candidate_ulp_distances`: nothing when the step is refused. */
  function Distances(step: Step): (r: Option<seq<int>>)
    requires Parsed(step)
  {
    var distances := RawDistances(step);
    if !Accepted(step) || (exists i :: 0 <= i < |distances| && distances[i] < 0) then None else Some(distances)
  }

  /** An accepted step never trips the negative-distance check; distances are not negative, and
      zero exactly for the numerically maximal logits. */
  lemma DistancesDefined(step: Step)
    requires Parsed(step)
    ensures Distances(step).Some? <==> Accepted(step)
    ensures Accepted(step) ==> Distances(step).value == RawDistances(step)
    ensures forall i :: 0 <= i < |step.ids| ==> 0 <= RawDistances(step)[i]
    ensures forall i :: 0 <= i < |step.ids| ==>
              (RawDistances(step)[i] == 0 <==> forall k :: 0 <= k < |step.ids| ==> Value16(step.logits[k]) <= Value16(step.logits[i]))
  {
    var distances := RawDistances(step);
    forall i | 0 <= i < |step.ids|
      ensures 0 <= distances[i]
      ensures distances[i] == 0 <==> forall k :: 0 <= k < |step.ids| ==> Value16(step.logits[k]) <= Value16(step.logits[i])
    {
      MaxLogitIsMaximal(step.logits, i);
      ZeroIsMaximal(step, i);
    }
  }

  lemma DistanceNonnegative(step: Step, i: nat)
    requires Parsed(step) && i < |step.ids|
    ensures 0 <= RawDistances(step)[i]
  {
    MaxLogitIsMaximal(step.logits, i);
  }

  /** The negative-distance check never refuses an accepted step. */
  lemma AcceptedDefined(step: Step)
    requires Parsed(step)
    ensures Distances(step).Some? <==> Accepted(step)
    ensures Accepted(step) ==> Distances(step).value == RawDistances(step)
  {
    forall i | 0 <= i < |step.ids| ensures 0 <= RawDistances(step)[i] {
      DistanceNonnegative(step, i);
    }
  }

  /** What makes a step acceptable, in numbers: distinct candidates, the sampled one first and with
      the logged logit, and no infinite or undefined logit. */
  lemma AcceptedExactly(step: Step)
    requires Parsed(step)
    ensures Distances(step).Some? <==>
              && (forall i, j :: 0 <= i < j < |step.ids| ==> step.ids[i] != step.ids[j])
              && step.ids[0] == step.sampled && Value16(step.logits[0]) == Value16(step.sampledLogit)
              && forall i :: 0 <= i < |step.logits| ==> step.logits[i] % 0x8000 < 0x7F80
  {
    AcceptedDefined(step);
    FloatLessIsNumeric(step.logits[0], step.sampledLogit);
    FloatLessIsNumeric(step.sampledLogit, step.logits[0]);
  }

  lemma ZeroIsMaximal(step: Step, i: nat)
    requires Parsed(step) && i < |step.ids|
    ensures RawDistances(step)[i] == 0 <==> forall k :: 0 <= k < |step.ids| ==> Value16(step.logits[k]) <= Value16(step.logits[i])
  {
    var top :| 0 <= top < |step.logits| && step.logits[top] == MaxLogit(step.logits);
    OrderedIsNumeric(step.logits[i], step.logits[top]);
    MaxLogitIsMaximal(step.logits, i);
    forall k | 0 <= k < |step.ids|
      ensures Value16(step.logits[k]) <= Value16(step.logits[top])
    {
      MaxLogitIsMaximal(step.logits, k);
      OrderedIsNumeric(step.logits[top], step.logits[k]);
    }
  }

  // -------------------------------------------------------------- the model's candidates

  /** The retained candidates at one point of a generation, with their logits. */
  type Candidates = map<Token, nat>

  /** A step lists exactly these candidates, in any order. */
  ghost predicate Observes(step: Step, candidates: Candidates) {
    && Parsed(step) && Accepted(step)
    && (forall t :: t in candidates <==> t in step.ids)
    && (forall i :: 0 <= i < |step.ids| ==> candidates[step.ids[i]] == step.logits[i])
  }

  /** The best candidate, in the integer order. */
  ghost predicate IsTop(candidates: Candidates, top: int) {
    && (exists t :: t in candidates && OrderedBf16(candidates[t]) == top)
    && forall t :: t in candidates ==> OrderedBf16(candidates[t]) <= top
  }

  /** `t` is exactly `d` units below the best candidate. */
  ghost predicate AtDistance(candidates: Candidates, t: Token, d: int) {
    t in candidates && IsTop(candidates, OrderedBf16(candidates[t]) + d)
  }

  /** `t` is within `window` units of the best candidate. */
  ghost predicate Eligible(candidates: Candidates, window: int, t: Token) {
    && t in candidates
    && forall u :: u in candidates ==> OrderedBf16(candidates[u]) - OrderedBf16(candidates[t]) <= window
  }

  /** The logged distances are those of the model's candidates. */
  lemma DistanceOf(step: Step, candidates: Candidates, i: nat)
    requires Observes(step, candidates) && i < |step.ids|
    ensures AtDistance(candidates, step.ids[i], RawDistances(step)[i])
    ensures forall w: int :: Eligible(candidates, w, step.ids[i]) <==> RawDistances(step)[i] <= w
  {
    var top :| 0 <= top < |step.logits| && step.logits[top] == MaxLogit(step.logits);
    var best := OrderedBf16(step.logits[top]);
    assert step.ids[top] in candidates && candidates[step.ids[top]] == step.logits[top];
    forall u | u in candidates
      ensures OrderedBf16(candidates[u]) <= best
    {
      var k :| 0 <= k < |step.ids| && step.ids[k] == u;
      MaxLogitIsMaximal(step.logits, k);
    }
    assert candidates[step.ids[i]] == step.logits[i] && step.ids[i] in step.ids;
  }

  /** Some candidate is within any non-negative window. */
  lemma SomeEligible(step: Step, window: nat) returns (i: nat)
    requires Parsed(step) && Accepted(step)
    ensures i < |step.ids| && RawDistances(step)[i] <= window
  {
    i :| 0 <= i < |step.logits| && step.logits[i] == MaxLogit(step.logits);
  }

  // ------------------------------------------------------------------- rows and answers

  type Answer = nat

  function AnswerFor(token: Token): (r: Option<Answer>) {
    if IsLetter(token) then Some(token - FIRST_LETTER) else None
  }

  /** A result row: the right answer, the predicted one and whether they agree. */
  datatype Row = Row(answer: Answer, prediction: Option<Answer>, correct: bool)

  ghost function Path(steps: seq<Step>): (path: seq<Token>)
    ensures |path| == |steps|
  {
    seq(|steps|, i requires 0 <= i < |steps| => steps[i].sampled)
  }

  ghost function Final(path: seq<Token>): Option<Answer>
    requires |path| > 0
  {
    AnswerFor(path[|path| - 1])
  }

  /** A deterministic model: the candidates after each generated path. */
  type Oracle = seq<Token> -> Candidates

  /** The log of one request agrees with the model, and the row with the log. */
  ghost predicate Logged(row: Row, steps: seq<Step>, oracle: Oracle, capacity: nat) {
    var path := Path(steps);
    && 0 < |steps| <= capacity && Finished(path, capacity)
    && (forall i :: 0 <= i < |steps| ==> Observes(steps[i], oracle(path[..i])))
    && (forall i :: 0 <= i < |steps| - 1 ==> !IsLetter(path[i]))
    && row.prediction == Final(path) && row.correct == (row.prediction == Some(row.answer))
  }

  /** A run that agrees with the log up to `i` and takes a letter there ends there. */
  lemma LetterEnds(next: seq<Token> -> Option<Token>, capacity: nat, run: seq<Token>, i: nat)
    requires IsRun(next, capacity, run) && i < |run| && IsLetter(run[i])
    ensures |run| == i + 1 && Final(run) == AnswerFor(run[i])
  {
  }

  /** A run that agrees with the first `i` logged tokens goes on if the log does. */
  lemma RunGoesOn(steps: seq<Step>, next: seq<Token> -> Option<Token>, capacity: nat, run: seq<Token>, i: nat)
    requires IsRun(next, capacity, run) && i < |steps| <= capacity
    requires forall k :: 0 <= k < |steps| - 1 ==> !IsLetter(Path(steps)[k])
    requires Path(steps)[..i] <= run
    ensures i < |run| && run[..i] == Path(steps)[..i] && next(Path(steps)[..i]) == Some(run[i])
  {
    assert i > 0 ==> Path(steps)[..i][i - 1] == Path(steps)[i - 1];
  }

  /** A run that agrees with the whole log is the logged run. */
  lemma RunEnds(steps: seq<Step>, next: seq<Token> -> Option<Token>, capacity: nat, run: seq<Token>)
    requires IsRun(next, capacity, run) && 0 < |steps| <= capacity && Finished(Path(steps), capacity)
    requires Path(steps) <= run
    ensures run == Path(steps)
  {
    var n := |steps| - 1;
    assert run[n] == Path(steps)[n];
  }

  lemma PathExtends(steps: seq<Step>, run: seq<Token>, i: nat)
    requires i < |steps| && i < |run| && run[..i] == Path(steps)[..i] && run[i] == steps[i].sampled
    ensures Path(steps)[..i + 1] <= run
  {
    assert Path(steps)[..i + 1] == Path(steps)[..i] + [steps[i].sampled];
    assert run[..i + 1] == run[..i] + [run[i]];
  }
}
