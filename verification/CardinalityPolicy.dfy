/** Token selection by the number and the shape of the candidates within the window, and the
    projection of such a policy from the logs of two runs under other policies. */
module CardinalityPolicy {
  import opened Options
  import opened Sequences
  import opened LetterRun
  import opened WindowSteps
  import opened InverseWindow

  /** `maximal`: candidate counts for which the largest token ID is taken; `uniqueMaximal`: the
      same, provided that one candidate alone has the best logit; `mask`: shapes of three
      candidates for which the largest ID is taken. */
  datatype Policy = Policy(window: int, maximal: set<nat>, uniqueMaximal: set<nat>, mask: nat)

  predicate PolicyOk(policy: Policy) {
    && 0 <= policy.window <= 64
    && policy.maximal <= {2, 3, 4, 5} && policy.uniqueMaximal <= {2, 3, 4, 5} && policy.maximal !! policy.uniqueMaximal
    && policy.mask < 64 && (policy.mask != 0 ==> policy.window == 2)
  }

  // ----------------------------------------------------------------- selection from a list

  const SHAPES: seq<(int, int, int)> := [(0, 0, 0), (0, 0, 1), (0, 0, 2), (0, 1, 1), (0, 1, 2), (0, 2, 2)]

  /** The first `n` candidates at distances from `lo` to `hi`, in log order. */
  function Between(step: Step, lo: int, hi: int, n: nat): (r: seq<Token>)
    requires Parsed(step) && n <= |step.ids|
  {
    if n == 0 then []
    else
      var before := Between(step, lo, hi, n - 1);
      if lo <= RawDistances(step)[n - 1] <= hi then before + [step.ids[n - 1]] else before
  }

  /** Distances of the first `n` candidates that are within the window. */
  function WithinDistances(step: Step, window: int, n: nat): (r: seq<int>)
    requires Parsed(step) && n <= |step.ids|
  {
    if n == 0 then []
    else
      var before, d := WithinDistances(step, window, n - 1), RawDistances(step)[n - 1];
      if d <= window then before + [d] else before
  }

  function Occurrences(s: seq<int>, x: int): nat {
    if |s| == 0 then 0 else Occurrences(s[..|s| - 1], x) + if s[|s| - 1] == x then 1 else 0
  }

  function Sorted3(a: int, b: int, c: int): (int, int, int) {
    if a <= b then (if b <= c then (a, b, c) else if a <= c then (a, c, b) else (c, a, b))
    else if a <= c then (b, a, c) else if b <= c then (b, c, a) else (c, b, a)
  }

  function IndexOf(shape: (int, int, int), i: nat): Option<nat>
    requires i <= |SHAPES|
    decreases |SHAPES| - i
  {
    if i == |SHAPES| then None else if SHAPES[i] == shape then Some(i) else IndexOf(shape, i + 1)
  }

  function Bit(mask: nat, i: nat): bool {
    if i == 0 then mask % 2 == 1 else Bit(mask / 2, i - 1)
  }

  /** The masks are sums of powers of two: bit `i` stands for its own power. */
  lemma BitsMakeMask(mask: nat)
    requires mask < 64
    ensures mask == (if Bit(mask, 0) then 1 else 0) + (if Bit(mask, 1) then 2 else 0) + (if Bit(mask, 2) then 4 else 0)
                  + (if Bit(mask, 3) then 8 else 0) + (if Bit(mask, 4) then 16 else 0) + (if Bit(mask, 5) then 32 else 0)
  {
    assert Bit(mask, 1) == Bit(mask / 2, 0) && Bit(mask, 2) == Bit(mask / 2 / 2, 0);
    assert Bit(mask, 3) == Bit(mask / 2 / 2 / 2, 0) && Bit(mask, 4) == Bit(mask / 2 / 2 / 2 / 2, 0);
    assert Bit(mask, 5) == Bit(mask / 2 / 2 / 2 / 2 / 2, 0);
  }

  function MaxId(ids: seq<Token>): (r: Token)
    requires |ids| > 0
    ensures r in ids && forall t :: t in ids ==> t <= r
  {
    if |ids| == 1 then ids[0]
    else
      var m, last := MaxId(ids[..|ids| - 1]), ids[|ids| - 1];
      assert forall t :: t in ids <==> t in ids[..|ids| - 1] || t == last;
      if m < last then last else m
  }

  function MinId(ids: seq<Token>): (r: Token)
    requires |ids| > 0
    ensures r in ids && forall t :: t in ids ==> r <= t
  {
    if |ids| == 1 then ids[0]
    else
      var m, last := MinId(ids[..|ids| - 1]), ids[|ids| - 1];
      assert forall t :: t in ids <==> t in ids[..|ids| - 1] || t == last;
      if last < m then last else m
  }

  /** `select_cardinality_token`: nothing when the input is refused. */
  function Select(step: Step, policy: Policy): (r: Option<Token>)
    requires Parsed(step)
  {
    if !PolicyOk(policy) || Distances(step).None? then None
    else
      var distances := WithinDistances(step, policy.window, |step.ids|);
      var ids := Between(step, 0, policy.window, |step.ids|);
      if ids == [] then None else Decide(ids, distances, policy)
  }

  /** The choice among the tokens within the window, given their distances. */
  function Decide(ids: seq<Token>, distances: seq<int>, policy: Policy): (r: Option<Token>)
    requires |ids| > 0
  {
    var unique := Occurrences(distances, 0) == 1;
    var byCount := |ids| in policy.maximal || (unique && |ids| in policy.uniqueMaximal);
    if |distances| == 3 then
      var index := IndexOf(Sorted3(distances[0], distances[1], distances[2]), 0);
      if index.None? then None
      else Some(if byCount || Bit(policy.mask, index.value) then MaxId(ids) else MinId(ids))
    else Some(if byCount then MaxId(ids) else MinId(ids))
  }

  // ------------------------------------------------------------------ selection from a set

  /** The candidates at distances from `lo` to `hi`. */
  ghost function Band(candidates: Candidates, lo: int, hi: int): set<Token> {
    set t | t in candidates && Eligible(candidates, hi, t) && !Eligible(candidates, lo - 1, t)
  }

  /** How many candidates within the window are exactly `d` below the best. */
  ghost function CountAt(candidates: Candidates, window: int, d: int): nat {
    if d <= window then |Band(candidates, d, d)| else 0
  }

  /** Three candidates, told apart by how many are 0, 1 and 2 below the best. */
  function ShapeOf(zero: nat, one: nat, two: nat): Option<nat> {
    if zero == 3 then Some(0)
    else if zero == 2 && one == 1 then Some(1)
    else if zero == 2 && two == 1 then Some(2)
    else if zero == 1 && one == 2 then Some(3)
    else if zero == 1 && one == 1 && two == 1 then Some(4)
    else if zero == 1 && two == 2 then Some(5)
    else None
  }

  ghost function Shape(candidates: Candidates, window: int): Option<nat> {
    ShapeOf(CountAt(candidates, window, 0), CountAt(candidates, window, 1), CountAt(candidates, window, 2))
  }

  ghost predicate PrefersMaximum(candidates: Candidates, policy: Policy) {
    var n := |Band(candidates, 0, policy.window)|;
    || n in policy.maximal
    || (CountAt(candidates, policy.window, 0) == 1 && n in policy.uniqueMaximal)
    || (n == 3 && Shape(candidates, policy.window).Some? && Bit(policy.mask, Shape(candidates, policy.window).value))
  }

  /** The policy picks `t` among the candidates, which have no order. */
  ghost predicate Picks(candidates: Candidates, policy: Policy, t: Token) {
    var eligible := Band(candidates, 0, policy.window);
    && PolicyOk(policy) && t in eligible
    && (|eligible| == 3 ==> Shape(candidates, policy.window).Some?)
    && forall u :: u in eligible ==> if PrefersMaximum(candidates, policy) then u <= t else t <= u
  }

  // ------------------------------------------------------------------------- they agree

  lemma {:induction false} BetweenIs(step: Step, lo: int, hi: int, n: nat)
    requires Parsed(step) && Accepted(step) && n <= |step.ids|
    ensures forall t :: t in Between(step, lo, hi, n) <==>
              exists i :: 0 <= i < n && step.ids[i] == t && lo <= RawDistances(step)[i] <= hi
    ensures Distinct(Between(step, lo, hi, n))
  {
    if n > 0 {
      var before := Between(step, lo, hi, n - 1);
      BetweenIs(step, lo, hi, n - 1);
      assert step.ids[n - 1] !in before;
      assert forall i :: 0 <= i < |before| ==> before[i] in before;
    }
  }

  lemma BandIsBetween(step: Step, candidates: Candidates, lo: int, hi: int)
    requires Observes(step, candidates)
    ensures Elements(Between(step, lo, hi, |step.ids|)) == Band(candidates, lo, hi)
    ensures |Between(step, lo, hi, |step.ids|)| == |Band(candidates, lo, hi)|
  {
    var listed := Between(step, lo, hi, |step.ids|);
    BetweenIs(step, lo, hi, |step.ids|);
    DistinctElements(listed);
    forall t ensures t in listed <==> t in Band(candidates, lo, hi) {
      if t in candidates {
        var k :| 0 <= k < |step.ids| && step.ids[k] == t;
        DistanceOf(step, candidates, k);
      }
    }
  }

  lemma {:induction false} OccurrencesAre(step: Step, window: int, d: int, n: nat)
    requires Parsed(step) && n <= |step.ids|
    ensures Occurrences(WithinDistances(step, window, n), d) == if d <= window then |Between(step, d, d, n)| else 0
  {
    if n > 0 {
      OccurrencesAre(step, window, d, n - 1);
      var before, last := WithinDistances(step, window, n - 1), RawDistances(step)[n - 1];
      assert (before + [last])[..|before|] == before;
    }
  }

  lemma {:induction false} SameLength(step: Step, window: int, n: nat)
    requires Parsed(step) && n <= |step.ids|
    ensures |WithinDistances(step, window, n)| == |Between(step, 0, window, n)|
  {
    if n > 0 {
      DistanceNonnegative(step, n - 1);
      SameLength(step, window, n - 1);
    }
  }

  lemma {:induction false} WithinNonnegative(step: Step, window: int, n: nat)
    requires Parsed(step) && n <= |step.ids|
    ensures forall i :: 0 <= i < |WithinDistances(step, window, n)| ==> 0 <= WithinDistances(step, window, n)[i]
  {
    if n > 0 {
      DistanceNonnegative(step, n - 1);
      WithinNonnegative(step, window, n - 1);
    }
  }

  /** The sorted signature is decided by the three counts, provided one distance is zero. */
  lemma SignatureIsShape(s: seq<int>)
    requires |s| == 3 && (forall i :: 0 <= i < 3 ==> s[i] >= 0)
    ensures IndexOf(Sorted3(s[0], s[1], s[2]), 0) == ShapeOf(Occurrences(s, 0), Occurrences(s, 1), Occurrences(s, 2))
  {
    Occurrences3(s, 0);
    Occurrences3(s, 1);
    Occurrences3(s, 2);
  }

  lemma Occurrences3(s: seq<int>, x: int)
    requires |s| == 3
    ensures Occurrences(s, x) == (if s[0] == x then 1 else 0) + (if s[1] == x then 1 else 0) + (if s[2] == x then 1 else 0)
  {
    var two, one := s[..2], s[..1];
    assert two[..1] == one && one[..0] == [];
    assert Occurrences(one, x) == if s[0] == x then 1 else 0;
    assert Occurrences(two, x) == Occurrences(one, x) + if s[1] == x then 1 else 0;
  }

  lemma CountsAgree(step: Step, candidates: Candidates, window: int, d: int)
    requires Observes(step, candidates)
    ensures Occurrences(WithinDistances(step, window, |step.ids|), d) == CountAt(candidates, window, d)
  {
    OccurrencesAre(step, window, d, |step.ids|);
    BandIsBetween(step, candidates, d, d);
  }

  lemma ShapesAgree(step: Step, candidates: Candidates, window: int)
    requires Observes(step, candidates) && |WithinDistances(step, window, |step.ids|)| == 3
    ensures var d := WithinDistances(step, window, |step.ids|);
            IndexOf(Sorted3(d[0], d[1], d[2]), 0) == Shape(candidates, window)
  {
    WithinNonnegative(step, window, |step.ids|);
    SignatureIsShape(WithinDistances(step, window, |step.ids|));
    CountsAgree(step, candidates, window, 0);
    CountsAgree(step, candidates, window, 1);
    CountsAgree(step, candidates, window, 2);
  }

  /** The lists describe the candidates within the window. */
  ghost predicate Reflects(ids: seq<Token>, distances: seq<int>, candidates: Candidates, window: int) {
    && |ids| > 0 && |distances| == |ids|
    && Elements(ids) == Band(candidates, 0, window) && |Band(candidates, 0, window)| == |ids|
    && Occurrences(distances, 0) == CountAt(candidates, window, 0)
    && (|distances| == 3 ==> IndexOf(Sorted3(distances[0], distances[1], distances[2]), 0) == Shape(candidates, window))
  }

  lemma ListsReflect(step: Step, candidates: Candidates, window: nat)
    requires Observes(step, candidates)
    ensures Reflects(Between(step, 0, window, |step.ids|), WithinDistances(step, window, |step.ids|), candidates, window)
  {
    BandIsBetween(step, candidates, 0, window);
    SameLength(step, window, |step.ids|);
    CountsAgree(step, candidates, window, 0);
    NotEmpty(step, window);
    if |WithinDistances(step, window, |step.ids|)| == 3 {
      ShapesAgree(step, candidates, window);
    }
  }

  lemma DecideIsPolicy(ids: seq<Token>, distances: seq<int>, candidates: Candidates, policy: Policy)
    requires PolicyOk(policy) && Reflects(ids, distances, candidates, policy.window)
    ensures Decide(ids, distances, policy).Some? ==> Picks(candidates, policy, Decide(ids, distances, policy).value)
    ensures Decide(ids, distances, policy).None? <==>
              |Band(candidates, 0, policy.window)| == 3 && Shape(candidates, policy.window).None?
  {
    assert forall t :: t in ids <==> t in Elements(ids);
  }

  lemma SelectDecides(step: Step, policy: Policy)
    requires Parsed(step) && Accepted(step) && PolicyOk(policy) && Between(step, 0, policy.window, |step.ids|) != []
    ensures Select(step, policy)
            == Decide(Between(step, 0, policy.window, |step.ids|), WithinDistances(step, policy.window, |step.ids|), policy)
  {
    AcceptedDefined(step);
  }

  /** The list code picks what the policy picks from the unordered candidates, and refuses
      exactly bad policies and unsupported shapes. */
  lemma SelectIsPolicy(step: Step, candidates: Candidates, policy: Policy)
    requires Observes(step, candidates)
    ensures Select(step, policy).Some? ==> Picks(candidates, policy, Select(step, policy).value)
    ensures Select(step, policy).None? <==>
              || !(0 <= policy.window <= 64 && policy.mask < 64 && (policy.mask != 0 ==> policy.window == 2))
              || !(policy.maximal <= {2, 3, 4, 5} && policy.uniqueMaximal <= {2, 3, 4, 5} && policy.maximal !! policy.uniqueMaximal)
              || (|Band(candidates, 0, policy.window)| == 3 && Shape(candidates, policy.window).None?)
  {
    if PolicyOk(policy) {
      var n := |step.ids|;
      var ids, distances := Between(step, 0, policy.window, n), WithinDistances(step, policy.window, n);
      ListsReflect(step, candidates, policy.window);
      SelectDecides(step, policy);
      DecideIsPolicy(ids, distances, candidates, policy);
    }
  }

  lemma NotEmpty(step: Step, window: nat)
    requires Parsed(step) && Accepted(step)
    ensures Between(step, 0, window, |step.ids|) != []
  {
    var i := SomeEligible(step, window);
    DistanceNonnegative(step, i);
    BetweenIs(step, 0, window, |step.ids|);
    assert step.ids[i] in Between(step, 0, window, |step.ids|);
  }

  lemma PicksUnique(candidates: Candidates, policy: Policy, t: Token, u: Token)
    requires Picks(candidates, policy, t) && Picks(candidates, policy, u)
    ensures t == u
  {
  }

  /** Selection does not depend on the order in which the candidates are listed. */
  lemma OrderIndependent(a: Step, b: Step, candidates: Candidates, policy: Policy)
    requires Observes(a, candidates) && Observes(b, candidates)
    ensures Select(a, policy) == Select(b, policy)
  {
    SelectIsPolicy(a, candidates, policy);
    SelectIsPolicy(b, candidates, policy);
    if Select(a, policy).Some? {
      PicksUnique(candidates, policy, Select(a, policy).value, Select(b, policy).value);
    }
  }

  // ------------------------------------------------------------------------- projection

  datatype Projection = Projection(exact: bool, prediction: Option<Answer>)

  /** `project_path` from step `i` on: nothing when the input is refused. */
  function ProjectPath(steps: seq<Step>, policy: Policy, prediction: Option<Answer>, i: nat): (r: Option<Projection>)
    requires i <= |steps| && forall k :: 0 <= k < |steps| ==> Parsed(steps[k])
    decreases |steps| - i
  {
    if i == |steps| then Some(Projection(true, prediction))
    else
      var winner := Select(steps[i], policy);
      if winner.None? then None
      else
        var answer := AnswerFor(winner.value);
        if winner.value != steps[i].sampled then Some(Projection(answer.Some?, answer))
        else if answer.Some? then Some(Projection(true, answer))
        else ProjectPath(steps, policy, prediction, i + 1)
  }

  /** `next` applies the policy at every point. */
  ghost predicate Applies(next: seq<Token> -> Option<Token>, oracle: Oracle, policy: Policy) {
    forall path :: next(path).Some? ==> Picks(oracle(path), policy, next(path).value)
  }

  ghost predicate PolicyRun(next: seq<Token> -> Option<Token>, oracle: Oracle, policy: Policy, capacity: nat, run: seq<Token>) {
    Applies(next, oracle, policy) && IsRun(next, capacity, run)
  }

  lemma PolicyChoice(row: Row, steps: seq<Step>, policy: Policy, capacity: nat, oracle: Oracle,
                     next: seq<Token> -> Option<Token>, run: seq<Token>, i: nat)
    requires Logged(row, steps, oracle, capacity) && PolicyRun(next, oracle, policy, capacity, run)
    requires i < |steps| && Path(steps)[..i] <= run
    ensures Parsed(steps[i]) && i < |run|
    ensures Select(steps[i], policy).Some? ==> Select(steps[i], policy).value == run[i]
    ensures run[i] == steps[i].sampled ==> Path(steps)[..i + 1] <= run
  {
    var here := Path(steps)[..i];
    assert Observes(steps[i], oracle(here));
    RunGoesOn(steps, next, capacity, run, i);
    SelectIsPolicy(steps[i], oracle(here), policy);
    if Select(steps[i], policy).Some? {
      PicksUnique(oracle(here), policy, Select(steps[i], policy).value, run[i]);
    }
    if run[i] == steps[i].sampled {
      PathExtends(steps, run, i);
    }
  }

  lemma {:induction false} ProjectPathSound(row: Row, steps: seq<Step>, policy: Policy, capacity: nat, oracle: Oracle,
                                            next: seq<Token> -> Option<Token>, run: seq<Token>, i: nat)
    requires Logged(row, steps, oracle, capacity) && PolicyRun(next, oracle, policy, capacity, run)
    requires (forall k :: 0 <= k < |steps| ==> Parsed(steps[k])) && i <= |steps| && Path(steps)[..i] <= run
    ensures var p := ProjectPath(steps, policy, row.prediction, i);
            p.Some? && p.value.exact ==> p.value.prediction == Final(run)
    decreases |steps| - i
  {
    if i == |steps| {
      assert Path(steps)[..i] == Path(steps);
      RunEnds(steps, next, capacity, run);
    } else {
      PolicyChoice(row, steps, policy, capacity, oracle, next, run, i);
      var winner := Select(steps[i], policy);
      if winner.Some? {
        if IsLetter(winner.value) {
          LetterEnds(next, capacity, run, i);
        } else if winner.value == steps[i].sampled {
          ProjectPathSound(row, steps, policy, capacity, oracle, next, run, i + 1);
        }
      }
    }
  }

  /** An exact projection of a path is the policy's true result: whatever rule produced the path,
      and whatever the model does elsewhere. */
  lemma ProjectionSound(row: Row, steps: seq<Step>, policy: Policy, capacity: nat, oracle: Oracle,
                        next: seq<Token> -> Option<Token>, run: seq<Token>)
    requires Logged(row, steps, oracle, capacity) && PolicyRun(next, oracle, policy, capacity, run)
    requires forall k :: 0 <= k < |steps| ==> Parsed(steps[k])
    ensures var p := ProjectPath(steps, policy, row.prediction, 0);
            p.Some? && p.value.exact ==> p.value.prediction == Final(run)
  {
    assert Path(steps)[..0] == [];
    ProjectPathSound(row, steps, policy, capacity, oracle, next, run, 0);
  }

  // ------------------------------------------------------------------------- both paths

  /** The logs of one question: the base path and, for some questions, a replay. */
  datatype Question = Question(base: Row, baseSteps: seq<Step>, replay: Option<(Row, seq<Step>)>)

  predicate QuestionParsed(q: Question) {
    && (forall k :: 0 <= k < |q.baseSteps| ==> Parsed(q.baseSteps[k]))
    && (q.replay.Some? ==> forall k :: 0 <= k < |q.replay.value.1| ==> Parsed(q.replay.value.1[k]))
  }

  /** The replay decides where the base path does not. */
  function ProjectQuestion(q: Question, policy: Policy): (r: Option<Projection>)
    requires QuestionParsed(q)
  {
    var base := ProjectPath(q.baseSteps, policy, q.base.prediction, 0);
    if base.None? || base.value.exact || q.replay.None? then base
    else ProjectPath(q.replay.value.1, policy, q.replay.value.0.prediction, 0)
  }

  /** Both logs come from the same model, and `run` is the policy's run of it. */
  ghost predicate PolicyWorld(q: Question, policy: Policy, capacity: nat, oracle: Oracle,
                              next: seq<Token> -> Option<Token>, run: seq<Token>) {
    && Logged(q.base, q.baseSteps, oracle, capacity) && PolicyRun(next, oracle, policy, capacity, run)
    && (q.replay.Some? ==> Logged(q.replay.value.0, q.replay.value.1, oracle, capacity))
  }

  lemma QuestionSound(q: Question, policy: Policy, capacity: nat, oracle: Oracle,
                      next: seq<Token> -> Option<Token>, run: seq<Token>)
    requires QuestionParsed(q) && PolicyWorld(q, policy, capacity, oracle, next, run)
    ensures var p := ProjectQuestion(q, policy);
            p.Some? && p.value.exact ==> p.value.prediction == Final(run)
  {
    ProjectionSound(q.base, q.baseSteps, policy, capacity, oracle, next, run);
    if q.replay.Some? {
      ProjectionSound(q.replay.value.0, q.replay.value.1, policy, capacity, oracle, next, run);
    }
  }

  /** `correct` can be the correctness of the question under the policy. */
  ghost predicate PolicyPossible(q: Question, policy: Policy, capacity: nat, correct: bool) {
    exists oracle, next, run ::
      PolicyWorld(q, policy, capacity, oracle, next, run) && (correct <==> Final(run) == Some(q.base.answer))
  }

  /** `outcomes` are the verdicts of the questions' projections. */
  ghost predicate AllJudged(questions: seq<Question>, policy: Policy, outcomes: seq<Outcome>)
    requires forall i :: 0 <= i < |questions| ==> QuestionParsed(questions[i])
  {
    |outcomes| == |questions| && forall i :: 0 <= i < |questions| ==> Judges(questions[i], policy, outcomes[i])
  }

  /** The per-policy counters of `analyze`: nothing when a projection is refused. The true score
      of the policy lies between them. */
  method PolicyScore(questions: seq<Question>, policy: Policy, ghost capacity: nat)
    returns (r: Option<(nat, nat)>, ghost outcomes: seq<Outcome>)
    requires forall i :: 0 <= i < |questions| ==> QuestionParsed(questions[i])
    ensures r.None? <==> exists i :: 0 <= i < |questions| && ProjectQuestion(questions[i], policy).None?
    ensures r.Some? ==>
              AllJudged(questions, policy, outcomes) && r.value == (Verdicts(outcomes, Some(true)), Verdicts(outcomes, None))
    ensures r.Some? ==> forall truth :: AllPossible(questions, policy, capacity, truth) ==>
              r.value.0 <= Count(truth) <= r.value.0 + r.value.1
  {
    var correct, unknown := 0, 0;
    outcomes := [];
    for i := 0 to |questions|
      invariant |outcomes| == i && forall k :: 0 <= k < i ==> Judges(questions[k], policy, outcomes[k])
      invariant correct == Verdicts(outcomes, Some(true)) && unknown == Verdicts(outcomes, None)
    {
      ghost var outcome;
      var p;
      p, outcome := JudgeQuestion(questions[i], policy);
      if p.None? {
        return None, outcomes;
      }
      VerdictsPush(outcomes, outcome, Some(true));
      VerdictsPush(outcomes, outcome, None);
      outcomes := outcomes + [outcome];
      if p.value.exact {
        correct := correct + if p.value.prediction == Some(questions[i].base.answer) then 1 else 0;
      } else {
        unknown := unknown + 1;
      }
    }
    PolicyBounds(questions, policy, capacity, outcomes);
    r := Some((correct, unknown));
  }

  method JudgeQuestion(q: Question, policy: Policy) returns (p: Option<Projection>, ghost outcome: Outcome)
    requires QuestionParsed(q)
    ensures p == ProjectQuestion(q, policy) && (p.Some? ==> Judges(q, policy, outcome))
    ensures p.Some? ==> outcome.correctness == if p.value.exact then Some(p.value.prediction == Some(q.base.answer)) else None
  {
    p := ProjectQuestion(q, policy);
    outcome := Outcome(if p.Some? && p.value.exact then Some(p.value.prediction == Some(q.base.answer)) else None, None, false);
  }

  ghost predicate AllPossible(questions: seq<Question>, policy: Policy, capacity: nat, truth: seq<bool>) {
    |truth| == |questions| && forall i :: 0 <= i < |truth| ==> PolicyPossible(questions[i], policy, capacity, truth[i])
  }

  /** `outcome` is the verdict of the question's projection. */
  ghost predicate Judges(q: Question, policy: Policy, outcome: Outcome)
    requires QuestionParsed(q)
  {
    var p := ProjectQuestion(q, policy);
    && p.Some?
    && outcome.correctness == if p.value.exact then Some(p.value.prediction == Some(q.base.answer)) else None
  }

  lemma VerdictsPush(outcomes: seq<Outcome>, outcome: Outcome, verdict: Option<bool>)
    ensures Verdicts(outcomes + [outcome], verdict) == Verdicts(outcomes, verdict) + if outcome.correctness == verdict then 1 else 0
  {
    assert (outcomes + [outcome])[..|outcomes|] == outcomes;
  }

  lemma PolicyBounds(questions: seq<Question>, policy: Policy, capacity: nat, outcomes: seq<Outcome>)
    requires forall i :: 0 <= i < |questions| ==> QuestionParsed(questions[i])
    requires AllJudged(questions, policy, outcomes)
    ensures forall truth :: AllPossible(questions, policy, capacity, truth) ==>
              Verdicts(outcomes, Some(true)) <= Count(truth) <= Verdicts(outcomes, Some(true)) + Verdicts(outcomes, None)
  {
    forall truth | AllPossible(questions, policy, capacity, truth)
      ensures Verdicts(outcomes, Some(true)) <= Count(truth) <= Verdicts(outcomes, Some(true)) + Verdicts(outcomes, None)
    {
      PolicyInterval(questions, policy, capacity, outcomes, truth);
    }
  }

  lemma PolicyInterval(questions: seq<Question>, policy: Policy, capacity: nat, outcomes: seq<Outcome>, truth: seq<bool>)
    requires forall i :: 0 <= i < |questions| ==> QuestionParsed(questions[i])
    requires |outcomes| == |questions| && AllPossible(questions, policy, capacity, truth)
    requires forall i :: 0 <= i < |questions| ==> Judges(questions[i], policy, outcomes[i])
    ensures Verdicts(outcomes, Some(true)) <= Count(truth) <= Verdicts(outcomes, Some(true)) + Verdicts(outcomes, None)
  {
    forall i | 0 <= i < |truth| && outcomes[i].correctness.Some?
      ensures truth[i] == outcomes[i].correctness.value
    {
      assert PolicyPossible(questions[i], policy, capacity, truth[i]) && Judges(questions[i], policy, outcomes[i]);
      var oracle, next, run :| PolicyWorld(questions[i], policy, capacity, oracle, next, run)
                               && (truth[i] <==> Final(run) == Some(questions[i].base.answer));
      QuestionSound(questions[i], policy, capacity, oracle, next, run);
    }
    CountWithin(outcomes, truth);
  }
}
