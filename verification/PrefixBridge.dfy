/** The server bridge's prefix cache: a record of the prefix the engine is believed to hold
    and of the previous request, in front of an engine with a hidden resident session. */
module PrefixBridge {
  import opened Options
  import opened LetterRun

  const VOCABULARY: nat := 248320
  const MAX_SUFFIX: nat := 1024
  const MAX_TAIL: nat := 1536
  const MAX_OUTPUT: nat := 512

  // --------------------------------------------------------------- uncached generation

  /** The language model: a state after each token, and the token predicted from it. */
  datatype Model<!S> = Model(start: S, step: (S, Token) -> S, predict: S -> Token)

  function Absorb<S>(model: Model<S>, state: S, tokens: seq<Token>): S {
    if |tokens| == 0 then state else model.step(Absorb(model, state, tokens[..|tokens| - 1]), tokens[|tokens| - 1])
  }

  /** The next `n` tokens, each fed back to predict the following one. */
  function Continue<S>(model: Model<S>, state: S, n: nat): (r: seq<Token>)
    ensures |r| == n
  {
    if n == 0 then []
    else
      var before := Continue(model, state, n - 1);
      before + [model.predict(Absorb(model, state, before))]
  }

  /** Generation without any cache. */
  function Generate<S>(model: Model<S>, input: seq<Token>, n: nat): (r: seq<Token>)
    ensures |r| == n
  {
    Continue(model, Absorb(model, model.start, input), n)
  }

  lemma {:induction false} AbsorbAppend<S>(model: Model<S>, state: S, a: seq<Token>, b: seq<Token>)
    ensures Absorb(model, state, a + b) == Absorb(model, Absorb(model, state, a), b)
    decreases |b|
  {
    if |b| == 0 {
      assert a + b == a;
    } else {
      var n := |b| - 1;
      assert (a + b)[..|a + b| - 1] == a + b[..n];
      AbsorbAppend(model, state, a, b[..n]);
    }
  }

  // ------------------------------------------------------------------------- the engine

  /** How an ordinary engine request goes: whether it is accepted at all (otherwise it fails
      before it drops the session), whether prefill succeeds, whether the provider retains the
      session, and after how many output tokens it fails or is cancelled. */
  datatype OrdinaryFate = OrdinaryFate(accepted: bool, prefill: bool, retained: bool, outputs: nat)

  /** How the provider's transaction over the resident session goes: whether it completes with
      a result that passes all checks, and whether it leaves the session as it was. */
  datatype PrefixFate = PrefixFate(completed: bool, restored: bool)

  class Engine<!S> {
    const model: Model<S>
    var sessionValid: bool
    var sessionTokens: seq<Token>
    var sessionState: S
    var committed: nat // tokens decoded into the session beyond its prompt

    constructor (model: Model<S>)
      ensures this.model == model && Valid() && !sessionValid
    {
      this.model := model;
      sessionValid, sessionTokens, sessionState, committed := false, [], model.start, 0;
    }

    ghost predicate Valid()
      reads this
    {
      var base := Absorb(model, model.start, sessionTokens);
      sessionValid ==> sessionState == Absorb(model, base, Continue(model, base, committed))
    }

    ghost predicate Holds(prefix: seq<Token>)
      reads this
    {
      sessionValid && sessionTokens == prefix && committed == 0
    }

    /** An ordinary request: drop the session, prefill, then decode one token at a time. */
    method Request(input: seq<Token>, capacity: nat, fate: OrdinaryFate) returns (r: Option<seq<Token>>)
      requires Valid() && capacity > 0
      modifies this
      ensures Valid()
      ensures r.Some? ==> r.value == Generate(model, input, capacity)
      ensures r.Some? <==> fate.accepted && fate.prefill && fate.outputs >= capacity && (fate.retained || capacity == 1)
      ensures fate.accepted ==> (sessionValid <==> fate.prefill && fate.retained) && (sessionValid ==> sessionTokens == input)
      ensures !fate.accepted ==> sessionValid == old(sessionValid) && sessionTokens == old(sessionTokens) && committed == old(committed)
      ensures r.Some? && fate.retained && capacity == 1 ==> Holds(input)
    {
      if !fate.accepted {
        return None;
      }
      sessionValid := false;
      if !fate.prefill {
        return None;
      }
      var state := Prefill(model, model.start, input);
      ghost var base := state;
      if fate.retained {
        sessionTokens, sessionState, committed, sessionValid := input, state, 0, true;
      }
      if fate.outputs == 0 || (capacity > 1 && !fate.retained) {
        return None;
      }
      var output := [model.predict(state)];
      assert Continue(model, base, 0) == [];
      while |output| < capacity
        invariant 1 <= |output| <= capacity && |output| <= fate.outputs
        invariant output == Continue(model, base, |output|)
        invariant state == Absorb(model, base, Continue(model, base, |output| - 1))
        invariant fate.retained || capacity == 1
        invariant fate.retained ==> sessionValid && sessionTokens == input && sessionState == state && committed == |output| - 1
        invariant !fate.retained ==> !sessionValid
      {
        if |output| == fate.outputs {
          return None;
        }
        AbsorbLast(model, base, output);
        state := model.step(state, output[|output| - 1]);
        sessionState, committed := state, committed + 1;
        output := output + [model.predict(state)];
      }
      r := Some(output);
    }

    /** A request over the resident prefix. The session's identity is checked first; the
        suffix and the outputs are then processed on a copy of its state. */
    method PrefixRequest(input: seq<Token>, prefix: nat, capacity: nat, fate: PrefixFate) returns (r: Option<seq<Token>>)
      requires Valid() && ShapeSupported(|input|, prefix, capacity)
      modifies this
      ensures Valid()
      ensures r.Some? ==> r.value == Generate(model, input, capacity)
      ensures r.Some? <==> old(Holds(input[..prefix])) && fate.completed
      ensures r.Some? || fate.restored || !old(Holds(input[..prefix])) ==>
                sessionValid == old(sessionValid) && sessionTokens == old(sessionTokens) && committed == old(committed)
      ensures sessionValid <==> old(sessionValid) && (old(Holds(input[..prefix])) ==> fate.completed || fate.restored)
    {
      if !sessionValid || |sessionTokens| != prefix || sessionTokens != input[..prefix] || committed != 0 {
        return None;
      }
      if !fate.completed {
        if !fate.restored {
          sessionValid := false;
        }
        return None;
      }
      assert input == input[..prefix] + input[prefix..];
      AbsorbAppend(model, model.start, input[..prefix], input[prefix..]);
      var state := Prefill(model, sessionState, input[prefix..]);
      var output := Decode(model, state, capacity);
      r := Some(output);
    }
  }

  lemma AbsorbLast<S>(model: Model<S>, base: S, output: seq<Token>)
    requires |output| > 0
    ensures Absorb(model, base, output) == model.step(Absorb(model, base, output[..|output| - 1]), output[|output| - 1])
  {
  }

  method Prefill<S>(model: Model<S>, state: S, tokens: seq<Token>) returns (r: S)
    ensures r == Absorb(model, state, tokens)
  {
    r := state;
    for i := 0 to |tokens|
      invariant r == Absorb(model, state, tokens[..i])
    {
      assert tokens[..i + 1][..i] == tokens[..i];
      r := model.step(r, tokens[i]);
    }
    assert tokens[..|tokens|] == tokens;
  }

  method Decode<S>(model: Model<S>, base: S, n: nat) returns (output: seq<Token>)
    ensures output == Continue(model, base, n)
  {
    output := [];
    var state := base;
    while |output| < n
      invariant |output| <= n && output == Continue(model, base, |output|) && state == Absorb(model, base, output)
    {
      var token := model.predict(state);
      state := model.step(state, token);
      output := output + [token];
    }
  }

  // ---------------------------------------------------------------------- route choice

  predicate ShapeSupported(input: nat, prefix: nat, capacity: nat) {
    && 0 < prefix < input && input - prefix <= MAX_SUFFIX
    && 0 < capacity <= MAX_OUTPUT && input - prefix <= MAX_TAIL - (capacity - 1)
  }

  /** `n` is the length of the longest common prefix. */
  ghost predicate IsCommon(a: seq<Token>, b: seq<Token>, n: nat) {
    n <= |a| && n <= |b| && a[..n] == b[..n] && (n < |a| && n < |b| ==> a[n] != b[n])
  }

  method CommonPrefixTokens(a: seq<Token>, b: seq<Token>) returns (n: nat)
    ensures IsCommon(a, b, n)
  {
    n := 0;
    while n < |a| && n < |b| && a[n] == b[n]
      invariant n <= |a| && n <= |b| && a[..n] == b[..n]
    {
      n := n + 1;
    }
  }

  datatype Config = Config(enabled: bool, minimum: nat)
  datatype Route = Ordinary | Prefix(count: nat, seed: bool)

  /** The recorded prefix can serve the request. */
  predicate Usable(config: Config, resident: seq<Token>, input: seq<Token>, capacity: nat) {
    |resident| >= config.minimum && ShapeSupported(|input|, |resident|, capacity) && resident <= input
  }

  /** A prefix that leaves a suffix the engine takes in front of `capacity` outputs. */
  ghost predicate Leaves(input: nat, prefix: nat, capacity: nat) {
    1 <= prefix < input && input - prefix <= 1024 && input - prefix + (capacity - 1) <= 1536
  }

  /** The route of a request: the resident prefix where it can serve, then what the request shares
      with the previous one, then all of the input but its last token. */
  ghost predicate Chosen(config: Config, resident: seq<Token>, common: nat, input: seq<Token>, capacity: nat, route: Route) {
    var reuse := config.minimum <= |resident| && resident <= input && Leaves(|input|, |resident|, capacity);
    var shared := if common == |input| then common - 1 else common;
    && (route.Prefix? <==> config.enabled && 1 <= capacity <= 512 && 2 <= |input| < 8192 && config.minimum < |input|)
    && (route.Prefix? ==>
          && config.minimum <= route.count && Leaves(|input|, route.count, capacity)
          && (route.seed <==> !reuse)
          && route.count == if reuse then |resident|
                            else if config.minimum <= shared && Leaves(|input|, shared, capacity) then shared
                            else |input| - 1)
  }

  method SelectRoute(config: Config, resident: seq<Token>, previous: seq<Token>, input: seq<Token>, capacity: nat)
    returns (route: Route, ghost common: nat)
    ensures IsCommon(previous, input, common)
    ensures route.Prefix? ==> |input| - route.count <= 1024 && |input| - route.count + (capacity - 1) <= 1536
    ensures Chosen(config, resident, common, input, capacity, route)
  {
    route := Ordinary;
    var shared := CommonPrefixTokens(previous, input);
    common := shared;
    if config.enabled && |input| < CONTEXT_LIMIT {
      if Usable(config, resident, input, capacity) {
        route := Prefix(|resident|, false);
      } else if |previous| != 0 {
        if shared == |input| && shared != 0 {
          shared := shared - 1;
        }
        if shared >= config.minimum && ShapeSupported(|input|, shared, capacity) {
          route := Prefix(shared, true);
        }
      }
      if route.Ordinary? && |input| > config.minimum && ShapeSupported(|input|, |input| - 1, capacity) {
        route := Prefix(|input| - 1, true);
      }
    }
  }

  // ------------------------------------------------------------------------- the bridge

  /** What may go wrong while a request is served. */
  datatype Choices = Choices(seed: OrdinaryFate, seedStored: bool, resultAllocated: bool, prefix: PrefixFate,
                             ordinary: OrdinaryFate, previousStored: bool, residentStored: bool, reportAllocated: bool)

  predicate NothingFails(choices: Choices, capacity: nat) {
    && choices.seed.accepted && choices.ordinary.accepted && choices.seed.prefill && choices.seed.retained && choices.seed.outputs >= 1
    && choices.seedStored && choices.resultAllocated && choices.prefix.completed
    && choices.ordinary.prefill && choices.ordinary.retained && choices.ordinary.outputs >= capacity
    && choices.previousStored && choices.residentStored && choices.reportAllocated
  }

  datatype Call = Call(input: seq<Token>, capacity: nat, config: Config, choices: Choices)

  class Bridge<!S> {
    const engine: Engine<S>
    var residentPrefix: seq<Token>
    var previousRequest: seq<Token>

    constructor (model: Model<S>)
      ensures Valid() && Synced() && engine.model == model && fresh(engine)
    {
      engine := new Engine(model);
      residentPrefix, previousRequest := [], [];
    }

    ghost predicate Valid()
      reads this, engine
    {
      engine.Valid()
    }

    /** The record, unless it is empty, names what the engine holds. */
    ghost predicate Synced()
      reads this, engine
    {
      residentPrefix == [] || engine.Holds(residentPrefix)
    }

    /** One request that does not use the exact first-token provider. A result is the uncached
        generation for its own input, whatever happened before and whatever fails. */
    method Request(call: Call) returns (r: Option<seq<Token>>, route: Route, ghost served: bool, ghost common: nat)
      requires Valid()
      modifies this, engine
      ensures Valid()
      ensures r.Some? ==> call.input != [] && call.capacity > 0 && r.value == Generate(engine.model, call.input, call.capacity)
      ensures r.Some? <==> served && call.choices.reportAllocated
      ensures call.input != [] && call.capacity > 0 ==>
                && IsCommon(old(previousRequest), call.input, common)
                && Chosen(call.config, old(residentPrefix), common, call.input, call.capacity, route)
      ensures route.Prefix? ==>
                && 1 <= route.count < |call.input| && |call.input| - route.count <= 1024
                && |call.input| - route.count + (call.capacity - 1) <= 1536
      ensures route.Prefix? && served ==> residentPrefix == call.input[..route.count] && engine.Holds(residentPrefix)
      ensures route.Prefix? && !served ==> residentPrefix == [] || !call.choices.resultAllocated
      ensures route.Ordinary? && !served ==> residentPrefix == old(residentPrefix) && previousRequest == old(previousRequest)
      ensures served ==> previousRequest == if call.choices.previousStored then call.input else old(previousRequest)
      ensures old(Synced()) && Smooth(engine.model, call) ==> r.Some? && Synced()
    {
      var input, capacity, choices := call.input, call.capacity, call.choices;
      route, served, common := Ordinary, false, 0;
      if input == [] || capacity == 0 {
        return None, route, served, common;
      }
      route, common := SelectRoute(call.config, residentPrefix, previousRequest, input, capacity);
      if route.Prefix? {
        var seeded := true;
        if route.seed {
          seeded := Seed(input[..route.count], choices);
        }
        if seeded {
          r := ServePrefix(input, route.count, capacity, choices);
        } else {
          return None, route, served, common;
        }
      } else {
        r := ServeOrdinary(input, capacity, choices);
      }
      served := r.Some?;
      if !choices.reportAllocated {
        r := None;
      }
    }

    /** Load a prefix into the engine and record it. */
    method Seed(prefix: seq<Token>, choices: Choices) returns (ok: bool)
      requires Valid() && prefix != []
      modifies this, engine
      ensures Valid() && previousRequest == old(previousRequest)
      ensures residentPrefix == if ok then prefix else []
      ensures ok <==> choices.seed.accepted && choices.seed.prefill && choices.seed.outputs >= 1 && choices.seedStored
                      && Generate(engine.model, prefix, 1)[0] < 248320
      ensures ok && choices.seed.retained ==> engine.Holds(prefix)
    {
      var output := engine.Request(prefix, 1, choices.seed);
      ok := output.Some? && output.value[0] < VOCABULARY && choices.seedStored;
      residentPrefix := if ok then prefix else [];
    }

    method ServePrefix(input: seq<Token>, prefix: nat, capacity: nat, choices: Choices) returns (r: Option<seq<Token>>)
      requires Valid() && ShapeSupported(|input|, prefix, capacity) && residentPrefix == input[..prefix]
      modifies this, engine
      ensures Valid()
      ensures r.Some? ==> r.value == Generate(engine.model, input, capacity)
      ensures r.Some? <==> choices.resultAllocated && old(engine.Holds(input[..prefix])) && choices.prefix.completed
      ensures r.Some? ==> residentPrefix == input[..prefix] && engine.Holds(residentPrefix)
                          && previousRequest == if choices.previousStored then input else old(previousRequest)
      ensures r.None? ==> previousRequest == old(previousRequest)
                          && residentPrefix == if choices.resultAllocated then [] else old(residentPrefix)
    {
      if !choices.resultAllocated {
        return None;
      }
      r := engine.PrefixRequest(input, prefix, capacity, choices.prefix);
      if r.Some? {
        previousRequest := if choices.previousStored then input else previousRequest;
      } else {
        residentPrefix := [];
      }
    }

    method ServeOrdinary(input: seq<Token>, capacity: nat, choices: Choices) returns (r: Option<seq<Token>>)
      requires Valid() && input != [] && capacity > 0
      modifies this, engine
      ensures Valid()
      ensures r.Some? ==> r.value == Generate(engine.model, input, capacity)
      ensures NothingFails(choices, capacity) ==> r.Some? && Synced()
      ensures r.Some? ==> previousRequest == if choices.previousStored then input else old(previousRequest)
      ensures r.None? ==> residentPrefix == old(residentPrefix) && previousRequest == old(previousRequest)
    {
      r := engine.Request(input, capacity, choices.ordinary);
      if r.Some? {
        previousRequest := if choices.previousStored then input else previousRequest;
        if capacity == 1 {
          residentPrefix := if choices.residentStored then input else residentPrefix;
        } else {
          residentPrefix := [];
        }
      }
    }

    /** A whole history of requests, successful or not. */
    method ServeHistory(calls: seq<Call>) returns (results: seq<Option<seq<Token>>>)
      requires Valid()
      modifies this, engine
      ensures Valid() && |results| == |calls|
      ensures forall i :: 0 <= i < |calls| && results[i].Some? ==>
                results[i].value == Generate(engine.model, calls[i].input, calls[i].capacity)
      ensures old(Synced()) && (forall i :: 0 <= i < |calls| ==> Smooth(engine.model, calls[i])) ==>
                Synced() && forall i :: 0 <= i < |calls| ==> results[i].Some?
    {
      results := [];
      for n := 0 to |calls|
        invariant Valid() && |results| == n
        invariant forall i :: 0 <= i < n && results[i].Some? ==>
                    results[i].value == Generate(engine.model, calls[i].input, calls[i].capacity)
        invariant old(Synced()) && (forall i :: 0 <= i < n ==> Smooth(engine.model, calls[i])) ==>
                    Synced() && forall i :: 0 <= i < n ==> results[i].Some?
      {
        var r, _, _, _ := Request(calls[n]);
        results := results + [r];
      }
    }
  }

  /** The model predicts vocabulary tokens after every prefix of `input`. */
  ghost predicate Plausible<S>(model: Model<S>, input: seq<Token>) {
    forall n :: 0 < n <= |input| ==> Generate(model, input[..n], 1)[0] < VOCABULARY
  }

  ghost predicate Smooth<S>(model: Model<S>, call: Call) {
    call.input != [] && call.capacity > 0 && NothingFails(call.choices, call.capacity) && Plausible(model, call.input)
  }
}
