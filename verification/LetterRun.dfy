/** The letter loop: generation that ends at the first answer letter A-J or when the output
    capacity is reached. It gives the meaning of a recorded run for the window analyses. */
module LetterRun {
  import opened Options

  type Token = nat

  const FIRST_LETTER: Token := 32
  const LAST_LETTER: Token := 41
  const CONTEXT_LIMIT: nat := 8192

  predicate IsLetter(token: Token) {
    FIRST_LETTER <= token <= LAST_LETTER
  }

  /** `path` was produced by `next`, token by token, and no token but possibly the last one is
      a letter. */
  ghost predicate IsPath(next: seq<Token> -> Option<Token>, path: seq<Token>) {
    && (forall i :: 0 <= i < |path| ==> next(path[..i]) == Some(path[i]))
    && (forall i :: 0 <= i < |path| - 1 ==> !IsLetter(path[i]))
  }

  ghost predicate Finished(path: seq<Token>, capacity: nat) {
    |path| > 0 && (IsLetter(path[|path| - 1]) || |path| == capacity)
  }

  /** `path` is the complete run of `next` under `capacity`. */
  ghost predicate IsRun(next: seq<Token> -> Option<Token>, capacity: nat, path: seq<Token>) {
    IsPath(next, path) && |path| <= capacity && Finished(path, capacity)
  }

  /** Every path of a selection rule starts the rule's run. */
  lemma {:induction false} PathInRun(next: seq<Token> -> Option<Token>, capacity: nat, path: seq<Token>, run: seq<Token>)
    requires IsRun(next, capacity, run) && IsPath(next, path) && |path| <= capacity
    ensures path <= run
  {
    if |path| > 0 {
      var n := |path| - 1;
      var front := path[..n];
      assert forall i :: 0 <= i < n ==> front[..i] == path[..i];
      PathInRun(next, capacity, front, run);
      assert n > 0 ==> !IsLetter(front[n - 1]);
      assert |run| > n;
      assert next(run[..n]) == Some(run[n]) && run[..n] == front;
    }
  }

  /** A selection rule has at most one run. */
  lemma RunUnique(next: seq<Token> -> Option<Token>, capacity: nat, a: seq<Token>, b: seq<Token>)
    requires IsRun(next, capacity, a) && IsRun(next, capacity, b)
    ensures a == b
  {
    PathInRun(next, capacity, a, b);
    PathInRun(next, capacity, b, a);
  }

  /** The exact-letter request of the bridge. `provider` is the exact first-token provider with
      its result checks: it yields nothing when a check fails. `accept(i)` is the stream
      callback's answer for output `i`. `memory` says whether there is room for the
      continued input, which is needed unless the first token ends the run. */
  method ExactLetters(provider: seq<Token> -> Option<Token>, accept: nat -> bool, memory: bool, input: seq<Token>, capacity: nat)
    returns (output: seq<Token>, completed: bool)
    requires 0 < |input| < CONTEXT_LIMIT && capacity > 0
    ensures var next := path => provider(input + path);
            && IsPath(next, output) && |output| <= capacity
            && (completed <==> IsRun(next, capacity, output) && (forall i :: 0 <= i < |output| ==> accept(i)))
            && (!completed ==> || (!memory && output == [])
                               || !accept(if |output| > 0 then |output| - 1 else 0)
                               || |input| + |output| >= CONTEXT_LIMIT
                               || next(output).None?)
  {
    ghost var next := path => provider(input + path);
    output, completed := [], false;
    assert input + [] == input;
    var token := provider(input);
    if token.Some? && !IsLetter(token.value) && capacity > 1 && !memory {
      return;
    }
    while token.Some?
      invariant IsPath(next, output) && |output| < capacity && token == next(output)
      invariant |output| > 0 ==> !IsLetter(output[|output| - 1])
      invariant forall i :: 0 <= i < |output| ==> accept(i)
      decreases capacity - |output|
    {
      ghost var before := output;
      output := output + [token.value];
      PathGrows(next, before, token.value);
      if !accept(|output| - 1) {
        if |output| == 1 && (IsLetter(token.value) || capacity == 1) {
          output := []; // a refused single-token answer is withdrawn
        }
        return;
      }
      if IsLetter(token.value) || |output| == capacity {
        completed := true;
        return;
      }
      if |input| + |output| >= CONTEXT_LIMIT {
        return;
      }
      token := provider(input + output);
    }
  }

  lemma PathGrows(next: seq<Token> -> Option<Token>, path: seq<Token>, token: Token)
    requires IsPath(next, path) && next(path) == Some(token)
    requires |path| > 0 ==> !IsLetter(path[|path| - 1])
    ensures IsPath(next, path + [token])
  {
    var grown := path + [token];
    assert grown[..|path|] == path;
    assert forall i :: 0 <= i < |path| ==> grown[..i] == path[..i];
  }
}
