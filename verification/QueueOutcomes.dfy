/** Why a request of the server's queue ended as it did: every outcome but being served has its
    cause in the run. */
module QueueOutcomes {
  import opened Options
  import opened RequestQueue

  /** On the way to being turned away because of shutdown, or there. */
  predicate TurnedAway(p: Phase) {
    p.DroppingPermit? || p.LeavingShut? || p.CountingShut? || p == Done(ShutDown) || p == Done(FullUnavailable)
  }

  predicate FoundFull(p: Phase) {
    p.CountingFull? || p.ReportingFull? || p == Done(Full) || p == Done(FullUnavailable)
  }

  predicate RanOut(p: Phase) {
    p.Expiring? || p.LeavingExpired? || p.CountingExpired? || p == Done(TimedOut)
  }

  predicate WentAway(p: Phase) {
    p.Cancelling? || p.LeavingCancelled? || p == Done(Cancelled)
  }

  ghost predicate Stopped(events: seq<Event>, n: nat) {
    exists i :: 0 <= i < n <= |events| && events[i].StopAccepting?
  }

  /** Step `i` is the request's claim of a place in line, and the line is full. */
  ghost predicate MeetsFull(states: seq<State>, events: seq<Event>, i: nat, id: nat)
    requires IsRun(states, events) && i < |events|
  {
    && events[i] == Advance(id) && id < |states[i].requests| && states[i].requests[id].phase.Claiming?
    && states[i].counts.waiting == states[i].limit
  }

  ghost predicate MetFull(states: seq<State>, events: seq<Event>, n: nat, id: nat)
    requires IsRun(states, events) && n <= |events|
  {
    exists i :: 0 <= i < n && MeetsFull(states, events, i, id)
  }

  ghost predicate Happened(events: seq<Event>, n: nat, e: Event) {
    exists i :: 0 <= i < n <= |events| && events[i] == e
  }

  // ---------------------------------------------------------------------------- one event

  /** A closed gate accepts nothing. */
  ghost predicate ClosedStops(s: State) {
    s.gate.closed ==> !s.accepting
  }

  lemma ClosedKept(s: State, e: Event)
    requires Enabled(s, e) && ClosedStops(s)
    ensures ClosedStops(Apply(s, e))
    ensures !Apply(s, e).accepting ==> !s.accepting || e.StopAccepting?
  {
    if e.Advance? {
      GateStays(s, e.id);
    }
  }

  lemma GateStays(s: State, id: nat)
    requires Enabled(s, Advance(id))
    ensures NextGate(s, id).closed == s.gate.closed
  {
  }

  /** An operation turns a request away only when the server has stopped accepting. */
  lemma AdvanceTurnsAway(s: State, id: nat)
    requires Enabled(s, Advance(id)) && Inv(s) && ClosedStops(s)
    ensures TurnedAway(NextPhase(s, id)) ==> TurnedAway(s.requests[id].phase) || !s.accepting
  {
    assert Consistent(s.gate, id, s.requests[id].phase);
  }

  lemma AdvanceFindsFull(s: State, id: nat)
    requires Enabled(s, Advance(id)) && Inv(s)
    ensures FoundFull(NextPhase(s, id)) ==>
              FoundFull(s.requests[id].phase) || (s.requests[id].phase.Claiming? && s.counts.waiting == s.limit)
  {
  }

  lemma AdvanceGivesUp(s: State, id: nat)
    requires Enabled(s, Advance(id))
    ensures RanOut(NextPhase(s, id)) ==> RanOut(s.requests[id].phase)
    ensures WentAway(NextPhase(s, id)) ==> WentAway(s.requests[id].phase)
  {
  }

  /** The phase of a request after an event. */
  lemma PhaseAfter(s: State, e: Event, id: nat)
    requires Enabled(s, e) && id < |Apply(s, e).requests|
    ensures var after := Apply(s, e).requests[id].phase;
            if id >= |s.requests| then after == Arriving
            else match e
                 case Advance(k) => after == if k == id then NextPhase(s, id) else s.requests[id].phase
                 case Expire(k) => after == if k == id then Expiring else s.requests[id].phase
                 case Cancel(k) => after == if k == id then Cancelling else s.requests[id].phase
                 case _ => after == s.requests[id].phase
  {
  }

  // ----------------------------------------------------------------------------- whole runs

  lemma {:induction false} StoppedBefore(states: seq<State>, events: seq<Event>, n: nat)
    requires IsRun(states, events) && n < |states|
    ensures ClosedStops(states[n]) && (!states[n].accepting ==> Stopped(events, n))
  {
    if n > 0 {
      StoppedBefore(states, events, n - 1);
      ClosedKept(states[n - 1], events[n - 1]);
    }
  }

  /** A request that is turned away as shut down met a server that had stopped accepting. */
  lemma {:induction false} TurnedAwayCause(states: seq<State>, events: seq<Event>, n: nat, id: nat)
    requires IsRun(states, events) && n < |states| && id < |states[n].requests|
    ensures TurnedAway(states[n].requests[id].phase) ==> Stopped(events, n)
  {
    if n > 0 {
      var s, e := states[n - 1], events[n - 1];
      PhaseAfter(s, e, id);
      if id < |s.requests| {
        TurnedAwayCause(states, events, n - 1, id);
        StoppedBefore(states, events, n - 1);
        if e == Advance(id) {
          RunInv(states, events, n - 1);
          AdvanceTurnsAway(s, id);
        }
      }
    }
  }

  /** A request is rejected as one too many only if the line was full when it tried to join. */
  lemma {:induction false} FullCause(states: seq<State>, events: seq<Event>, n: nat, id: nat)
    requires IsRun(states, events) && n < |states| && id < |states[n].requests|
    ensures FoundFull(states[n].requests[id].phase) ==> MetFull(states, events, n, id)
  {
    if n > 0 {
      var s, e := states[n - 1], events[n - 1];
      PhaseAfter(s, e, id);
      if id < |s.requests| {
        FullCause(states, events, n - 1, id);
        if e == Advance(id) {
          RunInv(states, events, n - 1);
          AdvanceFindsFull(s, id);
          assert s.requests[id].phase.Claiming? && s.counts.waiting == s.limit ==> MeetsFull(states, events, n - 1, id);
        }
      }
    }
  }

  /** A request times out only after its own deadline, and is cancelled only by its own caller. */
  lemma {:induction false} GaveUpCause(states: seq<State>, events: seq<Event>, n: nat, id: nat)
    requires IsRun(states, events) && n < |states| && id < |states[n].requests|
    ensures RanOut(states[n].requests[id].phase) ==> Happened(events, n, Expire(id))
    ensures WentAway(states[n].requests[id].phase) ==> Happened(events, n, Cancel(id))
  {
    if n > 0 {
      var s, e := states[n - 1], events[n - 1];
      PhaseAfter(s, e, id);
      if id < |s.requests| {
        GaveUpCause(states, events, n - 1, id);
        if e == Advance(id) {
          AdvanceGivesUp(s, id);
        }
      }
    }
  }

  /** The outcome of every settled request: it was served unless its cause for something else is in
      the run. */
  lemma OutcomeCause(states: seq<State>, events: seq<Event>, n: nat, id: nat)
    requires IsRun(states, events) && n < |states| && id < |states[n].requests| && states[n].requests[id].phase.Done?
    ensures match states[n].requests[id].phase.outcome
            case Served => true
            case Full => MetFull(states, events, n, id)
            case FullUnavailable => MetFull(states, events, n, id) && Stopped(events, n)
            case TimedOut => Happened(events, n, Expire(id))
            case ShutDown => Stopped(events, n)
            case Cancelled => Happened(events, n, Cancel(id))
  {
    TurnedAwayCause(states, events, n, id);
    FullCause(states, events, n, id);
    GaveUpCause(states, events, n, id);
  }

  /** Without shutdown, and unless it timed out, was cancelled or met a full line, a settled request
      was served. */
  lemma OtherwiseServed(states: seq<State>, events: seq<Event>, n: nat, id: nat)
    requires IsRun(states, events) && n < |states| && id < |states[n].requests| && states[n].requests[id].phase.Done?
    requires !Stopped(events, n) && !MetFull(states, events, n, id)
    requires !Happened(events, n, Expire(id)) && !Happened(events, n, Cancel(id))
    ensures states[n].requests[id].phase == Done(Served)
  {
    OutcomeCause(states, events, n, id);
  }

  // ----------------------------------------------------------------- joining and starting

  /** Step `i` is an operation of the request in the phase `p`. */
  ghost predicate Does(states: seq<State>, events: seq<Event>, i: nat, id: nat, p: Phase)
    requires IsRun(states, events) && i < |events|
  {
    events[i] == Advance(id) && id < |states[i].requests| && states[i].requests[id].phase == p
  }

  /** The request was let in while the server accepted. */
  ghost predicate LetIn(states: seq<State>, events: seq<Event>, n: nat, id: nat)
    requires IsRun(states, events) && n <= |events|
  {
    exists i :: 0 <= i < n && Does(states, events, i, id, Arriving) && states[i].accepting
  }

  /** The request found the permit taken, and the gate open. */
  ghost predicate FoundBusy(states: seq<State>, events: seq<Event>, n: nat, id: nat)
    requires IsRun(states, events) && n <= |events|
  {
    exists i :: 0 <= i < n && Does(states, events, i, id, Trying) && states[i].gate.holder.Some? && !states[i].gate.closed
  }

  /** The request had the permit at once, and the server still accepted. */
  ghost predicate StartedAtOnce(states: seq<State>, events: seq<Event>, n: nat, id: nat)
    requires IsRun(states, events) && n <= |events|
  {
    exists i :: 0 <= i < n && Does(states, events, i, id, Rechecking) && states[i].accepting
  }

  /** The request asked for a place in line while the server accepted. */
  ghost predicate AskedInTime(states: seq<State>, events: seq<Event>, n: nat, id: nat)
    requires IsRun(states, events) && n <= |events|
  {
    exists i :: 0 <= i < n && Does(states, events, i, id, Reserving) && states[i].accepting
  }

  /** The request was told that the line is full while the server accepted. */
  ghost predicate ToldFull(states: seq<State>, events: seq<Event>, n: nat, id: nat)
    requires IsRun(states, events) && n <= |events|
  {
    exists i :: 0 <= i < n && Does(states, events, i, id, ReportingFull) && states[i].accepting
  }

  predicate BeyondArrival(p: Phase) {
    !p.Arriving? && !p.CountingShut? && p != Done(ShutDown)
  }

  /** On the way through the line, or given up on it. */
  predicate Joins(p: Phase) {
    p.Reserving? || p.Claiming? || p.CountingQueued? || p.Polling? || p.Queued? || FoundFull(p) || RanOut(p) || WentAway(p)
    || p.LeavingToStart? || p.LeavingShut?
  }

  /** Asking for a place in line, in line, or given up on it. */
  predicate Claims(p: Phase) {
    Joins(p) && !p.Reserving?
  }

  predicate Starts(p: Phase) {
    p.Activating? || HasStarted(p) || p == Done(Served)
  }

  lemma AdvanceEnters(s: State, id: nat)
    requires Enabled(s, Advance(id))
    ensures BeyondArrival(NextPhase(s, id)) ==>
              BeyondArrival(s.requests[id].phase) || (s.requests[id].phase.Arriving? && s.accepting)
  {
  }

  lemma AdvanceJoins(s: State, id: nat)
    requires Enabled(s, Advance(id))
    ensures Joins(NextPhase(s, id)) ==>
              Joins(s.requests[id].phase) || (s.requests[id].phase.Trying? && s.gate.holder.Some? && !s.gate.closed)
  {
  }

  lemma AdvanceClaims(s: State, id: nat)
    requires Enabled(s, Advance(id))
    ensures Claims(NextPhase(s, id)) ==> Claims(s.requests[id].phase) || (s.requests[id].phase.Reserving? && s.accepting)
    ensures NextPhase(s, id) == Done(Full) ==> s.requests[id].phase.ReportingFull? && s.accepting
  {
  }

  lemma AdvanceStarts(s: State, id: nat)
    requires Enabled(s, Advance(id))
    ensures Starts(NextPhase(s, id)) ==>
              || Starts(s.requests[id].phase) || s.requests[id].phase.LeavingToStart?
              || (s.requests[id].phase.Rechecking? && s.accepting)
  {
  }

  /** Only a request that met an accepting server gets anywhere. */
  lemma {:induction false} EntryCause(states: seq<State>, events: seq<Event>, n: nat, id: nat)
    requires IsRun(states, events) && n < |states| && id < |states[n].requests|
    ensures BeyondArrival(states[n].requests[id].phase) ==> LetIn(states, events, n, id)
  {
    if n > 0 {
      var s, e := states[n - 1], events[n - 1];
      PhaseAfter(s, e, id);
      if id < |s.requests| {
        EntryCause(states, events, n - 1, id);
        if e == Advance(id) {
          AdvanceEnters(s, id);
          assert Does(states, events, n - 1, id, s.requests[id].phase);
        }
      }
    }
  }

  /** Only a request that found the permit taken joins the line. */
  lemma {:induction false} JoinCause(states: seq<State>, events: seq<Event>, n: nat, id: nat)
    requires IsRun(states, events) && n < |states| && id < |states[n].requests|
    ensures Joins(states[n].requests[id].phase) ==> FoundBusy(states, events, n, id)
  {
    if n > 0 {
      var s, e := states[n - 1], events[n - 1];
      PhaseAfter(s, e, id);
      if id < |s.requests| {
        JoinCause(states, events, n - 1, id);
        if e == Advance(id) {
          AdvanceJoins(s, id);
          assert Does(states, events, n - 1, id, s.requests[id].phase);
        }
      }
    }
  }

  /** Only a request that asked while the server accepted gets as far as the line. */
  lemma {:induction false} ClaimCause(states: seq<State>, events: seq<Event>, n: nat, id: nat)
    requires IsRun(states, events) && n < |states| && id < |states[n].requests|
    ensures Claims(states[n].requests[id].phase) ==> AskedInTime(states, events, n, id)
  {
    if n > 0 {
      var s, e := states[n - 1], events[n - 1];
      PhaseAfter(s, e, id);
      if id < |s.requests| {
        ClaimCause(states, events, n - 1, id);
        if e == Advance(id) {
          AdvanceClaims(s, id);
          assert Does(states, events, n - 1, id, s.requests[id].phase);
        }
      }
    }
  }

  /** Only an accepting server reports a full line as such; otherwise it reports that it is
      unavailable. */
  lemma {:induction false} ReportCause(states: seq<State>, events: seq<Event>, n: nat, id: nat)
    requires IsRun(states, events) && n < |states| && id < |states[n].requests|
    ensures states[n].requests[id].phase == Done(Full) ==> ToldFull(states, events, n, id)
  {
    if n > 0 {
      var s, e := states[n - 1], events[n - 1];
      PhaseAfter(s, e, id);
      if id < |s.requests| {
        ReportCause(states, events, n - 1, id);
        if e == Advance(id) {
          AdvanceClaims(s, id);
          assert Does(states, events, n - 1, id, s.requests[id].phase);
        }
      }
    }
  }

  /** A request that starts came through the line, or had the permit while the server still
      accepted. */
  lemma {:induction false} StartCause(states: seq<State>, events: seq<Event>, n: nat, id: nat)
    requires IsRun(states, events) && n < |states| && id < |states[n].requests|
    ensures Starts(states[n].requests[id].phase) ==> FoundBusy(states, events, n, id) || StartedAtOnce(states, events, n, id)
  {
    if n > 0 {
      var s, e := states[n - 1], events[n - 1];
      PhaseAfter(s, e, id);
      if id < |s.requests| {
        StartCause(states, events, n - 1, id);
        JoinCause(states, events, n - 1, id);
        if e == Advance(id) {
          AdvanceStarts(s, id);
          assert Does(states, events, n - 1, id, s.requests[id].phase);
        }
      }
    }
  }
}
