/** The server's request queue: one permit, a bounded number of waiters, timeouts,
    cancellation and shutdown. One event is one atomic operation of one request. The
    semaphore's contract is part of the model: waiters are served first in, first out, a
    released permit goes to the head waiter, and a closed semaphore grants nothing. */
module RequestQueue {
  import opened Options
  import opened Sequences

  datatype Outcome = Served | Full | FullUnavailable | TimedOut | ShutDown | Cancelled

  /** Where a request stands: each phase names the operation it performs next. */
  datatype Phase =
    | Arriving            // load `accepting`
    | Trying              // `try_acquire_owned`
    | Rechecking          // permit held: load `accepting` again
    | DroppingPermit      // permit held: give it back
    | Reserving           // `reserve_waiter`: load `accepting`
    | Claiming            // `reserve_waiter`: conditional increment of `waiting`
    | CountingFull        // count the rejection
    | ReportingFull       // load `accepting` to choose the error
    | CountingQueued      // count the reservation
    | Polling             // first poll of `acquire_owned`
    | Queued              // suspended in `acquire_owned`, possibly granted meanwhile
    | Expiring            // timed out, the acquire future is not dropped yet
    | Cancelling          // the caller went away, the acquire future is not dropped yet
    | LeavingToStart      // permit held: drop the waiting guard
    | LeavingShut         // gate closed: drop the waiting guard
    | LeavingExpired      // timed out: drop the waiting guard
    | LeavingCancelled    // cancelled: drop the waiting guard
    | CountingExpired     // count the timeout
    | CountingShut        // count the shutdown rejection
    | Activating          // permit held: increment `active`
    | CountingStart       // permit held: count the start
    | Running             // permit held; ends by decrementing `active`
    | Completing          // permit held: count the completion
    | Releasing           // permit held: give it back
    | Done(outcome: Outcome)

  datatype Request = Request(phase: Phase, queued: bool)

  /** An enqueued waiter; tickets are numbered in the order of enqueueing. */
  datatype Waiter = Waiter(id: nat, ticket: nat)
  datatype Holder = Holder(id: nat, ticket: Option<nat>)

  /** The semaphore: who holds its one permit, and who waits for it. */
  datatype Gate = Gate(closed: bool, holder: Option<Holder>, fifo: seq<Waiter>, nextTicket: nat)

  datatype Counts = Counts(active: int, waiting: int, started: int, completed: int,
                           queued: int, rejected: int, timedOut: int, shutdown: int)

  /** `starts` logs the permit holders in the order in which they started; `late` counts the
      starts after the gate was closed. */
  datatype State = State(limit: nat, accepting: bool, requests: seq<Request>, gate: Gate, counts: Counts,
                         starts: seq<Holder>, late: nat)

  ghost predicate Initial(s: State) {
    && s.accepting && s.requests == [] && s.gate == Gate(false, None, [], 0)
    && s.counts == Counts(0, 0, 0, 0, 0, 0, 0, 0) && s.starts == [] && s.late == 0
  }

  datatype Event = Arrive | StopAccepting | CloseGate | Advance(id: nat) | Expire(id: nat) | Cancel(id: nat)

  predicate Holds(g: Gate, id: nat) {
    g.holder.Some? && g.holder.value.id == id
  }

  predicate InLine(g: Gate, id: nat) {
    exists w :: w in g.fifo && w.id == id
  }

  predicate Enabled(s: State, e: Event) {
    match e
    case Arrive => true
    case StopAccepting => s.accepting
    case CloseGate => !s.accepting && !s.gate.closed
    case Advance(id) => id < |s.requests| && !s.requests[id].phase.Done?
                        && (s.requests[id].phase.Queued? ==> Holds(s.gate, id) || !InLine(s.gate, id))
    case Expire(id) => id < |s.requests| && s.requests[id].phase.Queued? && !Holds(s.gate, id)
    case Cancel(id) => id < |s.requests| && s.requests[id].phase.Queued?
  }

  // --------------------------------------------------------------------- the semaphore

  function Take(g: Gate, id: nat): Gate {
    g.(holder := Some(Holder(id, None)))
  }

  function Enqueue(g: Gate, id: nat): Gate {
    g.(fifo := g.fifo + [Waiter(id, g.nextTicket)], nextTicket := g.nextTicket + 1)
  }

  /** The permit comes back: the head waiter gets it. */
  function Release(g: Gate): Gate {
    if g.fifo == [] then g.(holder := None)
    else g.(holder := Some(Holder(g.fifo[0].id, Some(g.fifo[0].ticket))), fifo := g.fifo[1..])
  }

  function Without(fifo: seq<Waiter>, id: nat): seq<Waiter> {
    if |fifo| == 0 then []
    else if fifo[|fifo| - 1].id == id then Without(fifo[..|fifo| - 1], id)
    else Without(fifo[..|fifo| - 1], id) + [fifo[|fifo| - 1]]
  }

  /** Dropping the acquire future: a granted permit is released, a waiter leaves the line. */
  function Forget(g: Gate, id: nat): Gate {
    if Holds(g, id) then Release(g) else g.(fifo := Without(g.fifo, id))
  }

  // -------------------------------------------------------------------- one operation

  /** What the request does next. */
  function NextPhase(s: State, id: nat): Phase
    requires Enabled(s, Advance(id))
  {
    match s.requests[id].phase
    case Arriving => if s.accepting then Trying else CountingShut
    case Trying => if s.gate.closed then CountingShut else if s.gate.holder.None? then Rechecking else Reserving
    case Rechecking => if s.accepting then Activating else DroppingPermit
    case DroppingPermit => CountingShut
    case Reserving => if s.accepting then Claiming else CountingShut
    case Claiming => if s.counts.waiting < s.limit then CountingQueued else CountingFull
    case CountingFull => ReportingFull
    case ReportingFull => Done(if s.accepting then Full else FullUnavailable)
    case CountingQueued => Polling
    case Polling => if s.gate.closed then LeavingShut else if s.gate.holder.None? then LeavingToStart else Queued
    case Queued => if Holds(s.gate, id) then LeavingToStart else LeavingShut
    case Expiring => LeavingExpired
    case Cancelling => LeavingCancelled
    case LeavingToStart => Activating
    case LeavingShut => CountingShut
    case LeavingExpired => CountingExpired
    case LeavingCancelled => Done(Cancelled)
    case CountingExpired => Done(TimedOut)
    case CountingShut => Done(ShutDown)
    case Activating => CountingStart
    case CountingStart => Running
    case Running => Completing
    case Completing => Releasing
    case Releasing => Done(Served)
  }

  /** What the operation does to the semaphore. */
  function NextGate(s: State, id: nat): Gate
    requires Enabled(s, Advance(id))
  {
    match s.requests[id].phase
    case Trying => if !s.gate.closed && s.gate.holder.None? then Take(s.gate, id) else s.gate
    case Polling => if s.gate.closed then s.gate else if s.gate.holder.None? then Take(s.gate, id) else Enqueue(s.gate, id)
    case Expiring => Forget(s.gate, id)
    case Cancelling => Forget(s.gate, id)
    case DroppingPermit => Release(s.gate)
    case Releasing => Release(s.gate)
    case _ => s.gate
  }

  /** What the operation does to the atomic counters. */
  function NextCounts(s: State, id: nat): Counts
    requires Enabled(s, Advance(id))
  {
    var n := s.counts;
    match s.requests[id].phase
    case Claiming => if n.waiting < s.limit then n.(waiting := n.waiting + 1) else n
    case CountingFull => n.(rejected := n.rejected + 1)
    case CountingQueued => n.(queued := n.queued + 1)
    case LeavingToStart => n.(waiting := n.waiting - 1)
    case LeavingShut => n.(waiting := n.waiting - 1)
    case LeavingExpired => n.(waiting := n.waiting - 1)
    case LeavingCancelled => n.(waiting := n.waiting - 1)
    case CountingExpired => n.(timedOut := n.timedOut + 1)
    case CountingShut => n.(shutdown := n.shutdown + 1)
    case Activating => n.(active := n.active + 1)
    case CountingStart => n.(started := n.started + 1)
    case Running => n.(active := n.active - 1)
    case Completing => n.(completed := n.completed + 1)
    case _ => n
  }

  function NextRequest(s: State, id: nat): Request
    requires Enabled(s, Advance(id))
  {
    Request(NextPhase(s, id), s.requests[id].queued || s.requests[id].phase.CountingQueued?)
  }

  function AdvanceRequest(s: State, id: nat): State
    requires Enabled(s, Advance(id))
  {
    var starts := s.requests[id].phase.Activating? && s.gate.holder.Some?;
    State(s.limit, s.accepting, s.requests[id := NextRequest(s, id)], NextGate(s, id), NextCounts(s, id),
          if starts then s.starts + [s.gate.holder.value] else s.starts,
          if starts && s.gate.closed then s.late + 1 else s.late)
  }

  function Move(s: State, id: nat, phase: Phase): State
    requires id < |s.requests|
  {
    s.(requests := s.requests[id := s.requests[id].(phase := phase)])
  }

  function Apply(s: State, e: Event): State
    requires Enabled(s, e)
  {
    match e
    case Arrive => s.(requests := s.requests + [Request(Arriving, false)])
    case StopAccepting => s.(accepting := false)
    case CloseGate => s.(gate := s.gate.(closed := true, fifo := []))
    case Advance(id) => AdvanceRequest(s, id)
    case Expire(id) => Move(s, id, Expiring)
    case Cancel(id) => Move(s, id, Cancelling)
  }

  // -------------------------------------------------------------------------- counting

  /** The atomic counters, and two figures that no atomic holds. */
  datatype Counter = Active | Waiting | Started | Completed | QueuedTotal | Rejected | TimedOutTotal | ShutdownTotal
                   | CancelledTotal | InFlight

  predicate Stored(c: Counter) {
    !c.CancelledTotal? && !c.InFlight?
  }

  function Value(n: Counts, c: Counter): int
    requires Stored(c)
  {
    match c
    case Active => n.active
    case Waiting => n.waiting
    case Started => n.started
    case Completed => n.completed
    case QueuedTotal => n.queued
    case Rejected => n.rejected
    case TimedOutTotal => n.timedOut
    case ShutdownTotal => n.shutdown
  }

  predicate StartCounted(p: Phase) {
    p.Running? || p.Completing? || p.Releasing? || p == Done(Served)
  }

  predicate FullCounted(p: Phase) {
    p.ReportingFull? || p == Done(Full) || p == Done(FullUnavailable)
  }

  /** Whether a request is one of those that a counter counts. */
  predicate Counted(r: Request, c: Counter) {
    var p := r.phase;
    match c
    case Active => p.CountingStart? || p.Running?
    case Waiting => p.CountingQueued? || p.Polling? || p.Queued? || p.Expiring? || p.Cancelling?
                    || p.LeavingToStart? || p.LeavingShut? || p.LeavingExpired? || p.LeavingCancelled?
    case Started => StartCounted(p)
    case Completed => p.Releasing? || p == Done(Served)
    case QueuedTotal => r.queued
    case Rejected => FullCounted(p)
    case TimedOutTotal => p == Done(TimedOut)
    case ShutdownTotal => p == Done(ShutDown)
    case CancelledTotal => p == Done(Cancelled)
    case InFlight => !p.Done? && !StartCounted(p) && !FullCounted(p)
  }

  /** How many requests are counted by `c`. */
  function Tally(requests: seq<Request>, c: Counter): (n: nat)
    ensures n <= |requests|
  {
    if |requests| == 0 then 0
    else Tally(requests[..|requests| - 1], c) + Unit(Counted(requests[|requests| - 1], c))
  }

  function Unit(b: bool): nat { if b then 1 else 0 }

  lemma {:induction false} TallyUpdate(requests: seq<Request>, c: Counter, i: nat, r: Request)
    requires i < |requests|
    ensures Tally(requests[i := r], c) == Tally(requests, c) - Unit(Counted(requests[i], c)) + Unit(Counted(r, c))
  {
    var n := |requests| - 1;
    if i == n {
      assert requests[i := r][..n] == requests[..n];
    } else {
      assert requests[i := r][..n] == requests[..n][i := r];
      TallyUpdate(requests[..n], c, i, r);
    }
  }

  /** Every counter holds the number of requests it should. */
  ghost predicate CountersAgree(s: State) {
    forall c: Counter :: Stored(c) ==> Value(s.counts, c) == Tally(s.requests, c)
  }

  predicate Unqueued(p: Phase) {
    p.Arriving? || p.Trying? || p.Rechecking? || p.DroppingPermit? || p.Reserving? || p.Claiming? || p.CountingQueued?
  }

  /** A counter changes exactly as the request's standing does. */
  lemma CountsFollow(s: State, id: nat, c: Counter)
    requires Enabled(s, Advance(id)) && Stored(c)
    requires Unqueued(s.requests[id].phase) ==> !s.requests[id].queued
    ensures Value(NextCounts(s, id), c)
            == Value(s.counts, c) - Unit(Counted(s.requests[id], c)) + Unit(Counted(NextRequest(s, id), c))
  {
  }

  lemma ArrivalUncounted(requests: seq<Request>, c: Counter)
    requires Stored(c)
    ensures Tally(requests + [Request(Arriving, false)], c) == Tally(requests, c)
  {
    assert (requests + [Request(Arriving, false)])[..|requests|] == requests;
  }

  /** Timing out and being cancelled count as waiting until the guard is dropped. */
  lemma GivingUpUncounted(requests: seq<Request>, id: nat, phase: Phase, c: Counter)
    requires id < |requests| && requests[id].phase.Queued? && (phase.Expiring? || phase.Cancelling?)
    ensures Tally(requests[id := requests[id].(phase := phase)], c) == Tally(requests, c)
  {
    TallyUpdate(requests, c, id, requests[id].(phase := phase));
  }

  lemma AdvanceCounter(s: State, id: nat, c: Counter)
    requires Enabled(s, Advance(id)) && Stored(c) && Value(s.counts, c) == Tally(s.requests, c)
    requires Unqueued(s.requests[id].phase) ==> !s.requests[id].queued
    ensures Value(NextCounts(s, id), c) == Tally(s.requests[id := NextRequest(s, id)], c)
  {
    var next := NextRequest(s, id);
    CountsFollow(s, id, c);
    TallyUpdate(s.requests, c, id, next);
  }

  /** The counters stay right. */
  lemma CountersKept(s: State, e: Event)
    requires Enabled(s, e) && CountersAgree(s) && QueuedFlags(s.requests)
    ensures CountersAgree(Apply(s, e))
  {
    forall c: Counter | Stored(c)
      ensures Value(Apply(s, e).counts, c) == Tally(Apply(s, e).requests, c)
    {
      match e
      case Arrive => ArrivalUncounted(s.requests, c);
      case StopAccepting =>
      case CloseGate =>
      case Advance(id) => AdvanceCounter(s, id, c);
      case Expire(id) => GivingUpUncounted(s.requests, id, Expiring, c);
      case Cancel(id) => GivingUpUncounted(s.requests, id, Cancelling, c);
    }
  }

  lemma QueuedFlagsKept(s: State, e: Event)
    requires Enabled(s, e) && QueuedFlags(s.requests)
    ensures QueuedFlags(Apply(s, e).requests)
  {
  }

  ghost predicate QueuedFlags(requests: seq<Request>) {
    forall i :: 0 <= i < |requests| ==> Unqueued(requests[i].phase) ==> !requests[i].queued
  }

  // ------------------------------------------------------------- permit and waiting line

  /** Phases in which a request surely holds the permit. */
  predicate MustHold(p: Phase) {
    p.Rechecking? || p.DroppingPermit? || p.LeavingToStart? || p.Activating? || HasStarted(p)
  }

  predicate HasStarted(p: Phase) {
    p.CountingStart? || p.Running? || p.Completing? || p.Releasing?
  }

  /** Phases in which the acquire future exists: the permit may have been granted to it. */
  predicate Acquiring(p: Phase) {
    p.Queued? || p.Expiring? || p.Cancelling?
  }

  /** What the gate and one request know about each other. */
  ghost predicate Consistent(g: Gate, id: nat, p: Phase) {
    && (MustHold(p) ==> Holds(g, id))
    && (Holds(g, id) ==> MustHold(p) || Acquiring(p))
    && (InLine(g, id) ==> Acquiring(p) && !Holds(g, id))
    && (p.Queued? ==> Holds(g, id) || InLine(g, id) || g.closed)
  }

  ghost predicate Sorted(fifo: seq<Waiter>) {
    forall j, k :: 0 <= j < k < |fifo| ==> fifo[j].ticket < fifo[k].ticket && fifo[j].id != fifo[k].id
  }

  ghost predicate GateOk(g: Gate, n: nat) {
    && Sorted(g.fifo)
    && (forall w :: w in g.fifo ==> w.id < n && w.ticket < g.nextTicket)
    && (g.holder.Some? ==> g.holder.value.id < n)
    && (g.holder.None? || g.closed ==> g.fifo == [])
  }

  ghost predicate AllConsistent(g: Gate, requests: seq<Request>) {
    GateOk(g, |requests|) && forall i :: 0 <= i < |requests| ==> Consistent(g, i, requests[i].phase)
  }

  lemma {:induction false} WithoutKeeps(fifo: seq<Waiter>, id: nat)
    requires Sorted(fifo)
    ensures Sorted(Without(fifo, id))
    ensures forall w :: w in Without(fifo, id) <==> w in fifo && w.id != id
  {
    if |fifo| > 0 {
      var n := |fifo| - 1;
      var front := fifo[..n];
      WithoutKeeps(front, id);
      assert fifo == front + [fifo[n]];
      assert forall w :: w in front ==> w.ticket < fifo[n].ticket && w.id != fifo[n].id;
    }
  }

  /** Releasing hands the permit to a waiter in line, who leaves the line. */
  lemma ReleaseFacts(g: Gate, n: nat)
    requires GateOk(g, n)
    ensures GateOk(Release(g), n)
    ensures forall i :: InLine(g, i) <==> Holds(Release(g), i) || InLine(Release(g), i)
    ensures forall i :: !(Holds(Release(g), i) && InLine(Release(g), i))
  {
    var h := Release(g);
    if g.fifo != [] {
      var head := g.fifo[0];
      assert forall w :: w in g.fifo <==> w == head || w in h.fifo;
      assert forall w :: w in h.fifo ==> w.id != head.id;
    }
  }

  /** A granted permit leaves every other request consistent. */
  lemma ReleaseKeeps(g: Gate, requests: seq<Request>, id: nat, next: Request)
    requires AllConsistent(g, requests) && id < |requests| && Holds(g, id)
    requires !MustHold(next.phase) && !Acquiring(next.phase)
    ensures AllConsistent(Release(g), requests[id := next])
  {
    var h, after := Release(g), requests[id := next];
    ReleaseFacts(g, |requests|);
    forall i | 0 <= i < |after|
      ensures Consistent(h, i, after[i].phase)
    {
      assert Consistent(g, i, requests[i].phase);
    }
  }

  lemma ForgetKeeps(g: Gate, requests: seq<Request>, id: nat, next: Request)
    requires AllConsistent(g, requests) && id < |requests|
    requires !MustHold(requests[id].phase) && !MustHold(next.phase) && !Acquiring(next.phase)
    ensures AllConsistent(Forget(g, id), requests[id := next])
  {
    if Holds(g, id) {
      ReleaseKeeps(g, requests, id, next);
    } else {
      WithoutKeeps(g.fifo, id);
      var h, after := Forget(g, id), requests[id := next];
      forall i | 0 <= i < |after|
        ensures Consistent(h, i, after[i].phase)
      {
        assert Consistent(g, i, requests[i].phase);
        assert InLine(h, i) <==> InLine(g, i) && i != id;
      }
    }
  }

  lemma TakeKeeps(g: Gate, requests: seq<Request>, id: nat, next: Request)
    requires AllConsistent(g, requests) && id < |requests| && g.holder.None? && MustHold(next.phase)
    ensures AllConsistent(Take(g, id), requests[id := next])
  {
    var h, after := Take(g, id), requests[id := next];
    forall i | 0 <= i < |after|
      ensures Consistent(h, i, after[i].phase)
    {
      assert Consistent(g, i, requests[i].phase);
    }
  }

  lemma EnqueueKeeps(g: Gate, requests: seq<Request>, id: nat, next: Request)
    requires AllConsistent(g, requests) && id < |requests| && g.holder.Some? && !g.closed
    requires requests[id].phase.Polling? && next.phase.Queued?
    ensures AllConsistent(Enqueue(g, id), requests[id := next])
  {
    var h, last, after := Enqueue(g, id), Waiter(id, g.nextTicket), requests[id := next];
    assert Consistent(g, id, requests[id].phase);
    assert h.fifo == g.fifo + [last] && last in h.fifo;
    assert forall w :: w in h.fifo <==> w in g.fifo || w == last;
    forall i | 0 <= i < |after|
      ensures Consistent(h, i, after[i].phase)
    {
      assert Consistent(g, i, requests[i].phase);
      assert InLine(h, i) <==> InLine(g, i) || i == id;
    }
  }

  /** A move that leaves the gate alone. */
  lemma MoveKeeps(g: Gate, requests: seq<Request>, id: nat, next: Request)
    requires AllConsistent(g, requests) && id < |requests| && Consistent(g, id, next.phase)
    ensures AllConsistent(g, requests[id := next])
  {
    var after := requests[id := next];
    forall i | 0 <= i < |after|
      ensures Consistent(g, i, after[i].phase)
    {
      assert Consistent(g, i, requests[i].phase);
    }
  }

  lemma MoveConsistent(s: State, id: nat)
    requires Enabled(s, Advance(id)) && AllConsistent(s.gate, s.requests)
    requires var p := s.requests[id].phase;
             !p.Expiring? && !p.Cancelling? && !p.DroppingPermit? && !p.Releasing?
             && (p.Trying? || p.Polling? ==> s.gate.closed || (p.Trying? && s.gate.holder.Some?))
    ensures NextGate(s, id) == s.gate && Consistent(s.gate, id, NextPhase(s, id))
  {
    assert Consistent(s.gate, id, s.requests[id].phase);
  }

  lemma AdvanceConsistent(s: State, id: nat)
    requires Enabled(s, Advance(id)) && AllConsistent(s.gate, s.requests)
    ensures AllConsistent(NextGate(s, id), s.requests[id := NextRequest(s, id)])
  {
    var p, next := s.requests[id].phase, NextRequest(s, id);
    assert Consistent(s.gate, id, p);
    if p.Expiring? || p.Cancelling? {
      ForgetKeeps(s.gate, s.requests, id, next);
    } else if p.DroppingPermit? || p.Releasing? {
      ReleaseKeeps(s.gate, s.requests, id, next);
    } else if (p.Trying? || p.Polling?) && !s.gate.closed && s.gate.holder.None? {
      TakeKeeps(s.gate, s.requests, id, next);
    } else if p.Polling? && !s.gate.closed {
      EnqueueKeeps(s.gate, s.requests, id, next);
    } else {
      MoveConsistent(s, id);
      MoveKeeps(s.gate, s.requests, id, next);
    }
  }

  /** The permit and the line stay consistent with what every request believes. */
  lemma ConsistencyKept(s: State, e: Event)
    requires Enabled(s, e) && AllConsistent(s.gate, s.requests)
    ensures AllConsistent(Apply(s, e).gate, Apply(s, e).requests)
  {
    var t := Apply(s, e);
    match e
    case Arrive =>
      forall i | 0 <= i < |t.requests|
        ensures Consistent(t.gate, i, t.requests[i].phase)
      {
        assert i < |s.requests| ==> Consistent(s.gate, i, s.requests[i].phase);
      }
    case StopAccepting =>
    case CloseGate =>
      forall i | 0 <= i < |t.requests|
        ensures Consistent(t.gate, i, t.requests[i].phase)
      {
        assert Consistent(s.gate, i, s.requests[i].phase);
      }
    case Advance(id) => AdvanceConsistent(s, id);
    case Expire(id) =>
      assert Consistent(s.gate, id, s.requests[id].phase);
      MoveKeeps(s.gate, s.requests, id, t.requests[id]);
    case Cancel(id) =>
      assert Consistent(s.gate, id, s.requests[id].phase);
      MoveKeeps(s.gate, s.requests, id, t.requests[id]);
  }

  // ------------------------------------------------------------------------ start order

  /** Every logged start of an enqueued waiter has a ticket below `t`. */
  ghost predicate Before(starts: seq<Holder>, t: nat) {
    forall k :: 0 <= k < |starts| && starts[k].ticket.Some? ==> starts[k].ticket.value < t
  }

  ghost predicate LogSorted(starts: seq<Holder>) {
    forall j, k :: 0 <= j < k < |starts| && starts[j].ticket.Some? && starts[k].ticket.Some? ==>
      starts[j].ticket.value < starts[k].ticket.value
  }

  ghost predicate HolderInOrder(g: Gate, requests: seq<Request>, starts: seq<Holder>)
    requires GateOk(g, |requests|)
  {
    g.holder.Some? && g.holder.value.ticket.Some? ==>
      var t := g.holder.value.ticket.value;
      && t < g.nextTicket && (forall w :: w in g.fifo ==> t < w.ticket)
      && (!HasStarted(requests[g.holder.value.id].phase) ==> Before(starts, t))
  }

  /** Started waiters come before all that still wait, in the order of their tickets. */
  ghost predicate InOrder(s: State)
    requires GateOk(s.gate, |s.requests|)
  {
    && LogSorted(s.starts) && Before(s.starts, s.gate.nextTicket)
    && (forall w :: w in s.gate.fifo ==> Before(s.starts, w.ticket))
    && HolderInOrder(s.gate, s.requests, s.starts)
  }

  lemma ReleaseInOrder(s: State, t: State, id: nat)
    requires AllConsistent(s.gate, s.requests) && InOrder(s) && id < |s.requests| && Holds(s.gate, id)
    requires t.gate == Release(s.gate) && t.starts == s.starts && |t.requests| == |s.requests|
    requires GateOk(t.gate, |t.requests|)
    ensures InOrder(t)
  {
    if s.gate.fifo != [] {
      assert s.gate.fifo[0] in s.gate.fifo;
      assert forall w :: w in t.gate.fifo ==> w in s.gate.fifo && s.gate.fifo[0].ticket < w.ticket;
    }
  }

  lemma ForgetInOrder(s: State, t: State, id: nat)
    requires AllConsistent(s.gate, s.requests) && InOrder(s) && id < |s.requests|
    requires t.gate == Forget(s.gate, id) && t.starts == s.starts
    requires |t.requests| == |s.requests| && t.requests == s.requests[id := t.requests[id]]
    requires GateOk(t.gate, |t.requests|)
    ensures InOrder(t)
  {
    if Holds(s.gate, id) {
      ReleaseInOrder(s, t, id);
    } else {
      WithoutKeeps(s.gate.fifo, id);
    }
  }

  lemma StartInOrder(s: State, t: State, id: nat)
    requires AllConsistent(s.gate, s.requests) && InOrder(s) && id < |s.requests|
    requires Holds(s.gate, id) && s.requests[id].phase.Activating?
    requires t.gate == s.gate && t.starts == s.starts + [s.gate.holder.value]
    requires |t.requests| == |s.requests| && HasStarted(t.requests[id].phase)
    ensures InOrder(t)
  {
  }

  lemma TakeInOrder(s: State, t: State, id: nat)
    requires GateOk(s.gate, |s.requests|) && InOrder(s) && GateOk(t.gate, |t.requests|)
    requires t.gate == Take(s.gate, id) && t.starts == s.starts
    ensures InOrder(t)
  {
  }

  lemma MoveInOrder(s: State, t: State, id: nat)
    requires GateOk(s.gate, |s.requests|) && InOrder(s) && id < |s.requests|
    requires t.gate == s.gate && t.starts == s.starts
    requires |t.requests| == |s.requests| && t.requests == s.requests[id := t.requests[id]]
    requires HasStarted(s.requests[id].phase) ==> HasStarted(t.requests[id].phase)
    ensures InOrder(t)
  {
  }

  lemma EnqueueInOrder(s: State, t: State, id: nat)
    requires AllConsistent(s.gate, s.requests) && InOrder(s) && id < |s.requests| && s.requests[id].phase.Polling?
    requires t.gate == Enqueue(s.gate, id) && t.starts == s.starts && GateOk(t.gate, |t.requests|)
    requires |t.requests| == |s.requests| && t.requests == s.requests[id := t.requests[id]]
    ensures InOrder(t)
  {
    assert Consistent(s.gate, id, s.requests[id].phase);
    assert forall w :: w in t.gate.fifo <==> w in s.gate.fifo || w == Waiter(id, s.gate.nextTicket);
  }

  lemma StaysStarted(s: State, id: nat)
    requires Enabled(s, Advance(id))
    ensures s.requests[id].phase.Releasing? || (HasStarted(s.requests[id].phase) ==> HasStarted(NextPhase(s, id)))
  {
  }

  lemma AdvanceInOrder(s: State, id: nat)
    requires Enabled(s, Advance(id)) && AllConsistent(s.gate, s.requests) && InOrder(s)
    requires AllConsistent(NextGate(s, id), s.requests[id := NextRequest(s, id)])
    ensures InOrder(AdvanceRequest(s, id))
  {
    var p, t := s.requests[id].phase, AdvanceRequest(s, id);
    assert Consistent(s.gate, id, p);
    if p.Expiring? || p.Cancelling? {
      ForgetInOrder(s, t, id);
    } else if p.DroppingPermit? || p.Releasing? {
      ReleaseInOrder(s, t, id);
    } else if p.Activating? {
      StartInOrder(s, t, id);
    } else if p.Polling? && !s.gate.closed && s.gate.holder.Some? {
      EnqueueInOrder(s, t, id);
    } else if (p.Trying? || p.Polling?) && !s.gate.closed && s.gate.holder.None? {
      TakeInOrder(s, t, id);
    } else {
      StaysStarted(s, id);
      MoveInOrder(s, t, id);
    }
  }

  lemma OrderKept(s: State, e: Event)
    requires Enabled(s, e) && AllConsistent(s.gate, s.requests) && InOrder(s)
    requires AllConsistent(Apply(s, e).gate, Apply(s, e).requests)
    ensures InOrder(Apply(s, e))
  {
    match e
    case Arrive =>
    case StopAccepting =>
    case CloseGate =>
    case Advance(id) => AdvanceInOrder(s, id);
    case Expire(id) => MoveInOrder(s, Apply(s, e), id);
    case Cancel(id) => MoveInOrder(s, Apply(s, e), id);
  }

  // --------------------------------------------------------------- starts after closing

  /** After the gate is closed at most one request starts, and then nobody can any more. */
  ghost predicate LateOk(s: State)
    requires GateOk(s.gate, |s.requests|)
  {
    && s.late <= 1 && (!s.gate.closed ==> s.late == 0)
    && (s.late == 1 && s.gate.holder.Some? ==> HasStarted(s.requests[s.gate.holder.value.id].phase))
  }

  lemma LateKept(s: State, e: Event)
    requires Enabled(s, e) && AllConsistent(s.gate, s.requests) && LateOk(s)
    requires AllConsistent(Apply(s, e).gate, Apply(s, e).requests)
    ensures LateOk(Apply(s, e))
  {
    if e.Advance? {
      assert Consistent(s.gate, e.id, s.requests[e.id].phase);
      StaysStarted(s, e.id);
    }
  }

  // -------------------------------------------------------------------------- all runs

  ghost predicate Inv(s: State) {
    && QueuedFlags(s.requests) && CountersAgree(s) && AllConsistent(s.gate, s.requests)
    && InOrder(s) && LateOk(s) && s.counts.waiting <= s.limit
  }

  lemma WaitingKept(s: State, e: Event)
    requires Enabled(s, e) && s.counts.waiting <= s.limit
    ensures Apply(s, e).counts.waiting <= Apply(s, e).limit
  {
  }

  lemma InitialInv(s: State)
    requires Initial(s)
    ensures Inv(s)
  {
  }

  lemma InvKept(s: State, e: Event)
    requires Enabled(s, e) && Inv(s)
    ensures Inv(Apply(s, e))
  {
    CountersKept(s, e);
    QueuedFlagsKept(s, e);
    ConsistencyKept(s, e);
    OrderKept(s, e);
    LateKept(s, e);
    WaitingKept(s, e);
  }

  /** A run: any sequence of enabled events. */
  ghost predicate IsRun(states: seq<State>, events: seq<Event>) {
    && |states| == |events| + 1 && Initial(states[0])
    && forall i :: 0 <= i < |events| ==> Enabled(states[i], events[i]) && states[i + 1] == Apply(states[i], events[i])
  }

  lemma {:induction false} RunInv(states: seq<State>, events: seq<Event>, n: nat)
    requires IsRun(states, events) && n < |states|
    ensures Inv(states[n])
  {
    if n == 0 {
      InitialInv(states[0]);
    } else {
      RunInv(states, events, n - 1);
      InvKept(states[n - 1], events[n - 1]);
    }
  }

  lemma {:induction false} AtMostOne(requests: seq<Request>, c: Counter, h: nat)
    requires forall i :: 0 <= i < |requests| && Counted(requests[i], c) ==> i == h
    ensures Tally(requests, c) <= if h < |requests| then 1 else 0
  {
    if |requests| > 0 {
      AtMostOne(requests[..|requests| - 1], c, h);
    }
  }

  lemma ActiveAtMostOne(s: State)
    requires Inv(s)
    ensures 0 <= s.counts.active <= 1
  {
    var h := if s.gate.holder.Some? then s.gate.holder.value.id else |s.requests|;
    assert Value(s.counts, Active) == Tally(s.requests, Active);
    forall i | 0 <= i < |s.requests| && Counted(s.requests[i], Active)
      ensures i == h
    {
      assert Consistent(s.gate, i, s.requests[i].phase);
    }
    AtMostOne(s.requests, Active, h);
  }

  lemma OneStanding(r: Request)
    ensures Unit(Counted(r, Started)) + Unit(Counted(r, Rejected)) + Unit(Counted(r, TimedOutTotal))
            + Unit(Counted(r, ShutdownTotal)) + Unit(Counted(r, CancelledTotal)) + Unit(Counted(r, InFlight)) == 1
  {
    if r.phase.Done? {
      match r.phase.outcome
      case Served =>
      case Full =>
      case FullUnavailable =>
      case TimedOut =>
      case ShutDown =>
      case Cancelled =>
    }
  }

  /** Every arrival has exactly one standing. */
  lemma {:induction false} Partition(requests: seq<Request>)
    ensures |requests| == Tally(requests, Started) + Tally(requests, Rejected) + Tally(requests, TimedOutTotal)
                          + Tally(requests, ShutdownTotal) + Tally(requests, CancelledTotal) + Tally(requests, InFlight)
  {
    if |requests| > 0 {
      Partition(requests[..|requests| - 1]);
      OneStanding(requests[|requests| - 1]);
    }
  }

  /** What holds in every state of every run. */
  lemma Safety(states: seq<State>, events: seq<Event>, n: nat)
    requires IsRun(states, events) && n < |states|
    ensures var s := states[n];
            && 0 <= s.counts.active <= 1
            && 0 <= s.counts.waiting <= s.limit
            && LogSorted(s.starts) && (forall w :: w in s.gate.fifo ==> Before(s.starts, w.ticket))
            && s.late <= 1
            && |s.requests| == s.counts.started + s.counts.rejected + s.counts.timedOut + s.counts.shutdown
                               + Tally(s.requests, CancelledTotal) + Tally(s.requests, InFlight)
  {
    var s := states[n];
    RunInv(states, events, n);
    ActiveAtMostOne(s);
    Partition(s.requests);
    StoredTotals(s);
  }

  // -------------------------------------------------------------------------- progress

  /** An upper bound on the operations a request still performs. */
  function Rank(p: Phase): nat {
    match p
    case Arriving => 16
    case Trying => 15
    case Rechecking => 14
    case DroppingPermit => 13
    case Reserving => 14
    case Claiming => 13
    case CountingFull => 12
    case ReportingFull => 11
    case CountingQueued => 12
    case Polling => 11
    case Queued => 10
    case Expiring => 9
    case Cancelling => 9
    case LeavingToStart => 8
    case LeavingShut => 8
    case LeavingExpired => 8
    case LeavingCancelled => 8
    case CountingExpired => 7
    case CountingShut => 7
    case Activating => 7
    case CountingStart => 6
    case Running => 5
    case Completing => 4
    case Releasing => 3
    case Done(_) => 0
  }

  ghost function Ranks(requests: seq<Request>): seq<int> {
    seq(|requests|, i requires 0 <= i < |requests| => Rank(requests[i].phase))
  }

  ghost function Measure(s: State): int {
    Sum(Ranks(s.requests)) + Unit(s.accepting) + Unit(!s.gate.closed)
  }

  lemma MoveLowers(requests: seq<Request>, id: nat, next: Request)
    requires id < |requests| && Rank(next.phase) < Rank(requests[id].phase)
    ensures Sum(Ranks(requests[id := next])) < Sum(Ranks(requests))
  {
    assert Ranks(requests[id := next]) == Ranks(requests)[id := Rank(next.phase)];
    SumUpdate(Ranks(requests), id, Rank(next.phase));
  }

  lemma AdvanceLowersRank(s: State, id: nat)
    requires Enabled(s, Advance(id))
    ensures Rank(NextPhase(s, id)) < Rank(s.requests[id].phase)
  {
  }

  /** Every event but an arrival lowers the measure. */
  lemma EventLowers(s: State, e: Event)
    requires Enabled(s, e) && !e.Arrive?
    ensures 0 <= Measure(Apply(s, e)) < Measure(s)
  {
    var t := Apply(s, e);
    SumNonnegative(Ranks(t.requests));
    match e
    case StopAccepting =>
    case CloseGate =>
    case Advance(id) =>
      AdvanceLowersRank(s, id);
      MoveLowers(s.requests, id, NextRequest(s, id));
    case Expire(id) => MoveLowers(s.requests, id, t.requests[id]);
    case Cancel(id) => MoveLowers(s.requests, id, t.requests[id]);
  }

  ghost predicate Settled(s: State) {
    forall i :: 0 <= i < |s.requests| ==> s.requests[i].phase.Done?
  }

  /** While a request is unsettled some request can perform its next operation, even if
      nothing times out or is cancelled. */
  lemma NeverStuck(s: State) returns (id: nat)
    requires Inv(s) && !Settled(s)
    ensures Enabled(s, Advance(id))
  {
    id :| 0 <= id < |s.requests| && !s.requests[id].phase.Done?;
    assert Consistent(s.gate, id, s.requests[id].phase);
    if s.requests[id].phase.Queued? && !Holds(s.gate, id) && InLine(s.gate, id) {
      id := s.gate.holder.value.id;
      assert Consistent(s.gate, id, s.requests[id].phase);
    }
  }

  lemma {:induction false} NoneCounted(requests: seq<Request>, c: Counter)
    requires forall i :: 0 <= i < |requests| ==> !Counted(requests[i], c)
    ensures Tally(requests, c) == 0
  {
    if |requests| > 0 {
      NoneCounted(requests[..|requests| - 1], c);
    }
  }

  lemma {:induction false} SameTally(requests: seq<Request>, c: Counter, d: Counter)
    requires forall i :: 0 <= i < |requests| ==> (Counted(requests[i], c) <==> Counted(requests[i], d))
    ensures Tally(requests, c) == Tally(requests, d)
  {
    if |requests| > 0 {
      SameTally(requests[..|requests| - 1], c, d);
    }
  }

  /** Once all requests are settled, the counters account for every arrival, nobody is active
      or waiting, and the permit is free. */
  lemma SettledTotals(s: State)
    requires Inv(s) && Settled(s)
    ensures s.counts.active == 0 && s.counts.waiting == 0 && s.gate.holder.None?
    ensures s.gate.fifo == []
    ensures s.counts.completed == s.counts.started
    ensures |s.requests| == s.counts.started + s.counts.rejected + s.counts.timedOut + s.counts.shutdown
                            + Tally(s.requests, CancelledTotal)
  {
    SettledFree(s);
    NoneCounted(s.requests, InFlight);
    NoneCounted(s.requests, Active);
    NoneCounted(s.requests, Waiting);
    SameTally(s.requests, Started, Completed);
    StoredTotals(s);
    Partition(s.requests);
  }

  lemma SettledFree(s: State)
    requires Inv(s) && Settled(s)
    ensures s.gate.holder.None? && s.gate.fifo == []
  {
    if s.gate.holder.Some? {
      HolderUnsettled(s);
    }
  }

  lemma HolderUnsettled(s: State)
    requires AllConsistent(s.gate, s.requests) && s.gate.holder.Some?
    ensures !s.requests[s.gate.holder.value.id].phase.Done?
  {
    var h := s.gate.holder.value.id;
    assert Consistent(s.gate, h, s.requests[h].phase);
  }

  lemma StoredTotals(s: State)
    requires CountersAgree(s)
    ensures s.counts.active == Tally(s.requests, Active) && s.counts.waiting == Tally(s.requests, Waiting)
    ensures s.counts.started == Tally(s.requests, Started) && s.counts.completed == Tally(s.requests, Completed)
    ensures s.counts.rejected == Tally(s.requests, Rejected) && s.counts.timedOut == Tally(s.requests, TimedOutTotal)
    ensures s.counts.shutdown == Tally(s.requests, ShutdownTotal)
  {
    assert Value(s.counts, Active) == s.counts.active && Value(s.counts, Waiting) == s.counts.waiting;
    assert Value(s.counts, Started) == s.counts.started && Value(s.counts, Completed) == s.counts.completed;
    assert Value(s.counts, Rejected) == s.counts.rejected && Value(s.counts, TimedOutTotal) == s.counts.timedOut;
    assert Value(s.counts, ShutdownTotal) == s.counts.shutdown;
  }
}
