/** `PersistentWorkerPool`: one dispatcher and sixteen workers that share an epoch, a
    task, an atomic index counter and a completion count. Each step is one critical
    section, one atomic operation, one task call, or one assignment that the dispatcher
    makes while it holds the mutex. */
module WorkerPool {
  import opened Sequences

  const WORKERS: nat := 16
  const WORD: nat := 0x1_0000_0000_0000_0000

  /** Where a worker is in `worker_loop`, with its `observed_epoch` and task copy. */
  datatype Worker =
    | Checking(observed: nat)                                   // awake, about to test the start condition
    | Asleep(observed: nat)                                     // blocked in start_.wait
    | Claiming(observed: nat, task: nat, count: nat)            // about to fetch_add the counter
    | Running(observed: nat, task: nat, count: nat, index: nat) // inside task(index)
    | Finishing(observed: nat)                                  // about to increment completed_workers_

  /** Where the dispatcher is in `parallel_for`. */
  datatype Dispatcher =
    | Idle
    | Publishing(line: nat, newCount: nat) // holds the mutex; `line` assignments are done
    | Testing                              // awake, about to test the done condition
    | Waiting                              // blocked in done_.wait

  /** What a dispatch leaves behind: how often each index ran, and the counter. */
  datatype Report = Report(count: nat, runs: seq<nat>, counter: nat)

  datatype State = State(
    dispatcher: Dispatcher,
    workers: seq<Worker>,
    task: nat, count: nat, completed: nat, next: nat, epoch: nat,
    runs: seq<nat>,        // how often each index of the current task has run
    returned: seq<Report>) // one report for each parallel_for that returned

  function Init(): State {
    State(Idle, seq(WORKERS, _ => Checking(0)), 0, 0, 0, 0, 0, [], [])
  }

  /** The dispatcher holds the mutex, so no worker can enter a critical section. */
  predicate Locked(s: State) {
    s.dispatcher.Publishing?
  }

  datatype Step =
    | Begin(newCount: nat) // parallel_for is called and takes the mutex
    | Publish              // the dispatcher's next assignment under the mutex
    | Test                 // the dispatcher tests the done condition
    | Work(worker: nat)    // a worker's next operation
    | Spurious(sleeper: nat) // a worker wakes without a notification
    | SpuriousDone         // the dispatcher wakes without a notification

  /** `parallel_for` throws on a zero count, and the counter must not wrap. */
  predicate Enabled(s: State, step: Step) {
    match step
    case Begin(newCount) => s.dispatcher.Idle? && 0 < newCount && newCount + WORKERS < WORD
    case Publish => s.dispatcher.Publishing?
    case Test => s.dispatcher.Testing?
    case Work(w) =>
      && w < |s.workers|
      && (match s.workers[w]
          case Checking(_) => !Locked(s)
          case Asleep(_) => false
          case Claiming(_, _, _) => true
          case Running(_, _, _, _) => true
          case Finishing(_) => !Locked(s))
    case Spurious(w) => w < |s.workers| && s.workers[w].Asleep?
    case SpuriousDone => s.dispatcher.Waiting?
  }

  function WakeAll(workers: seq<Worker>): (woken: seq<Worker>)
    ensures |woken| == |workers|
  {
    seq(|workers|, w requires 0 <= w < |workers| =>
      if workers[w].Asleep? then Checking(workers[w].observed) else workers[w])
  }

  /** The assignments of parallel_for in program order, ending with the first test. */
  function PublishLine(s: State): State
    requires s.dispatcher.Publishing?
  {
    var Publishing(line, newCount) := s.dispatcher;
    var s' := s.(dispatcher := Publishing(line + 1, newCount));
    if line == 0 then s'.(task := s.task + 1, runs := seq(newCount, _ => 0))
    else if line == 1 then s'.(count := newCount)
    else if line == 2 then s'.(completed := 0)
    else if line == 3 then s'.(next := 0)
    else if line == 4 then s'.(epoch := (s.epoch + 1) % WORD)
    else s.(workers := WakeAll(s.workers), dispatcher := Testing)
  }

  function WorkerStep(s: State, w: nat): State
    requires Enabled(s, Work(w))
  {
    match s.workers[w]
    case Checking(observed) =>
      s.(workers := s.workers[w :=
        if s.epoch != observed then Claiming(s.epoch, s.task, s.count) else Asleep(observed)])
    case Claiming(observed, task, count) =>
      s.(next := (s.next + 1) % WORD,
         workers := s.workers[w :=
           if s.next >= count then Finishing(observed) else Running(observed, task, count, s.next)])
    case Running(observed, task, count, index) =>
      s.(runs := if index < |s.runs| then s.runs[index := s.runs[index] + 1] else s.runs,
         workers := s.workers[w := Claiming(observed, task, count)])
    case Finishing(observed) =>
      s.(completed := s.completed + 1,
         workers := s.workers[w := Checking(observed)],
         dispatcher := if s.completed + 1 == WORKERS && s.dispatcher.Waiting? then Testing else s.dispatcher)
  }

  function Apply(s: State, step: Step): State
    requires Enabled(s, step)
  {
    match step
    case Begin(newCount) => s.(dispatcher := Publishing(0, newCount))
    case Publish => PublishLine(s)
    case Test =>
      if s.completed == WORKERS then
        s.(dispatcher := Idle, returned := s.returned + [Report(s.count, s.runs, s.next)])
      else s.(dispatcher := Waiting)
    case Work(w) => WorkerStep(s, w)
    case Spurious(w) => s.(workers := s.workers[w := Checking(s.workers[w].observed)])
    case SpuriousDone => s.(dispatcher := Testing)
  }

  // ------------------------------------------------------------------- the invariant

  /** The worker has finished its share of epoch `epoch` and reported it. */
  predicate Reported(worker: Worker, epoch: nat) {
    (worker.Checking? || worker.Asleep?) && worker.observed == epoch
  }

  /** The worker has drawn an index past the end in epoch `epoch`. */
  predicate Exited(worker: Worker, epoch: nat) {
    Reported(worker, epoch) || worker.Finishing?
  }

  ghost function Reports(workers: seq<Worker>, epoch: nat): (marks: seq<int>)
    ensures |marks| == |workers| && forall i :: 0 <= i < |marks| ==> 0 <= marks[i] <= 1
  {
    seq(|workers|, w requires 0 <= w < |workers| => if Reported(workers[w], epoch) then 1 else 0)
  }

  ghost function Exits(workers: seq<Worker>, epoch: nat): (marks: seq<int>)
    ensures |marks| == |workers| && forall i :: 0 <= i < |marks| ==> 0 <= marks[i] <= 1
  {
    seq(|workers|, w requires 0 <= w < |workers| => if Exited(workers[w], epoch) then 1 else 0)
  }

  /** All workers wait for an epoch newer than the current one. */
  ghost predicate Quiet(s: State) {
    forall w :: 0 <= w < |s.workers| ==> Reported(s.workers[w], s.epoch)
  }

  /** During a dispatch: a worker that is inside the loop works on the current task; one
      that has not started yet is awake; the others have reported. */
  ghost predicate WorkerOk(s: State, worker: Worker)
    requires |s.runs| == s.count
  {
    match worker
    case Checking(_) => true
    case Asleep(observed) => observed == s.epoch
    case Claiming(observed, task, count) => observed == s.epoch && task == s.task && count == s.count
    case Running(observed, task, count, index) =>
      && observed == s.epoch && task == s.task && count == s.count
      && index < s.next && index < s.count && s.runs[index] == 0
    case Finishing(observed) => observed == s.epoch
  }

  predicate RunningIndex(worker: Worker, index: nat) {
    worker.Running? && worker.index == index
  }

  ghost predicate Active(s: State) {
    && |s.workers| == WORKERS
    && |s.runs| == s.count && 0 < s.count && s.count + WORKERS < WORD
    && (forall w :: 0 <= w < WORKERS ==> WorkerOk(s, s.workers[w]))
    && (forall v, w :: 0 <= v < w < WORKERS && s.workers[v].Running? && s.workers[w].Running? ==>
          s.workers[v].index != s.workers[w].index)
    && (forall i :: 0 <= i < s.count ==> s.runs[i] <= 1)
    && (forall i :: s.next <= i < s.count ==> s.runs[i] == 0)
    && (forall i :: 0 <= i < s.count && i < s.next && s.runs[i] == 0 ==>
          exists w :: 0 <= w < WORKERS && RunningIndex(s.workers[w], i))
    && s.completed == Sum(Reports(s.workers, s.epoch))
    && (if s.next < s.count then Sum(Exits(s.workers, s.epoch)) == 0
        else s.next == s.count + Sum(Exits(s.workers, s.epoch)))
    && (s.dispatcher.Waiting? ==> s.completed != WORKERS)
  }

  ghost predicate Inv(s: State) {
    && |s.workers| == WORKERS
    && s.epoch < WORD
    && (forall i :: 0 <= i < |s.returned| ==> GoodReport(s.returned[i]))
    && match s.dispatcher
       case Idle => Quiet(s)
       case Publishing(line, newCount) =>
         && line <= 5 && 0 < newCount && newCount + WORKERS < WORD
         && (line >= 1 ==> s.runs == seq(newCount, _ => 0))
         && (line >= 2 ==> s.count == newCount)
         && (line >= 3 ==> s.completed == 0)
         && (line >= 4 ==> s.next == 0)
         && (if line <= 4 then Quiet(s)
             else forall w :: 0 <= w < WORKERS ==> Unstarted(s.workers[w], s.epoch))
       case Testing => Active(s)
       case Waiting => Active(s)
  }

  /** The worker is parked before an epoch it has not observed. */
  predicate Unstarted(worker: Worker, epoch: nat) {
    (worker.Checking? || worker.Asleep?) && worker.observed != epoch
  }

  /** Every index ran exactly once and every worker drew exactly one index past the end. */
  ghost predicate GoodReport(report: Report) {
    && report.runs == seq(report.count, _ => 1)
    && report.counter == report.count + WORKERS
  }

  // ------------------------------------------------------------- each step keeps it

  lemma MarksUpdate(workers: seq<Worker>, epoch: nat, w: nat, worker: Worker)
    requires w < |workers|
    ensures Sum(Reports(workers[w := worker], epoch))
            == Sum(Reports(workers, epoch)) + (if Reported(worker, epoch) then 1 else 0)
               - (if Reported(workers[w], epoch) then 1 else 0)
    ensures Sum(Exits(workers[w := worker], epoch))
            == Sum(Exits(workers, epoch)) + (if Exited(worker, epoch) then 1 else 0)
               - (if Exited(workers[w], epoch) then 1 else 0)
  {
    var r, x := if Reported(worker, epoch) then 1 else 0, if Exited(worker, epoch) then 1 else 0;
    assert Reports(workers[w := worker], epoch) == Reports(workers, epoch)[w := r];
    assert Exits(workers[w := worker], epoch) == Exits(workers, epoch)[w := x];
    SumUpdate(Reports(workers, epoch), w, r);
    SumUpdate(Exits(workers, epoch), w, x);
  }

  lemma KeepsParts(s: State, s': State, w: nat)
    requires Active(s) && w < WORKERS
    requires s' == s.(workers := s'.workers)
    requires |s'.workers| == WORKERS && s'.workers == s.workers[w := s'.workers[w]]
    requires !s.workers[w].Running? && !s'.workers[w].Running? && WorkerOk(s', s'.workers[w])
    requires Reported(s.workers[w], s.epoch) == Reported(s'.workers[w], s.epoch)
    requires Exited(s.workers[w], s.epoch) == Exited(s'.workers[w], s.epoch)
    ensures Active(s')
  {
    MarksUpdate(s.workers, s.epoch, w, s'.workers[w]);
    forall i | 0 <= i < s.count && i < s.next && s.runs[i] == 0
      ensures exists v :: 0 <= v < WORKERS && RunningIndex(s'.workers[v], i)
    {
      var v :| 0 <= v < WORKERS && RunningIndex(s.workers[v], i);
      assert RunningIndex(s'.workers[v], i);
    }
  }

  /** A claim below the end starts the next index; past the end it leaves the loop. */
  lemma ClaimKeeps(s: State, w: nat)
    requires Active(s) && w < WORKERS && s.workers[w].Claiming?
    ensures Active(WorkerStep(s, w))
    ensures WorkerStep(s, w).next == s.next + 1 <= s.count + WORKERS
  {
    var s' := WorkerStep(s, w);
    assert WorkerOk(s, s.workers[w]);
    MarksUpdate(s.workers, s.epoch, w, s'.workers[w]);
    SumBounds(Exits(s'.workers, s.epoch), 0, 1);
    assert s'.next == s.next + 1;
    forall v | 0 <= v < WORKERS
      ensures WorkerOk(s', s'.workers[v])
    {
      assert WorkerOk(s, s.workers[v]);
    }
    forall u, v | 0 <= u < v < WORKERS && s'.workers[u].Running? && s'.workers[v].Running?
      ensures s'.workers[u].index != s'.workers[v].index
    {
      assert WorkerOk(s, s.workers[u]) && WorkerOk(s, s.workers[v]);
    }
    forall i | 0 <= i < s.count && i < s'.next && s'.runs[i] == 0
      ensures exists v :: 0 <= v < WORKERS && RunningIndex(s'.workers[v], i)
    {
      if i == s.next {
        assert RunningIndex(s'.workers[w], i);
      } else {
        var v :| 0 <= v < WORKERS && RunningIndex(s.workers[v], i);
        assert RunningIndex(s'.workers[v], i);
      }
    }
  }

  /** Finishing a task call records one run of its index. */
  lemma RunKeeps(s: State, w: nat)
    requires Active(s) && w < WORKERS && s.workers[w].Running?
    ensures Active(WorkerStep(s, w))
  {
    var s' := WorkerStep(s, w);
    assert WorkerOk(s, s.workers[w]);
    MarksUpdate(s.workers, s.epoch, w, s'.workers[w]);
    forall v | 0 <= v < WORKERS
      ensures WorkerOk(s', s'.workers[v])
    {
      assert WorkerOk(s, s.workers[v]);
    }
    forall i | 0 <= i < s.count && i < s'.next && s'.runs[i] == 0
      ensures exists v :: 0 <= v < WORKERS && RunningIndex(s'.workers[v], i)
    {
      var v :| 0 <= v < WORKERS && RunningIndex(s.workers[v], i);
      assert RunningIndex(s'.workers[v], i);
    }
  }

  lemma FinishKeeps(s: State, w: nat)
    requires Active(s) && w < WORKERS && s.workers[w].Finishing? && !Locked(s)
    ensures Active(WorkerStep(s, w))
  {
    var s' := WorkerStep(s, w);
    assert WorkerOk(s, s.workers[w]);
    MarksUpdate(s.workers, s.epoch, w, s'.workers[w]);
    forall v | 0 <= v < WORKERS
      ensures WorkerOk(s', s'.workers[v])
    {
      assert WorkerOk(s, s.workers[v]);
    }
    forall i | 0 <= i < s.count && i < s'.next && s'.runs[i] == 0
      ensures exists v :: 0 <= v < WORKERS && RunningIndex(s'.workers[v], i)
    {
      var v :| 0 <= v < WORKERS && RunningIndex(s.workers[v], i);
      assert RunningIndex(s'.workers[v], i);
    }
  }

  /** The done condition implies that every index ran exactly once. */
  lemma DoneMeansRun(s: State)
    requires Active(s) && s.completed == WORKERS
    ensures Quiet(s)
    ensures GoodReport(Report(s.count, s.runs, s.next))
  {
    forall w | 0 <= w < WORKERS
      ensures Reported(s.workers[w], s.epoch)
    {
      SumFull(Reports(s.workers, s.epoch), w);
    }
    assert Exits(s.workers, s.epoch) == Reports(s.workers, s.epoch);
    assert s.runs == seq(s.count, _ => 1);
  }

  /** The last publishing step wakes every sleeper, so no worker misses the new epoch. */
  lemma PublishKeeps(s: State)
    requires Inv(s) && s.dispatcher.Publishing?
    ensures Inv(PublishLine(s))
  {
    var s' := PublishLine(s);
    if s.dispatcher.line == 5 {
      forall w | 0 <= w < WORKERS
        ensures WorkerOk(s', s'.workers[w]) && !Reported(s'.workers[w], s.epoch) && !Exited(s'.workers[w], s.epoch)
      {
        assert Unstarted(s.workers[w], s.epoch);
      }
      SumBounds(Reports(s'.workers, s.epoch), 0, 0);
      SumBounds(Exits(s'.workers, s.epoch), 0, 0);
    }
  }

  lemma WorkKeeps(s: State, w: nat)
    requires Inv(s) && Enabled(s, Work(w))
    ensures Inv(WorkerStep(s, w))
  {
    if s.dispatcher.Testing? || s.dispatcher.Waiting? {
      assert WorkerOk(s, s.workers[w]);
      match s.workers[w] {
        case Checking(_) => KeepsParts(s, WorkerStep(s, w), w);
        case Claiming(_, _, _) => ClaimKeeps(s, w);
        case Running(_, _, _, _) => RunKeeps(s, w);
        case Finishing(_) => FinishKeeps(s, w);
      }
    } else if s.dispatcher.Idle? {
      assert Reported(s.workers[w], s.epoch);
    }
  }

  /** Every step keeps the invariant. */
  lemma StepKeeps(s: State, step: Step)
    requires Inv(s) && Enabled(s, step)
    ensures Inv(Apply(s, step))
  {
    match step {
      case Begin(_) =>
      case Publish => PublishKeeps(s);
      case Test =>
        if s.completed == WORKERS {
          DoneMeansRun(s);
        }
      case Work(w) => WorkKeeps(s, w);
      case Spurious(w) =>
        if s.dispatcher.Testing? || s.dispatcher.Waiting? {
          KeepsParts(s, Apply(s, step), w);
        }
      case SpuriousDone =>
    }
  }

  // ------------------------------------------------------------------ whole-run results

  /** A run of the pool: `states[i]` makes `steps[i]` to reach `states[i + 1]`. */
  ghost predicate Run(states: seq<State>, steps: seq<Step>) {
    && |states| == |steps| + 1
    && states[0] == Init()
    && forall i :: 0 <= i < |steps| ==> Enabled(states[i], steps[i]) && states[i + 1] == Apply(states[i], steps[i])
  }

  lemma {:induction false} InvAlways(states: seq<State>, steps: seq<Step>, i: nat)
    requires Run(states, steps) && i < |states|
    ensures Inv(states[i])
  {
    if i == 0 {
      assert Init().workers == seq(WORKERS, _ => Checking(0));
    } else {
      InvAlways(states, steps, i - 1);
      StepKeeps(states[i - 1], steps[i - 1]);
    }
  }

  // ------------------------------------------------------ what was asked for, and what ran

  /** The counts with which `parallel_for` was called, in order. */
  ghost function Asked(steps: seq<Step>): seq<nat> {
    if |steps| == 0 then []
    else
      var before, last := Asked(steps[..|steps| - 1]), steps[|steps| - 1];
      if last.Begin? then before + [last.newCount] else before
  }

  /** Step `i` is a call of the `task`-th task with `index`. */
  ghost predicate IsCall(states: seq<State>, steps: seq<Step>, i: nat, task: nat, index: nat)
    requires Run(states, steps) && i < |steps|
  {
    && steps[i].Work?
    && var worker := states[i].workers[steps[i].worker];
       worker.Running? && worker.task == task && worker.index == index
  }

  /** How often the `task`-th task was called with `index` in the first `n` steps. */
  ghost function Calls(states: seq<State>, steps: seq<Step>, n: nat, task: nat, index: nat): nat
    requires Run(states, steps) && n <= |steps|
  {
    if n == 0 then 0
    else Calls(states, steps, n - 1, task, index) + if IsCall(states, steps, n - 1, task, index) then 1 else 0
  }

  /** The dispatches asked for are the reported ones and at most one that is under way. */
  ghost predicate Matches(s: State, asked: seq<nat>) {
    && (forall k :: 0 <= k < |s.returned| ==> k < |asked| && s.returned[k].count == asked[k])
    && match s.dispatcher
       case Idle => |asked| == |s.returned| == s.task
       case Publishing(line, newCount) =>
         && |asked| == |s.returned| + 1 && asked[|s.returned|] == newCount
         && s.task == |s.returned| + if line >= 1 then 1 else 0
       case _ => |asked| == |s.returned| + 1 == s.task && asked[|s.returned|] == s.count
  }

  lemma MatchesStep(s: State, step: Step, asked: seq<nat>)
    requires Inv(s) && Enabled(s, step) && Matches(s, asked)
    ensures Matches(Apply(s, step), if step.Begin? then asked + [step.newCount] else asked)
  {
  }

  lemma {:induction false} MatchesAlways(states: seq<State>, steps: seq<Step>, i: nat)
    requires Run(states, steps) && i < |states|
    ensures Matches(states[i], Asked(steps[..i]))
  {
    if i > 0 {
      MatchesAlways(states, steps, i - 1);
      InvAlways(states, steps, i - 1);
      MatchesStep(states[i - 1], steps[i - 1], Asked(steps[..i - 1]));
      assert steps[..i][..i - 1] == steps[..i - 1];
    }
  }

  /** How often a task has been called, as the state knows it. */
  ghost function Known(s: State, asked: seq<nat>, task: nat, index: nat): nat {
    if 1 <= task <= |s.returned| && task <= |asked| then (if index < asked[task - 1] then 1 else 0)
    else if task == s.task && task > |s.returned| && index < |s.runs| then s.runs[index]
    else 0
  }

  /** No worker runs a task outside a dispatch. */
  lemma RunningTask(s: State, w: nat)
    requires Inv(s) && w < |s.workers|
    ensures s.workers[w].Running? ==>
              (s.dispatcher.Testing? || s.dispatcher.Waiting?) && |s.runs| == s.count && WorkerOk(s, s.workers[w])
  {
    match s.dispatcher {
      case Idle => assert Reported(s.workers[w], s.epoch);
      case Publishing(line, _) =>
        assert if line <= 4 then Reported(s.workers[w], s.epoch) else Unstarted(s.workers[w], s.epoch);
      case Testing =>
      case Waiting =>
    }
  }

  lemma KnownStep(s: State, step: Step, asked: seq<nat>, task: nat, index: nat)
    requires Inv(s) && Enabled(s, step) && Matches(s, asked)
    ensures var called := step.Work? && s.workers[step.worker].Running?
                          && s.workers[step.worker].task == task && s.workers[step.worker].index == index;
            Known(Apply(s, step), if step.Begin? then asked + [step.newCount] else asked, task, index)
            == Known(s, asked, task, index) + if called then 1 else 0
  {
    if step.Work? {
      RunningTask(s, step.worker);
    }
    if step.Test? && s.completed == WORKERS {
      DoneMeansRun(s);
    }
  }

  lemma {:induction false} CallsAreKnown(states: seq<State>, steps: seq<Step>, i: nat, task: nat, index: nat)
    requires Run(states, steps) && i < |states|
    ensures Calls(states, steps, i, task, index) == Known(states[i], Asked(steps[..i]), task, index)
  {
    if i > 0 {
      CallsAreKnown(states, steps, i - 1, task, index);
      CallsStep(states, steps, i - 1, task, index, Asked(steps[..i - 1]));
      AskedStep(steps, i - 1);
    }
  }

  lemma AskedStep(steps: seq<Step>, i: nat)
    requires i < |steps|
    ensures Asked(steps[..i + 1]) == if steps[i].Begin? then Asked(steps[..i]) + [steps[i].newCount] else Asked(steps[..i])
  {
    assert steps[..i + 1][..i] == steps[..i];
  }

  lemma CallsStep(states: seq<State>, steps: seq<Step>, i: nat, task: nat, index: nat, asked: seq<nat>)
    requires Run(states, steps) && i < |steps| && asked == Asked(steps[..i])
    ensures Known(states[i + 1], if steps[i].Begin? then asked + [steps[i].newCount] else asked, task, index)
            == Known(states[i], asked, task, index) + if IsCall(states, steps, i, task, index) then 1 else 0
  {
    InvAlways(states, steps, i);
    MatchesAlways(states, steps, i);
    KnownStep(states[i], steps[i], asked, task, index);
  }

  /** In every run, the k-th report answers the k-th call of `parallel_for`: its count is the one
      asked for, the task was called exactly once with each index below it and with no other,
      and the counter ended at that count plus sixteen. Every call but one under way has
      returned. */
  lemma ReturnsExact(states: seq<State>, steps: seq<Step>, i: nat, k: nat, index: nat)
    requires Run(states, steps) && i < |states| && k < |states[i].returned|
    ensures var report, asked := states[i].returned[k], Asked(steps[..i]);
            && |asked| == |states[i].returned| + (if states[i].dispatcher.Idle? then 0 else 1)
            && report.count == asked[k] && report.runs == seq(asked[k], _ => 1) && report.counter == asked[k] + 16
            && Calls(states, steps, i, k + 1, index) == if index < asked[k] then 1 else 0
  {
    ReportAnswers(states, steps, i, k);
    CallsAreKnown(states, steps, i, k + 1, index);
  }

  lemma ReportAnswers(states: seq<State>, steps: seq<Step>, i: nat, k: nat)
    requires Run(states, steps) && i < |states| && k < |states[i].returned|
    ensures var report, asked := states[i].returned[k], Asked(steps[..i]);
            && |asked| == |states[i].returned| + (if states[i].dispatcher.Idle? then 0 else 1)
            && report.count == asked[k] && GoodReport(report)
  {
    InvAlways(states, steps, i);
    MatchesAlways(states, steps, i);
  }

  /** In every run, a worker inside the task loop holds the current task, and a dispatch
      is published only when no worker is inside the loop. */
  lemma NoStaleTask(states: seq<State>, steps: seq<Step>, i: nat, w: nat)
    requires Run(states, steps) && i < |states| && w < |states[i].workers|
    ensures var s := states[i]; var worker := s.workers[w];
            worker.Claiming? || worker.Running? ==>
              && worker.observed == s.epoch && worker.task == s.task && worker.count == s.count
              && (s.dispatcher.Testing? || s.dispatcher.Waiting?)
  {
    InvAlways(states, steps, i);
    var s := states[i];
    match s.dispatcher {
      case Idle => assert Reported(s.workers[w], s.epoch);
      case Publishing(line, _) =>
        assert if line <= 4 then Reported(s.workers[w], s.epoch) else Unstarted(s.workers[w], s.epoch);
      case Testing => assert WorkerOk(s, s.workers[w]);
      case Waiting => assert WorkerOk(s, s.workers[w]);
    }
  }

  /** Steps that are progress, as opposed to a new call or a spurious wake-up. */
  predicate Proper(step: Step) {
    step.Publish? || step.Test? || step.Work?
  }

  function Weight(worker: Worker, epoch: nat): nat {
    match worker
    case Checking(observed) => if observed == epoch then 1 else 4
    case Asleep(_) => 0
    case Claiming(_, _, _) => 3
    case Running(_, _, _, _) => 5
    case Finishing(_) => 4
  }

  ghost function Weights(workers: seq<Worker>, epoch: nat): (marks: seq<int>)
    ensures |marks| == |workers| && forall i :: 0 <= i < |marks| ==> 0 <= marks[i] <= 5
  {
    seq(|workers|, w requires 0 <= w < |workers| => Weight(workers[w], epoch))
  }

  /** Remaining work of the current dispatch. */
  ghost function Measure(s: State): int {
    match s.dispatcher
    case Idle => Sum(Weights(s.workers, s.epoch))
    case Publishing(line, newCount) => 3 * (newCount + WORKERS) + 4 * WORKERS + 2 + 6 - line
    case Testing => 3 * (s.count + WORKERS - s.next) + Sum(Weights(s.workers, s.epoch)) + 1
    case Waiting => 3 * (s.count + WORKERS - s.next) + Sum(Weights(s.workers, s.epoch))
  }

  lemma MeasureNatural(s: State)
    requires Inv(s)
    ensures Measure(s) >= 0
  {
    SumNonnegative(Weights(s.workers, s.epoch));
    SumBounds(Exits(s.workers, s.epoch), 0, 1);
  }

  /** Every proper step lowers the measure. */
  lemma ProperStepLowers(s: State, step: Step)
    requires Inv(s) && Enabled(s, step) && Proper(step)
    ensures Measure(Apply(s, step)) < Measure(s)
  {
    var s' := Apply(s, step);
    match step {
      case Publish =>
        if s.dispatcher.line == 5 {
          forall w | 0 <= w < WORKERS
            ensures Weights(s'.workers, s'.epoch)[w] == 4
          {
            assert Unstarted(s.workers[w], s.epoch);
          }
          SumBounds(Weights(s'.workers, s'.epoch), 4, 4);
        }
      case Test =>
        SumBounds(Exits(s.workers, s.epoch), 0, 1);
      case Work(w) =>
        WorkLowers(s, w);
    }
  }

  lemma WorkLowers(s: State, w: nat)
    requires Inv(s) && Enabled(s, Work(w))
    ensures Measure(WorkerStep(s, w)) < Measure(s)
  {
    var s' := WorkerStep(s, w);
    assert Weights(s'.workers, s.epoch) == Weights(s.workers, s.epoch)[w := Weight(s'.workers[w], s.epoch)];
    SumUpdate(Weights(s.workers, s.epoch), w, Weight(s'.workers[w], s.epoch));
    if s.dispatcher.Testing? || s.dispatcher.Waiting? {
      assert WorkerOk(s, s.workers[w]);
      if s.workers[w].Claiming? {
        ClaimKeeps(s, w);
      }
    } else if s.dispatcher.Idle? {
      assert Reported(s.workers[w], s.epoch);
    }
  }

  /** Until parallel_for returns, some proper step is enabled: no wake-up is lost. */
  lemma NeverStuck(s: State)
    requires Inv(s) && !s.dispatcher.Idle?
    ensures exists step :: Proper(step) && Enabled(s, step)
  {
    match s.dispatcher {
      case Publishing(_, _) => assert Proper(Publish) && Enabled(s, Publish);
      case Testing => assert Proper(Test) && Enabled(s, Test);
      case Waiting =>
        if w :| 0 <= w < WORKERS && !Reported(s.workers[w], s.epoch) {
          assert WorkerOk(s, s.workers[w]);
          assert Proper(Work(w)) && Enabled(s, Work(w));
        } else {
          SumBounds(Reports(s.workers, s.epoch), 1, 1);
        }
    }
  }
}
