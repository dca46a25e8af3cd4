/**
  The queue that serialises asynchronous operations. The scheduler's tasks are numbered in the order of their
  creation; a continuation may run once its antecedent is finished, whether that failed or not.
 */
module AsyncQueue {
  import opened Wrappers

  datatype Kind = Ready | Operation(id: nat) | Continuation

  datatype Status = Waiting | Running | Finished(failed: bool)

  datatype Task = Task(kind: Kind, after: nat, status: Status)

  /** Operations are numbered in the order they are enqueued; `log` is what happened to them. */
  datatype Event = Started(id: nat) | Ended(id: nat)

  datatype Queue = Queue(tasks: seq<Task>, last: nat, enqueued: nat, log: seq<Event>)

  /** What an operation does when it is called at once: it throws, or returns a task that is finished or not yet. */
  datatype Outcome = Throws | Returns(failed: bool) | Later

  datatype Action = Enqueue(outcome: Outcome) | Run(t: nat) | Complete(t: nat, failed: bool)

  const INIT := Queue([Task(Ready, 0, Finished(false))], 0, 0, [])

  predicate Enabled(q: Queue, a: Action) {
    match a
    case Enqueue(_) => q.last < |q.tasks|
    case Run(t) =>
      t < |q.tasks| && q.tasks[t].status == Waiting && q.tasks[t].after < |q.tasks|
        && q.tasks[q.tasks[t].after].status.Finished?
    case Complete(t, _) => t < |q.tasks| && q.tasks[t].kind.Operation? && q.tasks[t].status == Running
  }

  /** The operation and the empty continuation that lets the queue go on after it. */
  function Chained(q: Queue, status: Status): Queue {
    var op := |q.tasks|;
    q.(tasks := q.tasks + [Task(Operation(q.enqueued), q.last, status), Task(Continuation, op, Waiting)],
       last := op + 1, enqueued := q.enqueued + 1)
  }

  function Next(q: Queue, a: Action): Queue
    requires Enabled(q, a)
  {
    match a
    case Enqueue(outcome) =>
      var id := q.enqueued;
      if !q.tasks[q.last].status.Finished? then Chained(q, Waiting)
      else if outcome == Later then Chained(q, Running).(log := q.log + [Started(id)])
      else q.(enqueued := id + 1, log := q.log + [Started(id), Ended(id)])
    case Run(t) =>
      var task := q.tasks[t];
      if task.kind.Operation?
      then q.(tasks := q.tasks[t := task.(status := Running)], log := q.log + [Started(task.kind.id)])
      else q.(tasks := q.tasks[t := task.(status := Finished(false))])
    case Complete(t, failed) =>
      q.(tasks := q.tasks[t := q.tasks[t].(status := Finished(failed))], log := q.log + [Ended(q.tasks[t].kind.id)])
  }

  // ---------- the code ----------

  class AsyncOperationQueue {
    var tasks: seq<Task>
    var lastOperation: nat
    var enqueued: nat
    var log: seq<Event>

    function View(): Queue
      reads this
    {
      Queue(tasks, lastOperation, enqueued, log)
    }

    constructor ()
      ensures View() == INIT
    {
      tasks, lastOperation := [Task(Ready, 0, Finished(false))], 0;
      enqueued, log := 0, [];
    }

    /**
      The task returned is the operation's own; a finished one, returned at once, is not among the scheduler's tasks.
     */
    method EnqueueOperation(outcome: Outcome) returns (threw: bool, res: Option<nat>)
      requires lastOperation < |tasks|
      modifies this
      ensures View() == Next(old(View()), Enqueue(outcome))
      ensures threw == (old(tasks)[old(lastOperation)].status.Finished? && outcome == Throws)
      ensures res == if |tasks| == |old(tasks)| then None else Some(|old(tasks)|)
    {
      var id, op := enqueued, |tasks|;
      enqueued := enqueued + 1;
      if tasks[lastOperation].status.Finished? {
        log := log + [Started(id)];
        match outcome {
          case Throws =>
            log := log + [Ended(id)];
            return true, None;
          case Returns(_) =>
            log := log + [Ended(id)];
            return false, None;
          case Later =>
            tasks := tasks + [Task(Operation(id), lastOperation, Running)];
        }
      } else {
        tasks := tasks + [Task(Operation(id), lastOperation, Waiting)];
      }
      tasks := tasks + [Task(Continuation, op, Waiting)];
      lastOperation := op + 1;
      return false, Some(op);
    }

    /** The scheduler runs a task whose antecedent is finished. */
    method RunTask(t: nat)
      requires Enabled(View(), Run(t))
      modifies `tasks, `log
      ensures View() == Next(old(View()), Run(t))
    {
      match tasks[t].kind
      case Operation(id) =>
        log := log + [Started(id)];
        tasks := tasks[t := tasks[t].(status := Running)];
      case _ =>
        tasks := tasks[t := tasks[t].(status := Finished(false))];
    }

    method CompleteTask(t: nat, failed: bool)
      requires Enabled(View(), Complete(t, failed))
      modifies `tasks, `log
      ensures View() == Next(old(View()), Complete(t, failed))
    {
      log := log + [Ended(tasks[t].kind.id)];
      tasks := tasks[t := tasks[t].(status := Finished(failed))];
    }
  }

  // ---------- the invariant ----------

  /** The first task that is not finished. */
  function Front(tasks: seq<Task>, from: nat): (f: nat)
    requires from <= |tasks|
    ensures from <= f <= |tasks|
    ensures forall i :: from <= i < f ==> tasks[i].status.Finished?
    ensures f < |tasks| ==> !tasks[f].status.Finished?
    decreases |tasks| - from
  {
    if from == |tasks| || !tasks[from].status.Finished? then from else Front(tasks, from + 1)
  }

  lemma {:induction false} FrontIs(tasks: seq<Task>, from: nat, f: nat)
    requires from <= f <= |tasks| && (forall i :: from <= i < f ==> tasks[i].status.Finished?)
    requires f < |tasks| ==> !tasks[f].status.Finished?
    ensures Front(tasks, from) == f
    decreases f - from
  {
    if from < f {
      FrontIs(tasks, from + 1, f);
    }
  }

  /** Operations and continuations alternate, each after the one before it. */
  predicate ChainAt(q: Queue, i: nat)
    requires i < |q.tasks|
  {
    var task := q.tasks[i];
    if i == 0 then task.kind == Ready && task.status == Finished(false)
    else task.after == i - 1 && (if i % 2 == 1 then task.kind.Operation? else task.kind == Continuation)
  }

  /** Up to `f` all are finished, after `f` all are waiting; the operations not finished were enqueued last. */
  predicate PhaseAt(q: Queue, f: nat, i: nat)
    requires i < |q.tasks|
  {
    var task := q.tasks[i];
    && (i < f <==> task.status.Finished?)
    && (i > f ==> task.status == Waiting)
    && (task.status == Running ==> task.kind.Operation?)
    && (task.kind == Continuation ==> task.status != Finished(true))
    && (i >= f && task.kind.Operation? ==> task.kind.id + (q.last + 1 - i) / 2 == q.enqueued)
  }

  /** `f` is the first task not finished, or the number of tasks. */
  ghost predicate Shape(q: Queue, f: nat) {
    && |q.tasks| % 2 == 1 && q.last == |q.tasks| - 1 && f <= |q.tasks|
    && (forall i :: 0 <= i < |q.tasks| ==> ChainAt(q, i))
    && (forall i :: 0 <= i < |q.tasks| ==> PhaseAt(q, f, i))
  }

  function Unfinished(q: Queue, f: nat): nat
    requires f <= |q.tasks|
  {
    (|q.tasks| - f) / 2
  }

  function OneRunning(q: Queue, f: nat): nat {
    if f < |q.tasks| && q.tasks[f].status == Running then 1 else 0
  }

  function EventAt(k: nat): Event {
    if k % 2 == 0 then Started(k / 2) else Ended(k / 2)
  }

  /** Each operation starts after the one enqueued before it has ended. */
  predicate Serial(log: seq<Event>) {
    forall k :: 0 <= k < |log| ==> log[k] == EventAt(k)
  }

  ghost predicate Accounted(q: Queue, f: nat)
    requires f <= |q.tasks|
  {
    Serial(q.log) && |q.log| + 2 * Unfinished(q, f) == 2 * q.enqueued + OneRunning(q, f)
  }

  ghost predicate Invariant(q: Queue) {
    Shape(q, Front(q.tasks, 0)) && Accounted(q, Front(q.tasks, 0))
  }

  lemma InvariantAt(q: Queue, f: nat)
    requires Shape(q, f) && Accounted(q, f)
    ensures Invariant(q)
  {
    forall i | 0 <= i < |q.tasks| ensures i < f <==> q.tasks[i].status.Finished? {
      assert PhaseAt(q, f, i);
    }
    FrontIs(q.tasks, 0, f);
  }

  // ---------- every step keeps it ----------

  lemma InitIsInvariant()
    ensures Invariant(INIT)
  {
    InvariantAt(INIT, 1);
  }

  lemma SerialGrows(log: seq<Event>, e: Event)
    requires Serial(log) && e == EventAt(|log|)
    ensures Serial(log + [e])
  {
  }

  /** Only the first unfinished task can be run or completed. */
  lemma FrontIsFirst(q: Queue, f: nat, t: nat)
    requires Shape(q, f) && t < |q.tasks|
    requires Enabled(q, Run(t)) || Enabled(q, Complete(t, false))
    ensures t == f && t > 0 && (q.tasks[t].kind.Operation? <==> t % 2 == 1) && (t % 2 == 1 ==> t + 1 < |q.tasks|)
  {
    assert ChainAt(q, t) && PhaseAt(q, f, t);
    if t > 0 {
      assert PhaseAt(q, f, t - 1);
    }
  }

  lemma ChainedShape(q: Queue, f: nat, status: Status)
    requires Shape(q, f) && (if f == |q.tasks| then status == Running else status == Waiting)
    ensures Shape(Chained(q, status), f)
  {
    var r, n := Chained(q, status), |q.tasks|;
    forall i | 0 <= i < n + 2 ensures ChainAt(r, i) && PhaseAt(r, f, i) {
      if i < n {
        assert ChainAt(q, i) && PhaseAt(q, f, i);
      }
    }
  }

  /** At once: an operation that throws or returns a finished task leaves no task behind. */
  lemma InlineShape(q: Queue, r: Queue)
    requires Shape(q, |q.tasks|) && r.tasks == q.tasks && r.last == q.last
    ensures Shape(r, |r.tasks|)
  {
    forall i | 0 <= i < |q.tasks| ensures ChainAt(r, i) && PhaseAt(r, |q.tasks|, i) {
      assert ChainAt(q, i) && PhaseAt(q, |q.tasks|, i);
    }
  }

  lemma EnqueueKeepsInvariant(q: Queue, outcome: Outcome)
    requires Invariant(q) && Enabled(q, Enqueue(outcome))
    ensures Invariant(Next(q, Enqueue(outcome)))
  {
    hide Front, ChainAt, Serial, Shape;
    var r, f, n := Next(q, Enqueue(outcome)), Front(q.tasks, 0), |q.tasks|;
    LastIsFinished(q, f);
    if f == n {
      SerialGrows(q.log, Started(q.enqueued));
      if outcome == Later {
        ChainedShape(q, f, Running);
        SameShape(Chained(q, Running), r, f);
      } else {
        InlineShape(q, r);
        SerialGrows(q.log + [Started(q.enqueued)], Ended(q.enqueued));
        assert q.log + [Started(q.enqueued)] + [Ended(q.enqueued)] == r.log;
      }
    } else {
      ChainedShape(q, f, Waiting);
    }
    InvariantAt(r, f);
  }

  lemma LastIsFinished(q: Queue, f: nat)
    requires Shape(q, f)
    ensures q.last < |q.tasks| && |q.tasks| % 2 == 1 && f <= |q.tasks|
      && (q.tasks[q.last].status.Finished? <==> f == |q.tasks|)
  {
    assert PhaseAt(q, f, q.last);
  }

  lemma SameShape(q: Queue, r: Queue, f: nat)
    requires Shape(q, f) && r == q.(log := r.log)
    ensures Shape(r, f)
  {
    forall i | 0 <= i < |q.tasks| ensures ChainAt(r, i) && PhaseAt(r, f, i) {
      assert ChainAt(q, i) && PhaseAt(q, f, i);
    }
  }

  /** The first unfinished task moves on: to running, or to finished. */
  lemma MovedShape(q: Queue, r: Queue, f: nat, status: Status)
    requires Shape(q, f) && f < |q.tasks| && f > 0
      && r == q.(tasks := q.tasks[f := q.tasks[f].(status := status)], log := r.log)
    requires if q.tasks[f].kind.Operation? then status != Waiting else status == Finished(false)
    ensures Shape(r, if status == Running then f else f + 1)
  {
    var f' := if status == Running then f else f + 1;
    assert PhaseAt(q, f, f) && ChainAt(q, f);
    forall i | 0 <= i < |q.tasks| ensures ChainAt(r, i) && PhaseAt(r, f', i) {
      assert ChainAt(q, i) && PhaseAt(q, f, i);
    }
  }

  lemma IdAtFront(q: Queue, f: nat)
    requires Shape(q, f) && f < |q.tasks| && q.tasks[f].kind.Operation?
    ensures q.tasks[f].kind.id + Unfinished(q, f) == q.enqueued && |q.tasks| % 2 == 1 && f % 2 == 1
  {
    assert PhaseAt(q, f, f) && ChainAt(q, f);
  }

  lemma RunKeepsInvariant(q: Queue, t: nat)
    requires Invariant(q) && Enabled(q, Run(t))
    ensures Invariant(Next(q, Run(t)))
  {
    hide Front, ChainAt, Serial, Shape, PhaseAt;
    var r, f := Next(q, Run(t)), Front(q.tasks, 0);
    FrontIsFirst(q, f, t);
    LastIsFinished(q, f);
    if q.tasks[t].kind.Operation? {
      IdAtFront(q, t);
      SerialGrows(q.log, Started(q.tasks[t].kind.id));
      MovedShape(q, r, t, Running);
      InvariantAt(r, t);
    } else {
      MovedShape(q, r, t, Finished(false));
      WaitingAfter(q, t);
      InvariantAt(r, t + 1);
    }
  }

  lemma WaitingAfter(q: Queue, f: nat)
    requires Shape(q, f)
    ensures f + 1 < |q.tasks| ==> q.tasks[f + 1].status == Waiting
  {
    if f + 1 < |q.tasks| {
      assert PhaseAt(q, f, f + 1);
    }
  }

  lemma CompleteKeepsInvariant(q: Queue, t: nat, failed: bool)
    requires Invariant(q) && Enabled(q, Complete(t, failed))
    ensures Invariant(Next(q, Complete(t, failed)))
  {
    hide Front, ChainAt, Serial, Shape, PhaseAt;
    var r, f := Next(q, Complete(t, failed)), Front(q.tasks, 0);
    assert Enabled(q, Complete(t, false));
    FrontIsFirst(q, f, t);
    IdAtFront(q, t);
    WaitingAfter(q, t);
    SerialGrows(q.log, Ended(q.tasks[t].kind.id));
    MovedShape(q, r, t, Finished(failed));
    InvariantAt(r, t + 1);
  }

  lemma StepKeepsInvariant(q: Queue, a: Action)
    requires Invariant(q) && Enabled(q, a)
    ensures Invariant(Next(q, a))
  {
    match a
    case Enqueue(outcome) => EnqueueKeepsInvariant(q, outcome);
    case Run(t) => RunKeepsInvariant(q, t);
    case Complete(t, failed) => CompleteKeepsInvariant(q, t, failed);
  }

  // ---------- runs ----------

  predicate ValidRun(q: Queue, run: seq<Action>)
    decreases |run|
  {
    run == [] || (Enabled(q, run[0]) && ValidRun(Next(q, run[0]), run[1..]))
  }

  function After(q: Queue, run: seq<Action>): Queue
    requires ValidRun(q, run)
    decreases |run|
  {
    if run == [] then q else After(Next(q, run[0]), run[1..])
  }

  lemma {:induction false} RunIsInvariant(q: Queue, run: seq<Action>)
    requires Invariant(q) && ValidRun(q, run)
    ensures Invariant(After(q, run))
    decreases |run|
  {
    hide Invariant, Next, Enabled;
    if run != [] {
      StepKeepsInvariant(q, run[0]);
      RunIsInvariant(Next(q, run[0]), run[1..]);
    }
  }

  /**
    In every interleaving of enqueues and completions, whatever fails, the operations run one at a time in the order
    in which they were enqueued: the history is start 0, end 0, start 1, end 1, and so on.
   */
  lemma RunsInOrder(run: seq<Action>)
    requires ValidRun(INIT, run)
    ensures Serial(After(INIT, run).log) && |After(INIT, run).log| <= 2 * After(INIT, run).enqueued
  {
    InitIsInvariant();
    RunIsInvariant(INIT, run);
    LogIsBounded(After(INIT, run));
  }

  lemma LogIsBounded(q: Queue)
    requires Invariant(q)
    ensures |q.log| <= 2 * q.enqueued
  {
    var f := Front(q.tasks, 0);
    if OneRunning(q, f) == 1 {
      assert PhaseAt(q, f, f) && ChainAt(q, f);
    }
  }

  predicate Idle(q: Queue) {
    forall i :: 0 <= i < |q.tasks| ==> q.tasks[i].status.Finished?
  }

  /**
    `wait` waits for the last continuation; when that is finished everything is, and every operation enqueued has
    ended.
   */
  lemma WaitWaitsForAll(q: Queue)
    requires Invariant(q)
    ensures q.tasks[q.last].status.Finished? <==> Idle(q)
    ensures Idle(q) ==> |q.log| == 2 * q.enqueued
  {
    LastIsFinished(q, Front(q.tasks, 0));
  }

  /** The queue is stuck only when it is idle. */
  lemma NeverStuck(q: Queue) returns (a: Action)
    requires Invariant(q) && !Idle(q)
    ensures !a.Enqueue? && Enabled(q, a)
  {
    var f := Front(q.tasks, 0);
    assert ChainAt(q, f) && PhaseAt(q, f, f) && f > 0;
    assert PhaseAt(q, f, f - 1);
    a := if q.tasks[f].status == Running then Complete(f, false) else Run(f);
  }

  /** Tasks still to finish, and operations still to start. */
  function StepsLeft(q: Queue): nat {
    var f := Front(q.tasks, 0);
    |q.tasks| - f + Unfinished(q, f) - if Unfinished(q, f) > 0 then OneRunning(q, f) else 0
  }

  lemma StepsDecrease(q: Queue, a: Action)
    requires Invariant(q) && Enabled(q, a) && !a.Enqueue?
    ensures StepsLeft(Next(q, a)) + 1 == StepsLeft(q)
  {
    hide ChainAt, Serial, Shape, PhaseAt, Front;
    var f := Front(q.tasks, 0);
    assert a.Complete? ==> Enabled(q, Complete(a.t, false));
    FrontIsFirst(q, f, a.t);
    LastIsFinished(q, f);
    WaitingAfter(q, f);
    var f' := if a.Run? && q.tasks[f].kind.Operation? then f else f + 1;
    FrontIs(Next(q, a).tasks, 0, f');
  }

  /** Once nothing more is enqueued, every run of `StepsLeft` steps ends idle: no operation is lost. */
  lemma {:induction false} Drains(q: Queue, run: seq<Action>)
    requires Invariant(q) && ValidRun(q, run) && forall k :: 0 <= k < |run| ==> !run[k].Enqueue?
    ensures |run| + StepsLeft(After(q, run)) == StepsLeft(q)
    ensures After(q, run).enqueued == q.enqueued
    ensures StepsLeft(After(q, run)) == 0 <==> Idle(After(q, run))
    decreases |run|
  {
    hide Invariant, Enabled, StepsLeft;
    if run == [] {
      IdleMeansNoStepsLeft(q);
    } else {
      StepKeepsInvariant(q, run[0]);
      StepsDecrease(q, run[0]);
      Drains(Next(q, run[0]), run[1..]);
    }
  }

  lemma IdleMeansNoStepsLeft(q: Queue)
    requires Invariant(q)
    ensures StepsLeft(q) == 0 <==> Idle(q)
  {
  }

  // ---------- what one call does ----------

  /**
    An operation enqueued when the last task is finished is called at once. One that throws or returns a finished task
    has ended by then and leaves no task; one that goes on leaves a running task, and a continuation that waits for it
    and is now the last.
   */
  lemma EnqueueOnIdle(q: Queue, outcome: Outcome)
    requires q.last < |q.tasks| && q.tasks[q.last].status.Finished?
    ensures var r, n, id := Next(q, Enqueue(outcome)), |q.tasks|, q.enqueued;
      && r.enqueued == id + 1
      && (outcome.Later? ==>
           && r.log == q.log + [Started(id)] && r.last == n + 1
           && r.tasks == q.tasks + [Task(Operation(id), q.last, Running), Task(Continuation, n, Waiting)])
      && (!outcome.Later? ==> r.log == q.log + [Started(id), Ended(id)] && r.last == q.last && r.tasks == q.tasks)
  {
  }

  /** Otherwise it is not called yet, whatever it will do: it waits for what was last in the chain. */
  lemma EnqueueOnBusy(q: Queue, outcome: Outcome)
    requires q.last < |q.tasks| && !q.tasks[q.last].status.Finished?
    ensures var r, n, id := Next(q, Enqueue(outcome)), |q.tasks|, q.enqueued;
      && r.enqueued == id + 1 && r.log == q.log && r.last == n + 1
      && r.tasks == q.tasks + [Task(Operation(id), q.last, Waiting), Task(Continuation, n, Waiting)]
  {
  }

  /** `r` is `q` but for the status of task `t` and what was logged. */
  predicate Moves(q: Queue, r: Queue, t: nat, status: Status, log: seq<Event>) {
    && |r.tasks| == |q.tasks| && t < |q.tasks|
    && (forall i :: 0 <= i < |q.tasks| && i != t ==> r.tasks[i] == q.tasks[i])
    && r.tasks[t] == Task(q.tasks[t].kind, q.tasks[t].after, status)
    && r.last == q.last && r.enqueued == q.enqueued && r.log == q.log + log
  }

  /** Running a waiting operation starts it; running a continuation finishes it. */
  lemma RunExactly(q: Queue, t: nat)
    requires Enabled(q, Run(t))
    ensures var r := Next(q, Run(t));
      match q.tasks[t].kind
      case Operation(id) => Moves(q, r, t, Running, [Started(id)])
      case _ => Moves(q, r, t, Finished(false), [])
  {
  }

  /** Completing a running operation ends it, and its task tells whether it failed. */
  lemma CompleteExactly(q: Queue, t: nat, failed: bool)
    requires Enabled(q, Complete(t, failed))
    ensures Moves(q, Next(q, Complete(t, failed)), t, Finished(failed), [Ended(q.tasks[t].kind.id)])
  {
  }

  predicate HasStarted(log: seq<Event>, id: nat) {
    exists k :: 0 <= k < |log| && log[k] == Started(id)
  }

  /**
    In every run, the call that enqueues an operation starts it if and only if everything enqueued before it is finished
    at that moment.
   */
  lemma {:induction false} StartedAtOnceExactly(run: seq<Action>, outcome: Outcome)
    requires ValidRun(INIT, run)
    ensures var q := After(INIT, run);
      && Enabled(q, Enqueue(outcome))
      && (HasStarted(Next(q, Enqueue(outcome)).log, q.enqueued) <==> Idle(q))
  {
    hide Next, Invariant, Front, Idle;
    InitIsInvariant();
    RunIsInvariant(INIT, run);
    var q := After(INIT, run);
    WaitWaitsForAll(q);
    LastIsATask(q);
    NotStartedBefore(q);
    var r := Next(q, Enqueue(outcome));
    if q.tasks[q.last].status.Finished? {
      EnqueueOnIdle(q, outcome);
      assert r.log[|q.log|] == Started(q.enqueued);
    } else {
      EnqueueOnBusy(q, outcome);
    }
  }

  lemma LastIsATask(q: Queue)
    requires Invariant(q)
    ensures q.last < |q.tasks|
  {
  }

  /** Nothing is in the history of an operation that is not enqueued yet. */
  lemma NotStartedBefore(q: Queue)
    requires Invariant(q)
    ensures !HasStarted(q.log, q.enqueued)
  {
    LogIsBounded(q);
    assert Serial(q.log);
    forall k | 0 <= k < |q.log| ensures q.log[k] != Started(q.enqueued) {
      assert q.log[k] == EventAt(k);
    }
  }
}
