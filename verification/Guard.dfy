/**
  The single-writer/multi-reader lock: three counters guarded by a critical section,
  and two counting semaphores on which the queued readers and writers sleep.

  `Lock` and the functions on it say what one atomic piece of a lock operation does.
  `CSWMRGuard` is the class itself, each of its atomic pieces proved against the function.
  `State` adds the threads, and the lemmas speak of every interleaving of any number of them.
 */
module Guard {

  // ---------- the lock's fields, and one atomic piece of each operation ----------

  /** `active`: 0 = free, n > 0 = n readers hold or were promised access, -1 = one writer. */
  datatype Lock = Lock(active: int, waitingReaders: nat, waitingWriters: nat, readerTokens: nat, writerTokens: nat)

  /** What `Done` releases once it has left the critical section. */
  datatype Wakeup = WakeNobody | WakeReaders(count: nat) | WakeWriter

  /** Critical section of `WaitToRead`; the flag says that the reader has to wait. */
  function RegisterReader(l: Lock): (Lock, bool) {
    if l.waitingWriters > 0 || l.active < 0
    then (l.(waitingReaders := l.waitingReaders + 1), true)
    else (l.(active := l.active + 1), false)
  }

  /** Critical section of `WaitToWrite`; the flag says that the writer has to wait. */
  function RegisterWriter(l: Lock): (Lock, bool) {
    if l.active != 0
    then (l.(waitingWriters := l.waitingWriters + 1), true)
    else (l.(active := -1), false)
  }

  /** Critical section of `Done`. */
  function Leave(l: Lock): (Lock, Wakeup) {
    var active := if l.active > 0 then l.active - 1 else l.active + 1;
    if active != 0 then (l.(active := active), WakeNobody)
    else if l.waitingWriters > 0 then (l.(active := -1, waitingWriters := l.waitingWriters - 1), WakeWriter)
    else if l.waitingReaders > 0 then
      (l.(active := l.waitingReaders, waitingReaders := 0), WakeReaders(l.waitingReaders))
    else (l.(active := 0), WakeNobody)
  }

  /** `ReleaseSemaphore`, called by `Done` outside the critical section. */
  function Post(l: Lock, w: Wakeup): Lock {
    match w
    case WakeNobody => l
    case WakeReaders(count) => l.(readerTokens := l.readerTokens + count)
    case WakeWriter => l.(writerTokens := l.writerTokens + 1)
  }

  const FREE := Lock(0, 0, 0, 0, 0)

  class CSWMRGuard {
    var nActive: int
    var nWaitingReaders: nat
    var nWaitingWriters: nat
    var semReaders: nat
    var semWriters: nat

    function View(): Lock
      reads this
    {
      Lock(nActive, nWaitingReaders, nWaitingWriters, semReaders, semWriters)
    }

    constructor ()
      ensures View() == FREE
    {
      nWaitingReaders, nWaitingWriters, nActive := 0, 0, 0;
      semReaders, semWriters := 0, 0;
    }

    method WaitToReadEnter() returns (writePending: bool)
      modifies this
      ensures (View(), writePending) == RegisterReader(old(View()))
    {
      writePending := nWaitingWriters != 0 || nActive < 0;
      if writePending {
        nWaitingReaders := nWaitingReaders + 1;
      } else {
        nActive := nActive + 1;
      }
    }

    /** The moment at which a reader's wait on the semaphore returns. */
    method WaitToReadWake()
      requires semReaders > 0
      modifies `semReaders
      ensures View() == old(View()).(readerTokens := old(semReaders) - 1)
    {
      semReaders := semReaders - 1;
    }

    method WaitToWriteEnter() returns (resourceOwned: bool)
      modifies this
      ensures (View(), resourceOwned) == RegisterWriter(old(View()))
    {
      resourceOwned := nActive != 0;
      if resourceOwned {
        nWaitingWriters := nWaitingWriters + 1;
      } else {
        nActive := -1;
      }
    }

    /** The moment at which a writer's wait on the semaphore returns. */
    method WaitToWriteWake()
      requires semWriters > 0
      modifies `semWriters
      ensures View() == old(View()).(writerTokens := old(semWriters) - 1)
    {
      semWriters := semWriters - 1;
    }

    method DoneEnter() returns (wakeup: Wakeup)
      modifies this
      ensures (View(), wakeup) == Leave(old(View()))
    {
      if nActive > 0 {
        nActive := nActive - 1;
      } else {
        nActive := nActive + 1;
      }
      wakeup := WakeNobody;
      if nActive == 0 {
        if nWaitingWriters > 0 {
          nActive := -1;
          nWaitingWriters := nWaitingWriters - 1;
          wakeup := WakeWriter;
        } else if nWaitingReaders > 0 {
          nActive := nWaitingReaders;
          nWaitingReaders := 0;
          wakeup := WakeReaders(nActive);
        }
      }
    }

    method DoneRelease(wakeup: Wakeup)
      modifies this
      ensures View() == Post(old(View()), wakeup)
    {
      match wakeup
      case WakeNobody =>
      case WakeReaders(count) => semReaders := semReaders + count;
      case WakeWriter => semWriters := semWriters + 1;
    }
  }

  // ---------- any number of threads, interleaved at the atomic pieces ----------

  datatype Phase =
    | Outside
    | Reading
    | Writing
    | AwaitingRead
    | AwaitingWrite
    | Releasing(wakeup: Wakeup)  // `Done` has left the critical section, the semaphore is not released yet

  datatype State = State(lock: Lock, threads: seq<Phase>)

  datatype Action =
    | Spawn
    | EnterRead(t: nat)
    | WakeRead(t: nat)
    | EnterWrite(t: nat)
    | WakeWrite(t: nat)
    | EnterDone(t: nat)
    | Release(t: nat)

  const INIT := State(FREE, [])

  /** `Done` is called by a thread that is inside; a wait on a semaphore returns when there is a token. */
  predicate Enabled(s: State, a: Action) {
    match a
    case Spawn => true
    case EnterRead(t) => t < |s.threads| && s.threads[t] == Outside
    case WakeRead(t) => t < |s.threads| && s.threads[t] == AwaitingRead && s.lock.readerTokens > 0
    case EnterWrite(t) => t < |s.threads| && s.threads[t] == Outside
    case WakeWrite(t) => t < |s.threads| && s.threads[t] == AwaitingWrite && s.lock.writerTokens > 0
    case EnterDone(t) => t < |s.threads| && (s.threads[t] == Reading || s.threads[t] == Writing)
    case Release(t) => t < |s.threads| && s.threads[t].Releasing?
  }

  function Next(s: State, a: Action): State
    requires Enabled(s, a)
  {
    match a
    case Spawn => s.(threads := s.threads + [Outside])
    case EnterRead(t) =>
      var (l, wait) := RegisterReader(s.lock);
      State(l, s.threads[t := if wait then AwaitingRead else Reading])
    case WakeRead(t) => State(s.lock.(readerTokens := s.lock.readerTokens - 1), s.threads[t := Reading])
    case EnterWrite(t) =>
      var (l, wait) := RegisterWriter(s.lock);
      State(l, s.threads[t := if wait then AwaitingWrite else Writing])
    case WakeWrite(t) => State(s.lock.(writerTokens := s.lock.writerTokens - 1), s.threads[t := Writing])
    case EnterDone(t) =>
      var (l, w) := Leave(s.lock);
      State(l, s.threads[t := if w == WakeNobody then Outside else Releasing(w)])
    case Release(t) => State(Post(s.lock, s.threads[t].wakeup), s.threads[t := Outside])
  }

  predicate ValidRun(s: State, run: seq<Action>)
    decreases |run|
  {
    run == [] || (Enabled(s, run[0]) && ValidRun(Next(s, run[0]), run[1..]))
  }

  function After(s: State, run: seq<Action>): State
    requires ValidRun(s, run)
    decreases |run|
  {
    if run == [] then s else After(Next(s, run[0]), run[1..])
  }

  // ---------- counting threads ----------

  datatype Tally =
    | ReadersInside
    | ReadersPromised
    | ReadersAsleep
    | WritersInside
    | WritersPromised
    | WritersAsleep
    | StepsLeft

  function Weight(k: Tally, p: Phase): nat {
    match k
    case ReadersInside => if p == Reading then 1 else 0
    case ReadersPromised => if p.Releasing? && p.wakeup.WakeReaders? then p.wakeup.count else 0
    case ReadersAsleep => if p == AwaitingRead then 1 else 0
    case WritersInside => if p == Writing then 1 else 0
    case WritersPromised => if p == Releasing(WakeWriter) then 1 else 0
    case WritersAsleep => if p == AwaitingWrite then 1 else 0
    case StepsLeft =>
      match p
      case Outside => 0
      case Releasing(_) => 1
      case Reading => 2
      case Writing => 2
      case AwaitingRead => 3
      case AwaitingWrite => 3
  }

  function Total(threads: seq<Phase>, k: Tally): nat {
    if threads == [] then 0
    else Total(threads[..|threads| - 1], k) + Weight(k, threads[|threads| - 1])
  }

  lemma {:induction false} TotalUpdate(threads: seq<Phase>, t: nat, p: Phase, k: Tally)
    requires t < |threads|
    ensures Total(threads[t := p], k) + Weight(k, threads[t]) == Total(threads, k) + Weight(k, p)
  {
    var n := |threads| - 1;
    if t == n {
      assert threads[t := p][..n] == threads[..n];
    } else {
      TotalUpdate(threads[..n], t, p, k);
      assert threads[t := p][..n] == threads[..n][t := p];
    }
  }

  lemma TotalAppend(threads: seq<Phase>, p: Phase, k: Tally)
    ensures Total(threads + [p], k) == Total(threads, k) + Weight(k, p)
  {
    assert (threads + [p])[..|threads|] == threads;
  }

  lemma TotalAtLeastTwo(threads: seq<Phase>, t: nat, u: nat, k: Tally)
    requires t < |threads| && u < |threads| && t != u
    ensures Weight(k, threads[t]) + Weight(k, threads[u]) <= Total(threads, k)
  {
    TotalUpdate(threads, t, Outside, k);
    TotalUpdate(threads[t := Outside], u, Outside, k);
  }

  lemma TotalAtLeastOne(threads: seq<Phase>, t: nat, k: Tally)
    requires t < |threads|
    ensures Weight(k, threads[t]) <= Total(threads, k)
  {
    TotalUpdate(threads, t, Outside, k);
  }

  lemma {:induction false} TotalHasWitness(threads: seq<Phase>, k: Tally) returns (t: nat)
    requires Total(threads, k) > 0
    ensures t < |threads| && Weight(k, threads[t]) > 0
  {
    var n := |threads| - 1;
    if Weight(k, threads[n]) > 0 {
      t := n;
    } else {
      t := TotalHasWitness(threads[..n], k);
    }
  }

  lemma {:induction false} TotalOfNone(threads: seq<Phase>, k: Tally)
    requires forall i :: 0 <= i < |threads| ==> Weight(k, threads[i]) == 0
    ensures Total(threads, k) == 0
  {
    hide Weight;
    if threads != [] {
      TotalOfNone(threads[..|threads| - 1], k);
    }
  }

  // ---------- the invariant of every interleaving ----------

  datatype Counts = Counts(
    readersInside: nat, readersPromised: nat, readersAsleep: nat,
    writersInside: nat, writersPromised: nat, writersAsleep: nat)

  function CountsOf(threads: seq<Phase>): Counts {
    Counts(
      Total(threads, ReadersInside), Total(threads, ReadersPromised), Total(threads, ReadersAsleep),
      Total(threads, WritersInside), Total(threads, WritersPromised), Total(threads, WritersAsleep))
  }

  function WeightsOf(p: Phase): Counts {
    Counts(
      Weight(ReadersInside, p), Weight(ReadersPromised, p), Weight(ReadersAsleep, p),
      Weight(WritersInside, p), Weight(WritersPromised, p), Weight(WritersAsleep, p))
  }

  /**
    Access granted is access held, plus tokens in the semaphore, plus tokens promised by a `Done` still to release
    them.
   */
  ghost predicate AccessAccounted(l: Lock, c: Counts) {
    && l.active >= -1
    && c.readersInside + c.readersPromised + l.readerTokens == (if l.active > 0 then l.active else 0)
    && c.writersInside + c.writersPromised + l.writerTokens == (if l.active == -1 then 1 else 0)
  }

  /** Every sleeping thread is counted as waiting or has a token on its way. */
  ghost predicate SleepersAccounted(l: Lock, c: Counts) {
    && c.readersAsleep == l.waitingReaders + l.readerTokens + c.readersPromised
    && c.writersAsleep == l.waitingWriters + l.writerTokens + c.writersPromised
  }

  ghost predicate NobodyWaitsInVain(l: Lock) {
    && (l.active == 0 ==> l.waitingReaders == 0 && l.waitingWriters == 0)
    && (l.waitingReaders > 0 ==> l.waitingWriters > 0 || l.active == -1)
  }

  ghost predicate Balanced(l: Lock, c: Counts) {
    AccessAccounted(l, c) && SleepersAccounted(l, c) && NobodyWaitsInVain(l)
  }

  ghost predicate Invariant(s: State) {
    Balanced(s.lock, CountsOf(s.threads))
  }

  /** The thread an action moves, if it moves one. */
  function Mover(a: Action): nat
    requires a != Spawn
  {
    match a
    case EnterRead(t) => t
    case WakeRead(t) => t
    case EnterWrite(t) => t
    case WakeWrite(t) => t
    case EnterDone(t) => t
    case Release(t) => t
  }

  lemma NextTotal(s: State, a: Action, k: Tally)
    requires Enabled(s, a) && a != Spawn
    ensures Total(Next(s, a).threads, k) + Weight(k, s.threads[Mover(a)])
         == Total(s.threads, k) + Weight(k, Next(s, a).threads[Mover(a)])
    ensures Weight(k, s.threads[Mover(a)]) <= Total(s.threads, k)
  {
    TotalUpdate(s.threads, Mover(a), Next(s, a).threads[Mover(a)], k);
    TotalAtLeastOne(s.threads, Mover(a), k);
  }

  /** One thread goes from weights `x` to weights `y`, all others keep theirs. */
  ghost predicate Shifted(c: Counts, x: Counts, y: Counts, c': Counts) {
    && c'.readersInside + x.readersInside == c.readersInside + y.readersInside
    && c'.readersPromised + x.readersPromised == c.readersPromised + y.readersPromised
    && c'.readersAsleep + x.readersAsleep == c.readersAsleep + y.readersAsleep
    && c'.writersInside + x.writersInside == c.writersInside + y.writersInside
    && c'.writersPromised + x.writersPromised == c.writersPromised + y.writersPromised
    && c'.writersAsleep + x.writersAsleep == c.writersAsleep + y.writersAsleep
    && x.readersInside <= c.readersInside && x.writersInside <= c.writersInside
  }

  lemma NextCounts(s: State, a: Action)
    requires Enabled(s, a) && a != Spawn
    ensures Shifted(CountsOf(s.threads), WeightsOf(s.threads[Mover(a)]),
                    WeightsOf(Next(s, a).threads[Mover(a)]), CountsOf(Next(s, a).threads))
  {
    NextTotal(s, a, ReadersInside);
    NextTotal(s, a, ReadersPromised);
    NextTotal(s, a, ReadersAsleep);
    NextTotal(s, a, WritersInside);
    NextTotal(s, a, WritersPromised);
    NextTotal(s, a, WritersAsleep);
  }

  lemma SpawnCounts(threads: seq<Phase>)
    ensures CountsOf(threads + [Outside]) == CountsOf(threads)
  {
    TotalAppend(threads, Outside, ReadersInside);
    TotalAppend(threads, Outside, ReadersPromised);
    TotalAppend(threads, Outside, ReadersAsleep);
    TotalAppend(threads, Outside, WritersInside);
    TotalAppend(threads, Outside, WritersPromised);
    TotalAppend(threads, Outside, WritersAsleep);
  }

  /** The arithmetic of one step: the lock and the phase change together. */
  lemma StepKeepsBalance(s: State, a: Action, c: Counts, c': Counts)
    requires Enabled(s, a) && a != Spawn && Balanced(s.lock, c)
    requires Shifted(c, WeightsOf(s.threads[Mover(a)]), WeightsOf(Next(s, a).threads[Mover(a)]), c')
    ensures Balanced(Next(s, a).lock, c')
  {
    match a
    case EnterRead(t) =>
    case WakeRead(t) =>
    case EnterWrite(t) =>
    case WakeWrite(t) =>
    case EnterDone(t) =>
    case Release(t) =>
  }

  lemma StepKeepsInvariant(s: State, a: Action)
    requires Invariant(s) && Enabled(s, a)
    ensures Invariant(Next(s, a))
  {
    if a == Spawn {
      SpawnCounts(s.threads);
    } else {
      NextCounts(s, a);
      StepKeepsBalance(s, a, CountsOf(s.threads), CountsOf(Next(s, a).threads));
    }
  }

  lemma {:induction false} RunKeepsInvariant(s: State, run: seq<Action>)
    requires Invariant(s) && ValidRun(s, run)
    ensures Invariant(After(s, run))
    decreases |run|
  {
    if run != [] {
      StepKeepsInvariant(s, run[0]);
      RunKeepsInvariant(Next(s, run[0]), run[1..]);
    }
  }

  // ---------- safety ----------

  lemma WriterIsAlone(s: State, t: nat, u: nat)
    requires Invariant(s) && t < |s.threads| && u < |s.threads| && t != u && s.threads[t] == Writing
    ensures s.threads[u] != Writing && s.threads[u] != Reading
  {
    TotalAtLeastTwo(s.threads, t, u, WritersInside);
    TotalAtLeastOne(s.threads, u, ReadersInside);
  }

  lemma NoThreads(k: Tally)
    ensures Total([], k) == 0
  {
    hide Weight;
  }

  lemma NoCounts()
    ensures CountsOf([]) == Counts(0, 0, 0, 0, 0, 0)
  {
    hide Total, Weight;
    NoThreads(ReadersInside);
    NoThreads(ReadersPromised);
    NoThreads(ReadersAsleep);
    NoThreads(WritersInside);
    NoThreads(WritersPromised);
    NoThreads(WritersAsleep);
  }

  lemma FreeIsBalanced()
    ensures Balanced(FREE, Counts(0, 0, 0, 0, 0, 0))
  {
  }

  lemma InitIsBalanced()
    ensures Invariant(INIT)
  {
    hide CountsOf, Balanced;
    NoCounts();
    FreeIsBalanced();
  }

  /** A writer is never inside together with another thread, in any run of any number of threads. */
  lemma MutualExclusion(run: seq<Action>, t: nat, u: nat)
    requires ValidRun(INIT, run)
    requires t < |After(INIT, run).threads| && u < |After(INIT, run).threads| && t != u
    requires After(INIT, run).threads[t] == Writing
    ensures After(INIT, run).threads[u] != Writing && After(INIT, run).threads[u] != Reading
  {
    InitIsBalanced();
    hide *;
    RunKeepsInvariant(INIT, run);
    WriterIsAlone(After(INIT, run), t, u);
  }

  // ---------- no lost wakeup, no deadlock ----------

  /** Steps that serve a request already made, as opposed to making a new one. */
  predicate Serves(a: Action) {
    a.WakeRead? || a.WakeWrite? || a.EnterDone? || a.Release?
  }

  lemma ServingStepExists(s: State) returns (a: Action)
    requires Invariant(s) && exists p :: p in s.threads && p != Outside
    ensures Serves(a) && Enabled(s, a)
  {
    if t: nat :| t < |s.threads| && s.threads[t].Releasing? {
      a := Release(t);
    } else if t: nat :| t < |s.threads| && (s.threads[t] == Reading || s.threads[t] == Writing) {
      a := EnterDone(t);
    } else {
      TokenForSleeper(s);
      if s.lock.readerTokens > 0 {
        var u := TotalHasWitness(s.threads, ReadersAsleep);
        a := WakeRead(u);
      } else {
        var u := TotalHasWitness(s.threads, WritersAsleep);
        a := WakeWrite(u);
      }
    }
  }

  predicate Passive(p: Phase) {
    p == Outside || p == AwaitingRead || p == AwaitingWrite
  }

  /** If nobody is inside or releasing, a thread that sleeps has a token to take. */
  lemma TokenForSleeper(s: State)
    requires Invariant(s) && (exists p :: p in s.threads && p != Outside)
    requires forall i :: 0 <= i < |s.threads| ==> Passive(s.threads[i])
    ensures Total(s.threads, if s.lock.readerTokens > 0 then ReadersAsleep else WritersAsleep) > 0
    ensures s.lock.readerTokens == 0 ==> s.lock.writerTokens > 0
  {
    hide Total, Balanced;
    TotalOfNone(s.threads, ReadersInside);
    TotalOfNone(s.threads, ReadersPromised);
    TotalOfNone(s.threads, WritersInside);
    TotalOfNone(s.threads, WritersPromised);
    var t :| 0 <= t < |s.threads| && s.threads[t] != Outside;
    TotalAtLeastOne(s.threads, t, ReadersAsleep);
    TotalAtLeastOne(s.threads, t, WritersAsleep);
    TokensLeft(s.lock, CountsOf(s.threads));
  }

  lemma TokensLeft(l: Lock, c: Counts)
    requires Balanced(l, c) && c.readersInside + c.readersPromised + c.writersInside + c.writersPromised == 0
    requires c.readersAsleep + c.writersAsleep > 0
    ensures (if l.readerTokens > 0 then c.readersAsleep else c.writersAsleep) > 0
    ensures l.readerTokens == 0 ==> l.writerTokens > 0
  {
  }

  lemma QuietIffAllOutside(s: State)
    requires Invariant(s)
    ensures (forall a :: Serves(a) ==> !Enabled(s, a)) <==> (forall p :: p in s.threads ==> p == Outside)
  {
    if a :| Serves(a) && Enabled(s, a) {
      assert s.threads[Mover(a)] != Outside && s.threads[Mover(a)] in s.threads;
    } else if exists p :: p in s.threads && p != Outside {
      var _ := ServingStepExists(s);
    }
  }

  /** With every thread outside, the lock is as the constructor left it: what the destructor checks for. */
  lemma {:induction false} AllOutsideMeansFree(s: State)
    requires Invariant(s) && forall p :: p in s.threads ==> p == Outside
    ensures s.lock == FREE
  {
    forall k: Tally ensures Total(s.threads, k) == 0 {
      assert forall i :: 0 <= i < |s.threads| ==> s.threads[i] in s.threads;
      TotalOfNone(s.threads, k);
    }
  }

  lemma ServingStepsDecrease(s: State, a: Action)
    requires Enabled(s, a) && Serves(a)
    ensures Total(Next(s, a).threads, StepsLeft) < Total(s.threads, StepsLeft)
  {
    NextTotal(s, a, StepsLeft);
  }

  /**
    Once requests stop, at most `StepsLeft` further steps are possible, and a run that cannot
    be continued has let every thread in and out again, and freed the lock: no thread sleeps forever.
   */
  lemma {:induction false} Drains(s: State, run: seq<Action>)
    requires Invariant(s) && ValidRun(s, run) && forall a :: a in run ==> Serves(a)
    ensures |run| + Total(After(s, run).threads, StepsLeft) <= Total(s.threads, StepsLeft)
    ensures (forall a :: Serves(a) ==> !Enabled(After(s, run), a))
        <==> (forall p :: p in After(s, run).threads ==> p == Outside)
    ensures (forall p :: p in After(s, run).threads ==> p == Outside) ==> After(s, run).lock == FREE
    decreases |run|
  {
    if run == [] {
      QuietIffAllOutside(s);
      if forall p :: p in s.threads ==> p == Outside {
        AllOutsideMeansFree(s);
      }
    } else {
      StepKeepsInvariant(s, run[0]);
      ServingStepsDecrease(s, run[0]);
      Drains(Next(s, run[0]), run[1..]);
    }
  }

  // ---------- writers go first ----------

  /** The step hands the lock to a queued writer. */
  predicate GrantsWriter(s: State, a: Action) {
    a.EnterDone? && Leave(s.lock).1 == WakeWriter
  }

  function CountDone(run: seq<Action>): nat {
    if run == [] then 0 else (if run[0].EnterDone? then 1 else 0) + CountDone(run[1..])
  }

  function CountGrants(s: State, run: seq<Action>): nat
    requires ValidRun(s, run)
    decreases |run|
  {
    if run == [] then 0
    else (if GrantsWriter(s, run[0]) then 1 else 0) + CountGrants(Next(s, run[0]), run[1..])
  }

  /**
    With a writer queued, whatever requests arrive, a queued writer is granted the lock by the
    max(active, 1)-th further call of `Done` at the latest; until then each `Done` is one reader fewer.
   */
  lemma {:induction false} QueuedWriterGrantedInTime(s: State, run: seq<Action>)
    requires Invariant(s) && ValidRun(s, run) && s.lock.waitingWriters > 0
    ensures CountDone(run) >= (if s.lock.active > 1 then s.lock.active else 1) ==> CountGrants(s, run) > 0
    ensures CountGrants(s, run) == 0 ==>
              && After(s, run).lock.waitingWriters >= s.lock.waitingWriters
              && After(s, run).lock.active == s.lock.active - CountDone(run)
    decreases |run|
  {
    if run != [] && !GrantsWriter(s, run[0]) {
      StepKeepsInvariant(s, run[0]);
      QueuedWriterGrantedInTime(Next(s, run[0]), run[1..]);
    }
  }

  lemma QueuedWriterBars(s: State, t: nat)
    requires Invariant(s) && s.lock.waitingWriters > 0 && t < |s.threads| && s.threads[t] == Outside
    ensures Next(s, EnterRead(t)).threads[t] == AwaitingRead
    ensures Next(s, EnterWrite(t)).threads[t] == AwaitingWrite
  {
  }

  /** At every moment of every run at which a writer is queued, no reader and no second writer is let in directly. */
  lemma {:induction false} QueuedWriterBarsEntry(run: seq<Action>, t: nat)
    requires ValidRun(INIT, run) && After(INIT, run).lock.waitingWriters > 0
    requires t < |After(INIT, run).threads| && After(INIT, run).threads[t] == Outside
    ensures Next(After(INIT, run), EnterRead(t)).threads[t] == AwaitingRead
    ensures Next(After(INIT, run), EnterWrite(t)).threads[t] == AwaitingWrite
  {
    hide ValidRun, After, Invariant, Next;
    InitIsBalanced();
    RunKeepsInvariant(INIT, run);
    QueuedWriterBars(After(INIT, run), t);
  }

  // ---------- readers: admitted in one batch, and possibly starved ----------

  /** A `Done` that frees the lock with no writer queued admits all sleeping readers at once. */
  lemma FreedLockAdmitsAllReaders(s: State, t: nat)
    requires Invariant(s) && Enabled(s, EnterDone(t)) && s.lock.waitingWriters == 0
    requires s.lock.active == 1 || s.lock.active == -1
    ensures var s' := Next(s, EnterDone(t));
            && s'.lock.waitingReaders == 0
            && s'.lock.active == Total(s'.threads, ReadersAsleep)
            && Total(s'.threads, ReadersAsleep) == s'.lock.readerTokens + Total(s'.threads, ReadersPromised)
  {
    StepKeepsInvariant(s, EnterDone(t));
    TotalAtLeastOne(s.threads, t, ReadersInside);
    TotalAtLeastOne(s.threads, t, WritersInside);
    NextTotal(s, EnterDone(t), ReadersAsleep);
  }

  /** Two writers, 0 and 1, take turns while reader 2 sleeps; `w` is the writer inside. */
  function Relay(w: nat): State
    requires w < 2
  {
    State(Lock(-1, 1, 0, 0, 0), if w == 0 then [Writing, Outside, AwaitingRead] else [Outside, Writing, AwaitingRead])
  }

  function RelayRound(w: nat): seq<Action>
    requires w < 2
  {
    [EnterWrite(1 - w), EnterDone(w), Release(w), WakeWrite(1 - w)]
  }

  function RelayRun(w: nat, n: nat): seq<Action>
    requires w < 2
    decreases n
  {
    if n == 0 then [] else RelayRound(w) + RelayRun(1 - w, n - 1)
  }

  lemma {:induction false} RunAppend(s: State, a: seq<Action>, b: seq<Action>)
    requires ValidRun(s, a) && ValidRun(After(s, a), b)
    ensures ValidRun(s, a + b) && After(s, a + b) == After(After(s, a), b)
    ensures CountGrants(s, a + b) == CountGrants(s, a) + CountGrants(After(s, a), b)
    decreases |a|
  {
    if a == [] {
      assert a + b == b;
    } else {
      RunAppend(Next(s, a[0]), a[1..], b);
      assert (a + b)[1..] == a[1..] + b;
    }
  }

  lemma RunCons(s: State, a: Action, rest: seq<Action>)
    requires Enabled(s, a) && ValidRun(Next(s, a), rest)
    ensures ValidRun(s, [a] + rest) && After(s, [a] + rest) == After(Next(s, a), rest)
    ensures CountGrants(s, [a] + rest) == (if GrantsWriter(s, a) then 1 else 0) + CountGrants(Next(s, a), rest)
  {
    assert ([a] + rest)[1..] == rest;
  }

  function SpawnRun(n: nat): seq<Action> {
    seq(n, _ => Spawn)
  }

  lemma {:induction false} SpawnRunReaches(n: nat)
    ensures ValidRun(INIT, SpawnRun(n)) && After(INIT, SpawnRun(n)) == State(FREE, seq(n, _ => Outside))
  {
    if n == 0 {
      assert SpawnRun(0) == [] && seq(0, _ => Outside) == [];
    } else {
      SpawnRunReaches(n - 1);
      var s := After(INIT, SpawnRun(n - 1));
      RunCons(s, Spawn, []);
      RunAppend(INIT, SpawnRun(n - 1), [Spawn] + []);
      assert SpawnRun(n) == SpawnRun(n - 1) + ([Spawn] + []);
      assert seq(n, _ => Outside) == seq(n - 1, _ => Outside) + [Outside];
    }
  }

  lemma RelayRoundGrantsOnce(w: nat)
    requires w < 2
    ensures ValidRun(Relay(w), RelayRound(w)) && After(Relay(w), RelayRound(w)) == Relay(1 - w)
    ensures CountGrants(Relay(w), RelayRound(w)) == 1
  {
    var v := 1 - w;
    var s0 := Relay(w);
    var a0, a1, a2, a3 := EnterWrite(v), EnterDone(w), Release(w), WakeWrite(v);
    var s1 := Next(s0, a0);
    assert s1 == State(Lock(-1, 1, 1, 0, 0), s0.threads[v := AwaitingWrite]);
    var s2 := Next(s1, a1);
    assert s2 == State(Lock(-1, 1, 0, 0, 0), s1.threads[w := Releasing(WakeWriter)]);
    var s3 := Next(s2, a2);
    assert s3 == State(Lock(-1, 1, 0, 0, 1), s2.threads[w := Outside]);
    assert Next(s3, a3) == Relay(v);
    RunCons(s3, a3, []);
    RunCons(s2, a2, [a3]);
    RunCons(s1, a1, [a2, a3]);
    RunCons(s0, a0, [a1, a2, a3]);
    assert RelayRound(w) == [a0] + [a1, a2, a3];
  }

  lemma {:induction false} RelayRunGrants(w: nat, n: nat)
    requires w < 2
    ensures ValidRun(Relay(w), RelayRun(w, n)) && CountGrants(Relay(w), RelayRun(w, n)) == n
    ensures exists v :: 0 <= v < 2 && After(Relay(w), RelayRun(w, n)) == Relay(v)
    ensures forall a :: a in RelayRun(w, n) ==> a != Spawn && Mover(a) != 2
    decreases n
  {
    hide Enabled, Next, Relay;
    if n > 0 {
      RelayRoundGrantsOnce(w);
      RelayRunGrants(1 - w, n - 1);
      RunAppend(Relay(w), RelayRound(w), RelayRun(1 - w, n - 1));
    }
  }

  /**
    The starvation the source warns about is real and unbounded: for every n there is a valid run
    in which writers are granted the lock n times after reader 2 has gone to sleep, and it still sleeps.
   */
  lemma ReaderOvertakenByAnyNumberOfWriters(n: nat) returns (prefix: seq<Action>, run: seq<Action>)
    ensures ValidRun(INIT, prefix) && ValidRun(INIT, prefix + run)
    ensures var asleep := After(INIT, prefix);
            && |asleep.threads| == 3 && asleep.threads[2] == AwaitingRead
            && ValidRun(asleep, run) && CountGrants(asleep, run) == n
            && (forall a :: a in run ==> a != Spawn && Mover(a) != 2)
    ensures var end := After(INIT, prefix + run); |end.threads| == 3 && end.threads[2] == AwaitingRead
  {
    run := RelayRun(0, n);
    SpawnRunReaches(3);
    var s := State(FREE, [Outside, Outside, Outside]);
    assert seq(3, _ => Outside) == s.threads;
    assert Next(Next(s, EnterWrite(0)), EnterRead(2)) == Relay(0);
    RunCons(Next(s, EnterWrite(0)), EnterRead(2), []);
    RunCons(s, EnterWrite(0), [EnterRead(2)]);
    RunAppend(INIT, SpawnRun(3), [EnterWrite(0)] + [EnterRead(2)]);
    prefix := SpawnRun(3) + ([EnterWrite(0)] + [EnterRead(2)]);
    RelayRunGrants(0, n);
    RunAppend(INIT, prefix, run);
  }

  // ---------- tokens are not addressed ----------

  /**
    In `run`, made of semaphore releases and readers waking up, all reader tokens are used up, and `r` still sleeps.
   */
  ghost predicate PassesOver(s: State, run: seq<Action>, r: nat) {
    && ValidRun(s, run)
    && (forall k :: 0 <= k < |run| ==> run[k].Release? || run[k].WakeRead?)
    && After(s, run).lock.readerTokens == 0 && Total(After(s, run).threads, ReadersPromised) == 0
    && r < |After(s, run).threads| && After(s, run).threads[r] == AwaitingRead
  }

  lemma {:induction false} WakingKeepsWaiting(s: State, run: seq<Action>)
    requires ValidRun(s, run) && forall k :: 0 <= k < |run| ==> run[k].Release? || run[k].WakeRead?
    ensures After(s, run).lock.waitingReaders == s.lock.waitingReaders
    decreases |run|
  {
    if run != [] {
      WakingKeepsWaiting(Next(s, run[0]), run[1..]);
    }
  }

  /** With more sleeping readers than `r` alone, there is one to take a token in its place. */
  lemma OtherSleeper(s: State, r: nat) returns (u: nat)
    requires r < |s.threads| && s.threads[r] == AwaitingRead && Total(s.threads, ReadersAsleep) >= 2
    ensures u < |s.threads| && u != r && s.threads[u] == AwaitingRead
  {
    hide Total;
    TotalUpdate(s.threads, r, Outside, ReadersAsleep);
    u := TotalHasWitness(s.threads[r := Outside], ReadersAsleep);
  }

  /** A release puts a promise into the semaphore; it and a reader that wakes up bring the end nearer. */
  lemma WakingStep(s: State, r: nat) returns (a: Action)
    requires Invariant(s) && s.lock.waitingReaders > 0 && r < |s.threads| && s.threads[r] == AwaitingRead
    requires s.lock.readerTokens + Total(s.threads, ReadersPromised) > 0
    ensures Enabled(s, a) && (a.Release? || a.WakeRead?)
    ensures r < |Next(s, a).threads| && Next(s, a).threads[r] == AwaitingRead
    ensures Next(s, a).lock.waitingReaders == s.lock.waitingReaders
    ensures Next(s, a).lock.readerTokens + 2 * Total(Next(s, a).threads, ReadersPromised)
          < s.lock.readerTokens + 2 * Total(s.threads, ReadersPromised)
  {
    hide Total;
    if Total(s.threads, ReadersPromised) > 0 {
      var u := TotalHasWitness(s.threads, ReadersPromised);
      a := Release(u);
    } else {
      var u := OtherSleeper(s, r);
      a := WakeRead(u);
    }
    NextTotal(s, a, ReadersPromised);
  }

  lemma {:induction false} PassOver(s: State, r: nat) returns (run: seq<Action>)
    requires Invariant(s) && s.lock.waitingReaders > 0 && r < |s.threads| && s.threads[r] == AwaitingRead
    ensures PassesOver(s, run, r)
    decreases s.lock.readerTokens + 2 * Total(s.threads, ReadersPromised)
  {
    hide Total, Next, Enabled, Invariant;
    if s.lock.readerTokens + Total(s.threads, ReadersPromised) == 0 {
      run := [];
    } else {
      var a := WakingStep(s, r);
      StepKeepsInvariant(s, a);
      var rest := PassOver(Next(s, a), r);
      RunCons(s, a, rest);
      run := [a] + rest;
    }
  }

  /**
    A token is not addressed to anyone. The tokens there are and those promised can all go to other readers than `r`,
    who sleeps, if and only if some reader waits without one, whoever was promised access first.
   */
  lemma {:induction false} ReaderPassedOverExactly(s: State, r: nat)
    requires Invariant(s) && r < |s.threads| && s.threads[r] == AwaitingRead
    ensures (exists run :: PassesOver(s, run, r)) <==> s.lock.waitingReaders > 0
  {
    if s.lock.waitingReaders > 0 {
      var run := PassOver(s, r);
    } else if run :| PassesOver(s, run, r) {
      RunKeepsInvariant(s, run);
      WakingKeepsWaiting(s, run);
      TotalAtLeastOne(After(s, run).threads, r, ReadersAsleep);
    }
  }

  /** Reader 1 slept behind writer 0; `Done` has promised it a token that is not in the semaphore yet. */
  const PROMISED := State(Lock(1, 0, 0, 0, 0), [Releasing(WakeReaders(1)), AwaitingRead, Outside, Outside])

  lemma PromisedIsReached() returns (run: seq<Action>)
    ensures ValidRun(INIT, run) && After(INIT, run) == PROMISED
  {
    SpawnRunReaches(4);
    var s0 := State(FREE, [Outside, Outside, Outside, Outside]);
    assert seq(4, _ => Outside) == s0.threads;
    var s1 := Next(s0, EnterWrite(0));
    assert s1 == State(Lock(-1, 0, 0, 0, 0), [Writing, Outside, Outside, Outside]);
    var s2 := Next(s1, EnterRead(1));
    assert s2 == State(Lock(-1, 1, 0, 0, 0), [Writing, AwaitingRead, Outside, Outside]);
    assert Next(s2, EnterDone(0)) == PROMISED;
    RunCons(s2, EnterDone(0), []);
    RunCons(s1, EnterRead(1), [EnterDone(0)] + []);
    var tail := [EnterRead(1)] + ([EnterDone(0)] + []);
    RunCons(s0, EnterWrite(0), tail);
    run := SpawnRun(4) + ([EnterWrite(0)] + tail);
    RunAppend(INIT, SpawnRun(4), [EnterWrite(0)] + tail);
  }

  /**
    So it happens: reader 3, who asks after the token was promised to reader 1, takes it, and reader 1, who was not
    waiting without a token then, sleeps on behind a queued writer.
   */
  lemma LateReaderTakesToken() returns (prefix: seq<Action>, run: seq<Action>)
    ensures ValidRun(INIT, prefix) && After(INIT, prefix) == PROMISED && PROMISED.lock.waitingReaders == 0
    ensures ValidRun(PROMISED, run)
    ensures After(PROMISED, run).threads == [Outside, AwaitingRead, AwaitingWrite, Reading]
  {
    prefix := PromisedIsReached();
    run := TokenTaken();
  }

  lemma TokenTaken() returns (run: seq<Action>)
    ensures ValidRun(PROMISED, run)
    ensures After(PROMISED, run).threads == [Outside, AwaitingRead, AwaitingWrite, Reading]
  {
    var s1 := Next(PROMISED, EnterWrite(2));
    assert s1 == State(Lock(1, 0, 1, 0, 0), [Releasing(WakeReaders(1)), AwaitingRead, AwaitingWrite, Outside]);
    var s2 := Next(s1, EnterRead(3));
    assert s2 == State(Lock(1, 1, 1, 0, 0), [Releasing(WakeReaders(1)), AwaitingRead, AwaitingWrite, AwaitingRead]);
    var s3 := Next(s2, Release(0));
    assert s3 == State(Lock(1, 1, 1, 1, 0), [Outside, AwaitingRead, AwaitingWrite, AwaitingRead]);
    var s4 := Next(s3, WakeRead(3));
    assert s4.threads == [Outside, AwaitingRead, AwaitingWrite, Reading];
    RunCons(s3, WakeRead(3), []);
    RunCons(s2, Release(0), [WakeRead(3)] + []);
    RunCons(s1, EnterRead(3), [Release(0)] + ([WakeRead(3)] + []));
    run := [EnterWrite(2)] + ([EnterRead(3)] + ([Release(0)] + ([WakeRead(3)] + [])));
    RunCons(PROMISED, EnterWrite(2), [EnterRead(3)] + ([Release(0)] + ([WakeRead(3)] + [])));
  }
}
