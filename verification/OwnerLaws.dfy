/** Every run of the owning wrappers: no native handle is lost, owned twice or finished twice. */
module OwnerLaws {
  import opened Wrappers
  import opened HandleOwners

  function Owners(slots: seq<Slot>, h: nat): nat {
    if slots == [] then 0
    else Owners(slots[..|slots| - 1], h) + (if slots[|slots| - 1].handle == Some(h) then 1 else 0)
  }

  predicate Finishes(c: Call, h: nat) {
    c.Ended? && c.handle == Some(h)
  }

  function FinishCount(log: seq<Call>, h: nat): nat {
    if log == [] then 0
    else FinishCount(log[..|log| - 1], h) + (if Finishes(log[|log| - 1], h) then 1 else 0)
  }

  function Weight(o: Option<nat>, h: nat): nat {
    if o == Some(h) then 1 else 0
  }

  lemma {:induction false} OwnersUpdate(slots: seq<Slot>, i: nat, x: Slot, h: nat)
    requires i < |slots|
    ensures Owners(slots[i := x], h) + Weight(slots[i].handle, h) == Owners(slots, h) + Weight(x.handle, h)
  {
    var n := |slots| - 1;
    if i == n {
      assert slots[i := x][..n] == slots[..n];
    } else {
      OwnersUpdate(slots[..n], i, x, h);
      assert slots[i := x][..n] == slots[..n][i := x];
    }
  }

  lemma OwnersAppend(slots: seq<Slot>, x: Slot, h: nat)
    ensures Owners(slots + [x], h) == Owners(slots, h) + Weight(x.handle, h)
  {
    assert (slots + [x])[..|slots|] == slots;
  }

  lemma FinishAppend(log: seq<Call>, c: Call, h: nat)
    ensures FinishCount(log + [c], h) == FinishCount(log, h) + (if Finishes(c, h) then 1 else 0)
  {
    assert (log + [c])[..|log|] == log;
  }

  lemma {:induction false} OwnersAtMost(slots: seq<Slot>, i: nat, j: nat, h: nat)
    requires i < j < |slots| && slots[i].handle == Some(h) && slots[j].handle == Some(h)
    ensures Owners(slots, h) >= 2
  {
    OwnersUpdate(slots, i, Slot(EnvKind, false, None), h);
    OwnersUpdate(slots[i := Slot(EnvKind, false, None)], j, Slot(EnvKind, false, None), h);
  }

  lemma {:induction false} OwnersOfNone(slots: seq<Slot>, h: nat)
    requires forall i :: 0 <= i < |slots| ==> slots[i].handle != Some(h)
    ensures Owners(slots, h) == 0
  {
    if slots != [] {
      OwnersOfNone(slots[..|slots| - 1], h);
    }
  }

  // ---------- conservation ----------

  /** How many times handle `h` is owned or has been finished. */
  function Accounts(s: State, h: nat): nat {
    Owners(s.slots, h) + FinishCount(s.log, h)
  }

  predicate Suits(how: How, kind: Kind) {
    if kind == TxnKind then how != Closed else how == Closed
  }

  /** Handles are held, and finished, as what they were made as; a destroyed wrapper holds none. */
  predicate WellKinded(s: State) {
    && (forall i :: 0 <= i < |s.slots| ==>
         match s.slots[i].handle
         case None => true
         case Some(h) => s.slots[i].alive && h < |s.made| && s.made[h] == s.slots[i].kind)
    && (forall k :: 0 <= k < |s.log| && s.log[k].Ended? ==>
         && Suits(s.log[k].how, s.log[k].kind)
         && match s.log[k].handle
            case None => true
            case Some(h) => h < |s.made| && s.made[h] == s.log[k].kind)
  }

  ghost predicate Conserved(s: State) {
    forall h: nat :: Accounts(s, h) == if h < |s.made| then 1 else 0
  }

  lemma ReleaseAccounts(s: State, i: nat, how: How, h: nat)
    requires i < |s.slots|
    ensures Accounts(Release(s, i, how), h) == Accounts(s, h)
  {
    OwnersUpdate(s.slots, i, s.slots[i].(handle := None), h);
    FinishAppend(s.log, Ended(how, s.slots[i].kind, s.slots[i].handle), h);
  }

  lemma SwapAccounts(slots: seq<Slot>, i: nat, j: nat, h: nat)
    requires i < |slots| && j < |slots|
    ensures Owners(slots[i := slots[j]][j := slots[i]], h) == Owners(slots, h)
  {
    OwnersUpdate(slots, i, slots[j], h);
    OwnersUpdate(slots[i := slots[j]], j, slots[i], h);
  }

  lemma MoveAccounts(slots: seq<Slot>, from: nat, h: nat)
    requires from < |slots|
    ensures Owners(slots[from := slots[from].(handle := None)] + [slots[from]], h) == Owners(slots, h)
  {
    OwnersUpdate(slots, from, slots[from].(handle := None), h);
    OwnersAppend(slots[from := slots[from].(handle := None)], slots[from], h);
  }

  lemma CreateAccounts(s: State, kind: Kind, fails: bool, h: nat)
    requires Enabled(s, Create(kind, fails))
    ensures Accounts(Next(s, Create(kind, fails)), h) == Accounts(s, h) + (if h == |s.made| then 1 else 0)
  {
    var n := |s.made|;
    FinishAppend(s.log, Made(kind, n), h);
    if fails {
      FinishAppend(s.log + [Made(kind, n)], Ended(Closed, kind, Some(n)), h);
      assert s.log + [Made(kind, n)] + [Ended(Closed, kind, Some(n))]
          == s.log + [Made(kind, n), Ended(Closed, kind, Some(n))];
    } else {
      OwnersAppend(s.slots, Slot(kind, true, Some(n)), h);
    }
  }

  lemma DestroyAccounts(s: State, i: nat, h: nat)
    requires i < |s.slots|
    ensures Owners(s.slots[i := s.slots[i].(alive := false)], h) == Owners(s.slots, h)
  {
    OwnersUpdate(s.slots, i, s.slots[i].(alive := false), h);
  }

  /** No operation changes how often a handle is accounted for, but for the one it makes. */
  lemma StepAccounts(s: State, op: Op, h: nat)
    requires Enabled(s, op)
    ensures Accounts(Next(s, op), h) == Accounts(s, h) + (if |s.made| <= h < |Next(s, op).made| then 1 else 0)
  {
    hide Owners, FinishCount;
    match op
    case Create(kind, fails) => CreateAccounts(s, kind, fails, h);
    case MoveConstruct(from) => MoveAccounts(s.slots, from, h);
    case MoveAssign(to, from) => SwapAccounts(s.slots, to, from, h);
    case Close(i) => ReleaseAccounts(s, i, Closed, h);
    case Abort(i) => ReleaseAccounts(s, i, Aborted, h);
    case Commit(i) => ReleaseAccounts(s, i, Committed, h);
    case Destroy(i) =>
      var how := if s.slots[i].kind == TxnKind then Aborted else Closed;
      ReleaseAccounts(s, i, how, h);
      DestroyAccounts(if s.slots[i].handle.None? then s else Release(s, i, how), i, h);
  }

  lemma StepKeepsKinds(s: State, op: Op)
    requires Enabled(s, op) && WellKinded(s)
    ensures WellKinded(Next(s, op))
  {
  }

  predicate ValidRun(s: State, run: seq<Op>)
    decreases |run|
  {
    run == [] || (Enabled(s, run[0]) && ValidRun(Next(s, run[0]), run[1..]))
  }

  function After(s: State, run: seq<Op>): State
    requires ValidRun(s, run)
    decreases |run|
  {
    if run == [] then s else After(Next(s, run[0]), run[1..])
  }

  lemma {:induction false} RunConserves(s: State, run: seq<Op>)
    requires Conserved(s) && WellKinded(s) && ValidRun(s, run)
    ensures Conserved(After(s, run)) && WellKinded(After(s, run))
    decreases |run|
  {
    hide Accounts, Enabled, WellKinded;
    if run != [] {
      var r := Next(s, run[0]);
      forall h: nat ensures Accounts(r, h) == if h < |r.made| then 1 else 0 {
        StepAccounts(s, run[0], h);
      }
      StepKeepsKinds(s, run[0]);
      RunConserves(r, run[1..]);
    }
  }

  lemma InitIsConserved()
    ensures Conserved(INIT) && WellKinded(INIT)
  {
  }

  /**
    In every run, each handle made is owned by exactly one wrapper and not finished, or owned by none and finished
    once, by the call that suits its kind. When all wrappers are destroyed, each has been finished exactly once.
   */
  lemma EveryHandleFinishedOnce(run: seq<Op>, h: nat)
    requires ValidRun(INIT, run) && h < |After(INIT, run).made|
    ensures var s := After(INIT, run);
      && FinishCount(s.log, h) <= 1
      && (FinishCount(s.log, h) == 1 <==> forall i :: 0 <= i < |s.slots| ==> s.slots[i].handle != Some(h))
      && (forall i, j :: 0 <= i < j < |s.slots| && s.slots[i].handle == Some(h) ==> s.slots[j].handle != Some(h))
      && (forall k :: 0 <= k < |s.log| && Finishes(s.log[k], h)
           ==> s.log[k].kind == s.made[h] && Suits(s.log[k].how, s.made[h]))
      && ((forall i :: 0 <= i < |s.slots| ==> !s.slots[i].alive) ==> FinishCount(s.log, h) == 1)
  {
    InitIsConserved();
    RunConserves(INIT, run);
    OnceOrOwned(After(INIT, run), h);
  }

  lemma OwnedMeansCounted(slots: seq<Slot>, i: nat, h: nat)
    requires i < |slots| && slots[i].handle == Some(h)
    ensures Owners(slots, h) >= 1
  {
    OwnersUpdate(slots, i, slots[i].(handle := None), h);
  }

  lemma OnceOrOwned(s: State, h: nat)
    requires Conserved(s) && WellKinded(s) && h < |s.made|
    ensures FinishCount(s.log, h) <= 1
    ensures FinishCount(s.log, h) == 1 <==> forall i :: 0 <= i < |s.slots| ==> s.slots[i].handle != Some(h)
    ensures forall i, j :: 0 <= i < j < |s.slots| && s.slots[i].handle == Some(h) ==> s.slots[j].handle != Some(h)
    ensures forall k :: 0 <= k < |s.log| && Finishes(s.log[k], h) ==>
              s.log[k].kind == s.made[h] && Suits(s.log[k].how, s.made[h])
    ensures (forall i :: 0 <= i < |s.slots| ==> !s.slots[i].alive) ==> FinishCount(s.log, h) == 1
  {
    hide Owners, FinishCount;
    assert Accounts(s, h) == 1;
    if i :| 0 <= i < |s.slots| && s.slots[i].handle == Some(h) {
      OwnedMeansCounted(s.slots, i, h);
    } else {
      OwnersOfNone(s.slots, h);
    }
    forall i, j | 0 <= i < j < |s.slots| && s.slots[i].handle == Some(h) ensures s.slots[j].handle != Some(h) {
      if s.slots[j].handle == Some(h) {
        OwnersAtMost(s.slots, i, j, h);
      }
    }
  }

  // ---------- move assignment ----------

  /** The operation is not one of, or into, wrapper `i`. */
  predicate LeavesAlone(op: Op, i: nat) {
    match op
    case Create(_, _) => true
    case MoveConstruct(from) => from != i
    case MoveAssign(to, from) => to != i && from != i
    case Close(j) => j != i
    case Abort(j) => j != i
    case Commit(j) => j != i
    case Destroy(j) => j != i
  }

  lemma {:induction false} SlotStays(s: State, run: seq<Op>, i: nat)
    requires ValidRun(s, run) && i < |s.slots| && forall k :: 0 <= k < |run| ==> LeavesAlone(run[k], i)
    ensures i < |After(s, run).slots| && After(s, run).slots[i] == s.slots[i]
    decreases |run|
  {
    if run != [] {
      SlotStays(Next(s, run[0]), run[1..], i);
    }
  }

  /**
    Move assignment finishes nothing. What the target owned goes to the source, and however the program goes on, it is
    not finished as long as the source is left alone; the destruction of the source then finishes it.
   */
  lemma {:induction false} AssignedOverIsFinishedLater(s: State, to: nat, from: nat, h: nat, run: seq<Op>)
    requires Conserved(s) && WellKinded(s) && Enabled(s, MoveAssign(to, from)) && to != from
      && s.slots[to].handle == Some(h)
    requires ValidRun(Next(s, MoveAssign(to, from)), run) && forall k :: 0 <= k < |run| ==> LeavesAlone(run[k], from)
    ensures var e := After(Next(s, MoveAssign(to, from)), run);
      && FinishCount(e.log, h) == 0 && Alive(e.slots, from) && e.slots[from].handle == Some(h)
      && FinishCount(Next(e, Destroy(from)).log, h) == 1
  {
    hide Conserved, WellKinded, ValidRun, After, FinishCount, Accounts;
    var s1 := Next(s, MoveAssign(to, from));
    var e := After(s1, run);
    OneStep(s, MoveAssign(to, from));
    RunConserves(s, [MoveAssign(to, from)]);
    RunConserves(s1, run);
    SlotStays(s1, run, from);
    HeldIsNotFinished(e, from, h);
    var how := if e.slots[from].kind == TxnKind then Aborted else Closed;
    FinishAppend(e.log, Ended(how, e.slots[from].kind, Some(h)), h);
  }

  lemma OneStep(s: State, op: Op)
    requires Enabled(s, op)
    ensures ValidRun(s, [op]) && After(s, [op]) == Next(s, op)
  {
    assert [op][1..] == [] && ValidRun(Next(s, op), []);
  }

  lemma HeldIsNotFinished(s: State, i: nat, h: nat)
    requires Conserved(s) && WellKinded(s) && i < |s.slots| && s.slots[i].handle == Some(h)
    ensures FinishCount(s.log, h) == 0
  {
    OwnedMeansCounted(s.slots, i, h);
    assert Accounts(s, h) == 1;
  }

  // ---------- what one operation does ----------

  /** `r` is `s` but for wrapper `i`, with the calls added to the log. */
  predicate ChangesOne(s: State, r: State, i: nat, x: Slot, calls: seq<Call>) {
    && |r.slots| == |s.slots| && i < |s.slots| && r.slots[i] == x
    && (forall j :: 0 <= j < |s.slots| && j != i ==> r.slots[j] == s.slots[j])
    && r.made == s.made && r.log == s.log + calls
  }

  /** Making a wrapper makes one handle, and owns it; refused flags leave no wrapper and the handle closed again. */
  lemma CreateExactly(s: State, kind: Kind, fails: bool)
    requires Enabled(s, Create(kind, fails))
    ensures var r, h := Next(s, Create(kind, fails)), |s.made|;
      && r.made == s.made + [kind]
      && r.slots == s.slots + (if fails then [] else [Slot(kind, true, Some(h))])
      && r.log == s.log + [Made(kind, h)] + (if fails then [Ended(Closed, kind, Some(h))] else [])
  {
  }

  /** A move takes the handle away from its source, and leaves null there; an assignment exchanges the handles. */
  lemma MovesExactly(s: State, to: nat, from: nat)
    ensures Enabled(s, MoveConstruct(from)) ==>
      var r, was := Next(s, MoveConstruct(from)), s.slots[from];
      && |r.slots| == |s.slots| + 1
      && r.slots[|s.slots|] == Slot(was.kind, true, was.handle)
      && ChangesOne(s, State(r.slots[..|s.slots|], r.made, r.log), from, Slot(was.kind, true, None), [])
    ensures Enabled(s, MoveAssign(to, from)) ==>
      var r := Next(s, MoveAssign(to, from));
      && |r.slots| == |s.slots| && r.made == s.made && r.log == s.log
      && r.slots[to] == Slot(s.slots[to].kind, true, s.slots[from].handle)
      && r.slots[from] == Slot(s.slots[from].kind, true, s.slots[to].handle)
      && (forall j :: 0 <= j < |s.slots| && j != to && j != from ==> r.slots[j] == s.slots[j])
  {
  }

  /** Committing what is owned makes exactly the native commit and leaves null; committing null throws. */
  lemma CommitExactly(s: State, i: nat)
    requires Enabled(s, Commit(i))
    ensures var r := Next(s, Commit(i));
      match s.slots[i].handle
      case None => r == s
      case Some(h) => ChangesOne(s, r, i, Slot(TxnKind, true, None), [Ended(Committed, TxnKind, Some(h))])
  {
  }

  /** Aborting makes exactly the native abort, of the null handle too, and leaves null. */
  lemma AbortExactly(s: State, i: nat)
    requires Enabled(s, Abort(i))
    ensures ChangesOne(s, Next(s, Abort(i)), i, Slot(TxnKind, true, None),
                       [Ended(Aborted, TxnKind, s.slots[i].handle)])
  {
  }

  /** Closing an environment or a cursor makes the native close, once: null is left, and closing that does nothing. */
  lemma CloseExactly(s: State, i: nat)
    requires Enabled(s, Close(i))
    ensures var r, kind := Next(s, Close(i)), s.slots[i].kind;
      match s.slots[i].handle
      case None => r == s
      case Some(h) => ChangesOne(s, r, i, Slot(kind, true, None), [Ended(Closed, kind, Some(h))])
  {
  }

  /** A destroyed transaction that is still owned is aborted, never committed; an environment or a cursor is closed. */
  lemma DestroyExactly(s: State, i: nat)
    requires Enabled(s, Destroy(i))
    ensures var r, kind := Next(s, Destroy(i)), s.slots[i].kind;
      match s.slots[i].handle
      case None => ChangesOne(s, r, i, Slot(kind, false, None), [])
      case Some(h) =>
        if kind == TxnKind then ChangesOne(s, r, i, Slot(kind, false, None), [Ended(Aborted, kind, Some(h))])
        else ChangesOne(s, r, i, Slot(kind, false, None), [Ended(Closed, kind, Some(h))])
  {
  }

  // ---------- how a handle was ended, over every run ----------

  predicate WasEnded(log: seq<Call>, how: How, h: nat) {
    exists k :: 0 <= k < |log| && log[k].Ended? && log[k].how == how && log[k].handle == Some(h)
  }

  /**
    The step is the one that ends handle `h` in this way: a commit by its owner; an abort by its owner or the
    destruction of an owning transaction; a close by its owner, the destruction of another owner, or refused flags.
   */
  predicate Ends(s: State, op: Op, how: How, h: nat)
    requires Enabled(s, op)
  {
    match op
    case Create(_, fails) => how == Closed && fails && h == |s.made|
    case MoveConstruct(_) => false
    case MoveAssign(_, _) => false
    case Close(i) => how == Closed && s.slots[i].handle == Some(h)
    case Abort(i) => how == Aborted && s.slots[i].handle == Some(h)
    case Commit(i) => how == Committed && s.slots[i].handle == Some(h)
    case Destroy(i) => s.slots[i].handle == Some(h) && how == if s.slots[i].kind == TxnKind then Aborted else Closed
  }

  predicate EndsIn(s: State, run: seq<Op>, how: How, h: nat)
    requires ValidRun(s, run)
    decreases |run|
  {
    run != [] && (Ends(s, run[0], how, h) || EndsIn(Next(s, run[0]), run[1..], how, h))
  }

  lemma StepEnds(s: State, op: Op, how: How, h: nat)
    requires Enabled(s, op)
    ensures WasEnded(Next(s, op).log, how, h) <==> WasEnded(s.log, how, h) || Ends(s, op, how, h)
  {
    var r, n := Next(s, op).log, |s.log|;
    assert forall k :: 0 <= k < n ==> r[k] == s.log[k];
    if k :| 0 <= k < n && s.log[k].Ended? && s.log[k].how == how && s.log[k].handle == Some(h) {
      assert r[k].Ended?;
    }
    if Ends(s, op, how, h) {
      assert r[|r| - 1].Ended? && r[|r| - 1].how == how && r[|r| - 1].handle == Some(h);
    }
  }

  lemma {:induction false} RunEnds(s: State, run: seq<Op>, how: How, h: nat)
    requires ValidRun(s, run)
    ensures WasEnded(After(s, run).log, how, h) <==> WasEnded(s.log, how, h) || EndsIn(s, run, how, h)
    decreases |run|
  {
    hide Next, Enabled, Ends, WasEnded;
    if run != [] {
      StepEnds(s, run[0], how, h);
      RunEnds(Next(s, run[0]), run[1..], how, h);
    }
  }

  /**
    Over every run, a handle has been committed if and only if some step was a commit by the wrapper that owned it at
    that moment, however it was moved about; likewise for aborts and closes. No handle is ended in two of these ways.
   */
  lemma {:induction false} EndedExactly(run: seq<Op>, h: nat)
    requires ValidRun(INIT, run)
    ensures WasEnded(After(INIT, run).log, Committed, h) <==> EndsIn(INIT, run, Committed, h)
    ensures WasEnded(After(INIT, run).log, Aborted, h) <==> EndsIn(INIT, run, Aborted, h)
    ensures WasEnded(After(INIT, run).log, Closed, h) <==> EndsIn(INIT, run, Closed, h)
    ensures forall a, b :: EndsIn(INIT, run, a, h) && EndsIn(INIT, run, b, h) ==> a == b
  {
    hide ValidRun, After, EndsIn, Conserved, WellKinded, Accounts;
    InitIsConserved();
    RunConserves(INIT, run);
    forall how: How ensures WasEnded(After(INIT, run).log, how, h) <==> EndsIn(INIT, run, how, h) {
      RunEnds(INIT, run, how, h);
    }
    forall a, b | EndsIn(INIT, run, a, h) && EndsIn(INIT, run, b, h) ensures a == b {
      EndedOneWay(After(INIT, run), a, b, h);
    }
  }

  lemma EndedOneWay(s: State, a: How, b: How, h: nat)
    requires Conserved(s) && WasEnded(s.log, a, h) && WasEnded(s.log, b, h)
    ensures a == b
  {
    var j :| 0 <= j < |s.log| && s.log[j].Ended? && s.log[j].how == a && s.log[j].handle == Some(h);
    var k :| 0 <= k < |s.log| && s.log[k].Ended? && s.log[k].how == b && s.log[k].handle == Some(h);
    assert Accounts(s, h) <= 1;
    if j < k {
      FinishedTwice(s.log, j, k, h);
    } else if k < j {
      FinishedTwice(s.log, k, j, h);
    }
  }

  lemma {:induction false} FinishedTwice(log: seq<Call>, j: nat, k: nat, h: nat)
    requires j < k < |log| && Finishes(log[j], h) && Finishes(log[k], h)
    ensures FinishCount(log, h) >= 2
    decreases |log|
  {
    if k < |log| - 1 {
      FinishedTwice(log[..|log| - 1], j, k, h);
    } else {
      FinishedOnce(log[..|log| - 1], j, h);
    }
  }

  lemma {:induction false} FinishedOnce(log: seq<Call>, j: nat, h: nat)
    requires j < |log| && Finishes(log[j], h)
    ensures FinishCount(log, h) >= 1
    decreases |log|
  {
    if j < |log| - 1 {
      FinishedOnce(log[..|log| - 1], j, h);
    }
  }
}
