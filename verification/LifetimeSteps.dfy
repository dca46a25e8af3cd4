/**
  What one call of each operation does to the objects, the events and the native log, field by field and from every
  heap in which owners are older than what they own, in good order or not.
 */
module LifetimeSteps {
  import opened Wrappers
  import opened Lifetimes

  // ---------- making objects ----------

  /** The object has got one listener more at the end of each of its events named. */
  predicate Gains(o: Obj, r: Obj, listener: nat, disposing: bool, stateChanging: bool) {
    match o
    case Txn(handle, mode, readOnly, parent, d, s) =>
      r == Txn(handle, mode, readOnly, parent, if disposing then d + [listener] else d,
               if stateChanging then s + [listener] else s)
    case Cursor(_, _) => r == o
  }

  /**
    Exactly one transaction is new, with the next handle, and it listens to its environment and to both events of its
    parent; exactly one native call was made, on the handles of the environment and of the parent.
   */
  predicate Begun(w: World, r: World, parent: Option<nat>, readOnly: bool)
    requires parent.Some? ==> IsTxn(w.objs, parent.value)
  {
    var n := |w.objs|;
    && |r.objs| == n + 1
    && r.objs[n] == Txn(n + 1, Active, readOnly, parent, [], [])
    && (forall i :: 0 <= i < n ==> Gains(w.objs[i], r.objs[i], n, parent == Some(i), parent == Some(i)))
    && r.env == Env(w.env.handle, w.env.isOpen, w.env.disposing + [n])
    && r.log == w.log +
         [TxnBegin(w.env.handle, if parent.Some? then w.objs[parent.value].handle else 0, readOnly, n + 1)]
  }

  lemma BeginExactly(w: World, parent: Option<nat>, readOnly: bool)
    requires Ordered(w) && (parent.Some? ==> IsTxn(w.objs, parent.value))
    ensures if parent.None? && !w.env.isOpen then Begin(w, parent, readOnly) == w
            else Begun(w, Begin(w, parent, readOnly), parent, readOnly)
  {
  }

  /** The environment hands the parent and the flag on; it only looks whether it is open. */
  lemma BeginInEnvExactly(w: World, p: nat, readOnly: bool)
    requires Ordered(w) && IsTxn(w.objs, p)
    ensures if w.env.isOpen then Begun(w, BeginInEnv(w, p, readOnly), Some(p), readOnly)
            else BeginInEnv(w, p, readOnly) == w
  {
    BeginExactly(w, Some(p), readOnly);
  }

  lemma OpenCursorExactly(w: World, t: nat)
    requires Ordered(w) && IsTxn(w.objs, t)
    ensures var n, r := |w.objs|, OpenCursor(w, t);
      && |r.objs| == n + 1 && r.objs[n] == Cursor(n + 1, t)
      && (forall i :: 0 <= i < n ==> Gains(w.objs[i], r.objs[i], n, i == t, false))
      && r.env == w.env && r.log == w.log + [CursorOpen(w.objs[t].handle, n + 1)]
  {
  }

  // ---------- reset, renew, open ----------

  /** One native call, and a new state of the transaction; nothing else. */
  predicate Restarted(w: World, r: World, t: nat, m: Mode, call: Call)
    requires IsTxn(w.objs, t)
  {
    && r.env == w.env && r.log == w.log + [call] && |r.objs| == |w.objs|
    && (forall i :: 0 <= i < |w.objs| && i != t ==> r.objs[i] == w.objs[i])
    && r.objs[t] == Txn(w.objs[t].handle, m, w.objs[t].readOnly, w.objs[t].parent, w.objs[t].disposing,
                        w.objs[t].stateChanging)
  }

  lemma ResetExactly(w: World, t: nat)
    requires Ordered(w) && IsTxn(w.objs, t)
    ensures if w.objs[t].readOnly then Restarted(w, Reset(w, t), t, Reseted, TxnReset(w.objs[t].handle))
            else Reset(w, t) == w
  {
  }

  lemma RenewExactly(w: World, t: nat)
    requires Ordered(w) && IsTxn(w.objs, t)
    ensures if w.objs[t].readOnly && w.objs[t].mode == Reseted
            then Restarted(w, Renew(w, t), t, Active, TxnRenew(w.objs[t].handle))
            else Renew(w, t) == w
  {
  }

  lemma OpenEnvExactly(w: World)
    ensures if w.env.isOpen then OpenEnv(w) == w
            else OpenEnv(w) == World(Env(w.env.handle, true, w.env.disposing), w.objs, w.log + [EnvOpen(w.env.handle)])
  {
  }

  // ---------- events ----------

  /** Removing a listener takes its last occurrence, and nothing if there is none. */
  lemma {:induction false} WithoutExactly(a: seq<nat>, x: nat, b: seq<nat>)
    requires x !in b
    ensures Without(a + [x] + b, x) == a + b
    ensures Without(b, x) == b
    decreases |b|
  {
    if b != [] {
      var last := b[|b| - 1];
      var init := b[..|b| - 1];
      WithoutExactly(a, x, init);
      assert b == init + [last];
      assert (a + [x] + b)[..|a + [x] + b| - 1] == a + [x] + init;
      assert a + b == a + init + [last];
    } else {
      assert (a + [x] + [])[..|a|] == a && a + [] == a;
    }
  }

  // ---------- commit and abort ----------

  /** From `from` on transactions may have been aborted, and native aborts made; nothing else has changed. */
  predicate OnlyAborts(w: World, r: World, from: nat) {
    && r.env == w.env && |r.objs| == |w.objs|
    && (forall i :: 0 <= i < |w.objs| ==>
         r.objs[i] == w.objs[i] || (i >= from && w.objs[i].Txn? && r.objs[i] == w.objs[i].(mode := Aborted)))
    && Extends(w.log, r.log, false)
  }

  /** The log has grown by native aborts and, where `closes` says so, by closing cursors. */
  predicate Extends(log: seq<Call>, log': seq<Call>, closes: bool) {
    && |log| <= |log'|
    && (forall k :: 0 <= k < |log| ==> log'[k] == log[k])
    && (forall k :: |log| <= k < |log'| ==> log'[k].TxnAbort? || (closes && log'[k].CursorClose?))
  }

  lemma {:induction false} AbortOnlyAborts(w: World, t: nat)
    requires Ordered(w) && IsTxn(w.objs, t)
    ensures var r := AbortTxn(w, t);
      && OnlyAborts(w, r, t) && r.objs[t] == w.objs[t].(mode := Aborted)
      && |r.log| > |w.log| && r.log[|r.log| - 1] == TxnAbort(w.objs[t].handle)
    decreases |w.objs| - t, 0, 0
  {
    assert OrderedAt(w.objs, t);
    OrderedUpdate(w, t, w.objs[t].(mode := Aborted));
    var w1 := SetMode(w, t, Aborted);
    assert OrderedAt(w1.objs, t);
    AbortEachOnlyAborts(w1, w1.objs[t].stateChanging, t + 1);
  }

  lemma {:induction false} AbortEachOnlyAborts(w: World, subs: seq<nat>, from: nat)
    requires Ordered(w) && from <= |w.objs| && AllTxns(w.objs, subs, from)
    ensures OnlyAborts(w, AbortEach(w, subs, from), from)
    decreases |w.objs| - from, 1, |subs|
  {
    hide AbortTxn;
    if subs != [] {
      AbortOnlyAborts(w, subs[0]);
      AbortEachOnlyAborts(AbortTxn(w, subs[0]), subs[1..], from);
    }
  }

  /**
    From every heap: `Commit` and `Abort` leave their transaction in the state they are named after, and their own call
    on its handle is the last one; what else they do is to abort younger transactions.
   */
  lemma {:induction false} FinishAlways(w: World, t: nat)
    requires Ordered(w) && IsTxn(w.objs, t)
    ensures var r := CommitTxn(w, t);
      && |r.log| > |w.log| && r.log[|r.log| - 1] == TxnCommit(w.objs[t].handle)
      && r.objs[t] == w.objs[t].(mode := Commited)
      && OnlyAborts(w, World(r.env, r.objs[t := w.objs[t]], r.log[..|r.log| - 1]), t + 1)
    ensures var r := AbortTxn(w, t);
      && |r.log| > |w.log| && r.log[|r.log| - 1] == TxnAbort(w.objs[t].handle)
      && r.objs[t] == w.objs[t].(mode := Aborted)
      && OnlyAborts(w, World(r.env, r.objs[t := w.objs[t]], r.log[..|r.log| - 1]), t + 1)
  {
    hide AbortEach;
    FinishWith(w, t, Commited);
    FinishWith(w, t, Aborted);
  }

  lemma FinishWith(w: World, t: nat, m: Mode)
    requires Ordered(w) && IsTxn(w.objs, t)
    ensures Ordered(SetMode(w, t, m)) && AllTxns(SetMode(w, t, m).objs, w.objs[t].stateChanging, t + 1)
    ensures OnlyAborts(SetMode(w, t, m), AbortEach(SetMode(w, t, m), w.objs[t].stateChanging, t + 1), t + 1)
  {
    assert OrderedAt(w.objs, t);
    OrderedUpdate(w, t, w.objs[t].(mode := m));
    var w1 := SetMode(w, t, m);
    assert OrderedAt(w1.objs, t);
    AbortEachOnlyAborts(w1, w1.objs[t].stateChanging, t + 1);
  }

  // ---------- dispose ----------

  /** The object as it was but for its events; or, if it is not older than `from`, disposed or aborted or both. */
  predicate LetGo(o: Obj, r: Obj, mayChange: bool) {
    match o
    case Txn(handle, mode, readOnly, parent, _, _) =>
      && r.Txn? && r.readOnly == readOnly && r.parent == parent
      && (r.handle == handle || (mayChange && r.handle == 0))
      && (r.mode == mode || (mayChange && r.mode == Aborted))
    case Cursor(_, txn) => r == o || (mayChange && r == Cursor(0, txn))
  }

  predicate OnlyReleases(w: World, r: World, from: nat) {
    && r.env.handle == w.env.handle && r.env.isOpen == w.env.isOpen && |r.objs| == |w.objs|
    && (forall i :: 0 <= i < |w.objs| ==> LetGo(w.objs[i], r.objs[i], i >= from))
    && Extends(w.log, r.log, true)
  }

  lemma ReleasesTwice(w: World, m: World, r: World, first: nat, from: nat)
    requires OnlyReleases(w, m, first) && OnlyReleases(m, r, from) && from <= first
    ensures OnlyReleases(w, r, from)
  {
    forall i | 0 <= i < |w.objs| ensures LetGo(w.objs[i], r.objs[i], i >= from) {
      assert LetGo(w.objs[i], m.objs[i], i >= first) && LetGo(m.objs[i], r.objs[i], i >= from);
    }
  }

  lemma AbortsAreReleases(w: World, r: World, from: nat)
    requires OnlyAborts(w, r, from)
    ensures OnlyReleases(w, r, from)
  {
  }

  lemma UnsubscribeReleasesNothing(w: World, t: nat)
    requires Ordered(w) && IsTxn(w.objs, t)
    ensures var r := UnsubscribeTxn(w, t); OnlyReleases(w, r, |w.objs|) && r.log == w.log && r.objs[t] == w.objs[t]
  {
    assert OrderedAt(w.objs, t);
  }

  /** What `Dispose` of a live object does itself, once its subscribers are disposed. */
  predicate DisposedLast(w: World, r: World, i: nat)
    requires i < |w.objs|
  {
    && OnlyReleases(w, r, i)
    && (w.objs[i].handle == 0 ==> r == w)
    && r.objs[i].handle == 0
    && (w.objs[i].handle != 0 ==>
         if w.objs[i].Cursor? then r.log == w.log + [CursorClose(w.objs[i].handle)]
         else if Unfinished(w.objs[i].mode) then
           && r.objs[i].Txn? && r.objs[i].mode == Aborted
           && |r.log| > |w.log| && r.log[|r.log| - 1] == TxnAbort(w.objs[i].handle)
         else r.objs[i].Txn? && r.objs[i].mode == w.objs[i].mode)
  }

  /**
    From every heap: after `Dispose` the object is disposed; a cursor's own close is the only call, the abort of an
    unfinished transaction is the last one, a finished transaction is not finished again; and only younger objects are
    let go with it.
   */
  lemma {:induction false} DisposeAlways(w: World, i: nat)
    requires Ordered(w) && i < |w.objs|
    ensures DisposedLast(w, Dispose(w, i), i)
    decreases |w.objs| - i, 0, 0
  {
    hide DisposeEach, AbortTxn, UnsubscribeTxn;
    if w.objs[i].handle == 0 {
    } else if w.objs[i].Cursor? {
      DisposeCursorAlways(w, i);
    } else {
      UnsubscribeReleasesNothing(w, i);
      var w1 := UnsubscribeTxn(w, i);
      assert OrderedAt(w1.objs, i);
      DisposeEachAlways(w1, w1.objs[i].disposing, i + 1);
      var w2 := DisposeEach(w1, w1.objs[i].disposing, i + 1);
      LastStepsAlways(w2, i);
      ReleasesTwice(w, w1, w2, |w.objs|, i + 1);
      ReleasesTwice(w, w2, Dispose(w, i), i + 1, i);
      assert LetGo(w1.objs[i], w2.objs[i], false);
    }
  }

  lemma DisposeCursorAlways(w: World, c: nat)
    requires Ordered(w) && c < |w.objs| && w.objs[c].Cursor? && w.objs[c].handle != 0
    ensures DisposedLast(w, Dispose(w, c), c)
  {
    assert OrderedAt(w.objs, c);
  }

  lemma LastStepsAlways(w: World, t: nat)
    requires Ordered(w) && IsTxn(w.objs, t)
    ensures var w3 := if Unfinished(w.objs[t].mode) then AbortTxn(w, t) else w;
      var r := ClearHandle(w3, t);
      && OnlyReleases(w, r, t) && r.objs[t].handle == 0 && r.objs[t].Txn?
      && (if Unfinished(w.objs[t].mode)
          then r.objs[t].mode == Aborted && |r.log| > |w.log| && r.log[|r.log| - 1] == TxnAbort(w.objs[t].handle)
          else r.objs[t].mode == w.objs[t].mode && r.log == w.log)
  {
    hide AbortTxn;
    AbortOnlyAborts(w, t);
    AbortsAreReleases(w, AbortTxn(w, t), t);
  }

  lemma {:induction false} DisposeEachAlways(w: World, subs: seq<nat>, from: nat)
    requires Ordered(w) && from <= |w.objs| && All(w.objs, subs, from)
    ensures OnlyReleases(w, DisposeEach(w, subs, from), from)
    decreases |w.objs| - from, 1, |subs|
  {
    hide Dispose;
    if subs != [] {
      DisposeAlways(w, subs[0]);
      var w1 := Dispose(w, subs[0]);
      DisposeEachAlways(w1, subs[1..], from);
      ReleasesTwice(w, w1, DisposeEach(w1, subs[1..], from), subs[0], from);
    }
  }

  /**
    From every heap: an environment that is disposed stays so, and one that was open makes its own close the last call;
    it is left closed, without a handle.
   */
  lemma {:induction false} DisposeEnvAlways(w: World)
    requires Ordered(w)
    ensures var r := DisposeEnv(w);
      if w.env.handle == 0 then r == w
      else
        && r.env.handle == 0 && !r.env.isOpen
        && Extends(w.log, if w.env.isOpen && r.log != [] then r.log[..|r.log| - 1] else r.log, true)
        && (w.env.isOpen ==> r.log != [] && r.log[|r.log| - 1] == EnvClose(w.env.handle))
  {
    hide DisposeEach;
    if w.env.handle != 0 {
      DisposeEachAlways(w, w.env.disposing, 0);
    }
  }
}
