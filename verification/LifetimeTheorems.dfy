/** What good order is, and what disposing, committing and aborting do to it and to the native rules. */
module LifetimeTheorems {
  import opened Wrappers
  import opened Lifetimes
  import opened LifetimeForest
  import opened NativeLedger
  import opened DisposeLaws
  import opened AbortLaws
  import opened DisposeTrace
  import opened EnvTrace

  predicate AllGone(objs: seq<Obj>) {
    forall i :: 0 <= i < |objs| ==> objs[i].handle == 0
  }

  predicate EnvInOrder(w: World) {
    (w.env.isOpen ==> w.env.handle != 0) && (!w.env.isOpen ==> AllGone(w.objs))
  }

  /**
    Events, native rules and ledger, and the environment are all in order; what is live has a live owner, and stands in
    the ledger with the handle it is to give back.
   */
  ghost predicate Good(w: World) {
    Wired(w, {}) && Linked(w) && EnvInOrder(w)
  }

  lemma InitIsGood()
    ensures Good(INIT)
  {
    assert Replay(NEW, []) == Some(NEW);
  }

  // ---------- Dispose ----------

  /** `Dispose` may be called at any time; it disposes exactly the live objects at and under its target. */
  lemma DisposeDisposesSubtree(w: World, i: nat)
    requires Good(w) && i < |w.objs|
    ensures Good(Dispose(w, i))
    ensures DisposedExactly(w, Dispose(w, i), Subtree(Forest(w.objs), i))
    ensures forall j :: 0 <= j < |w.objs| && Under(Forest(w.objs), j, i) ==> Dispose(w, i).objs[j].handle == 0
  {
    DisposeEffect(w, i, {});
    var r := Dispose(w, i);
    forall j | 0 <= j < |w.objs|
      ensures Under(Forest(w.objs), j, i) ==> r.objs[j].handle == 0
      ensures w.objs[j].handle == 0 ==> r.objs[j].handle == 0
    {
      assert Bare(r.objs[j]) == if j in Subtree(Forest(w.objs), i) then Gone(w.objs[j]) else Bare(w.objs[j]);
      assert Bare(r.objs[j]).handle == r.objs[j].handle && Bare(w.objs[j]).handle == w.objs[j].handle;
    }
  }

  /** `Dispose` is idempotent, and after it so is the disposal of everything at or under its target. */
  lemma {:induction false} DisposeTwiceIsOnce(w: World, i: nat, j: nat)
    requires Good(w) && i < |w.objs| && j < |w.objs| && Under(Forest(w.objs), j, i)
    ensures Dispose(Dispose(w, i), j) == Dispose(w, i)
  {
    DisposeDisposesSubtree(w, i);
  }

  /**
    The native calls of one `Dispose`: every live cursor at or under the target is closed and every live
    unfinished transaction is aborted, in post-order, each exactly once; nothing else is called.
   */
  lemma {:induction false} DisposeCallsInPostOrder(w: World, i: nat)
    requires Good(w) && i < |w.objs| && w.objs[i].handle != 0
    ensures Dispose(w, i).log == w.log + Releases(w.objs, PostOrder(Forest(w.objs), false, i))
    ensures forall j :: 0 <= j < |w.objs| && j in Subtree(Forest(w.objs), i) ==>
              && (w.objs[j].Cursor? ==> CloseCount(Releases(w.objs, PostOrder(Forest(w.objs), false, i)), j + 1) == 1)
              && (w.objs[j].Txn? && Unfinished(w.objs[j].mode) ==>
                   FinishCount(Releases(w.objs, PostOrder(Forest(w.objs), false, i)), j + 1) == 1)
  {
    hide Releases, Dispose, EnvInOrder, PostOrder, Replay, Fits, Apply, Subscribers;
    DisposeCalls(w, i, {});
    DisposeDisposesSubtree(w, i);
    var calls := Releases(w.objs, PostOrder(Forest(w.objs), false, i));
    var r := Dispose(w, i);
    ReplayAppend(NEW, w.log, calls);
    forall j | 0 <= j < |w.objs| && j in Subtree(Forest(w.objs), i)
      ensures w.objs[j].Cursor? ==> CloseCount(calls, j + 1) == 1
      ensures w.objs[j].Txn? && Unfinished(w.objs[j].mode) ==> FinishCount(calls, j + 1) == 1
    {
      assert Under(Forest(w.objs), j, i) && r.objs[j].handle == 0;
      ReleasedOnce(w, r, Replay(NEW, w.log).value, Replay(NEW, r.log).value, calls, j);
    }
  }

  lemma ReleasedOnce(w: World, r: World, l: Ledger, l': Ledger, calls: seq<Call>, j: nat)
    requires Fits(l, w) && Fits(l', r) && Replay(l, calls) == Some(l') && j < |w.objs| == |r.objs|
    requires w.objs[j].handle != 0 && r.objs[j].handle == 0
    ensures w.objs[j].Cursor? ==> CloseCount(calls, j + 1) == 1
    ensures w.objs[j].Txn? && Unfinished(w.objs[j].mode) ==> FinishCount(calls, j + 1) == 1
  {
    hide Replay, CloseCount, FinishCount, BeginCount, OpenCount;
    assert !Owes(r.objs, j + 1) && !OwesCursor(r.objs, j + 1);
    assert w.objs[j].Cursor? ==> OwesCursor(w.objs, j + 1);
    assert w.objs[j].Txn? && Unfinished(w.objs[j].mode) ==> Owes(w.objs, j + 1);
    HandlesConserved(l, calls, j + 1);
  }

  // ---------- disposing the environment ----------

  lemma EnvSubscribersCoverAll(f: seq<Node>, i: nat)
    requires Rooted(f) && i < |f| && f[i].live
    ensures Covers(f, Subscribers(f, {}, OfEnv, |f|), i)
  {
    assert RootedAt(f, i);
    var t := if f[i].isTxn then i else f[i].owner.value;
    assert RootedAt(f, t);
    var k := SubscribersComplete(f, {}, OfEnv, |f|, t);
    assert Under(f, i, t);
  }

  lemma DisposeEnvDisposesAll(w: World)
    requires Good(w) && w.env.handle != 0
    ensures var r := DisposeEach(w, w.env.disposing, 0);
      && Wired(r, {}) && Linked(r) && AllGone(r.objs)
      && r.env.(disposing := []) == w.env.(disposing := [])
  {
    var f := Forest(w.objs);
    DisposeEachEffect(w, w.env.disposing, 0, {});
    var r := DisposeEach(w, w.env.disposing, 0);
    forall i | 0 <= i < |w.objs| ensures r.objs[i].handle == 0 {
      if f[i].live {
        EnvSubscribersCoverAll(f, i);
        assert i in Subtrees(f, w.env.disposing);
      }
      assert Bare(r.objs[i]) == if i in Subtrees(f, w.env.disposing) then Gone(w.objs[i]) else Bare(w.objs[i]);
      assert Bare(r.objs[i]).handle == r.objs[i].handle && Bare(w.objs[i]).handle == w.objs[i].handle;
    }
  }

  /**
    Disposing the environment is always allowed. It leaves nothing live; an opened environment is closed by the last
    native call, which the rules admit only because every transaction and cursor handle has been given back before.
   */
  lemma {:induction false} DisposeEnvIsGood(w: World)
    requires Good(w)
    ensures Good(DisposeEnv(w)) && AllGone(DisposeEnv(w).objs) && DisposeEnv(w).env.handle == 0
    ensures w.env.isOpen ==>
              && DisposeEnv(w).log == DisposeEach(w, w.env.disposing, 0).log + [EnvClose(w.env.handle)]
              && (exists l :: Replay(NEW, DisposeEach(w, w.env.disposing, 0).log) == Some(l)
                              && l.txns == map[] && l.cursors == map[])
  {
    hide Subscribers, DisposeEach, Rooted, Replay;
    if w.env.handle != 0 {
      DisposeEnvDisposesAll(w);
      var r := DisposeEach(w, w.env.disposing, 0);
      var l := Replay(NEW, r.log).value;
      forall h: nat ensures !Owes(r.objs, h) && !OwesCursor(r.objs, h) {
      }
      assert l.txns == map[] && l.cursors == map[];
      var d := DisposeEnv(w);
      WiredEnv(r, d);
      if w.env.isOpen {
        ReplayLast(NEW, r.log, EnvClose(w.env.handle));
        assert Fits(l.(env := Closed), d);
      }
    }
  }

  /**
    The native calls of disposing an opened environment: tree after tree, every live cursor is closed and every live
    unfinished transaction is aborted, in post-order and each exactly once, although the event holds the nested
    transactions as well; and then the environment is closed.
   */
  lemma {:induction false} DisposeEnvCallsInPostOrder(w: World)
    requires Good(w) && w.env.isOpen
    ensures var f := Forest(w.objs);
      var calls := Releases(w.objs, PostOrderEach(f, false, Roots(f, |w.objs|), 0));
      && DisposeEnv(w).log == w.log + calls + [EnvClose(w.env.handle)]
      && (forall j :: 0 <= j < |w.objs| && w.objs[j].handle != 0 ==>
           && (w.objs[j].Cursor? ==> CloseCount(calls, j + 1) == 1)
           && (w.objs[j].Txn? && Unfinished(w.objs[j].mode) ==> FinishCount(calls, j + 1) == 1))
  {
    hide Releases, PostOrderEach, Roots, DisposeEach, Replay, Fits, Subscribers;
    var f := Forest(w.objs);
    var calls := Releases(w.objs, PostOrderEach(f, false, Roots(f, |w.objs|), 0));
    var r := DisposeEach(w, w.env.disposing, 0);
    EnvDisposeCalls(w);
    DisposeEnvDisposesAll(w);
    ReplayAppend(NEW, w.log, calls);
    forall j | 0 <= j < |w.objs| && w.objs[j].handle != 0
      ensures w.objs[j].Cursor? ==> CloseCount(calls, j + 1) == 1
      ensures w.objs[j].Txn? && Unfinished(w.objs[j].mode) ==> FinishCount(calls, j + 1) == 1
    {
      ReleasedOnce(w, r, Replay(NEW, w.log).value, Replay(NEW, r.log).value, calls, j);
    }
  }

  lemma WiredEnv(w: World, r: World)
    requires Wired(w, {}) && r.objs == w.objs && r.env.disposing == w.env.disposing
    ensures Wired(r, {})
  {
    assert forall i :: 0 <= i < |w.objs| ==> OrderedAt(w.objs, i) && WiredAt(w.objs, {}, i);
  }

  // ---------- Commit and Abort ----------

  /** Every live transaction at and under `t` is unfinished. */
  predicate SubtreeUnfinished(w: World, t: nat) {
    forall i :: i in TxnSubtree(Forest(w.objs), t) && i < |w.objs| && w.objs[i].Txn? ==> Unfinished(w.objs[i].mode)
  }

  function FinishCall(m: Mode, h: nat): Call {
    if m == Commited then TxnCommit(h) else TxnAbort(h)
  }

  /** `Commit` (m is Commited) or `Abort` (m is Aborted). */
  function FinishTxn(w: World, t: nat, m: Mode): (r: World)
    requires Ordered(w) && IsTxn(w.objs, t) && !Unfinished(m)
    ensures Ordered(r)
  {
    if m == Commited then CommitTxn(w, t) else AbortTxn(w, t)
  }

  /**
    `Commit` and `Abort` of a live transaction abort the live transactions under it, children before their
    parent and siblings in the order of their creation, and then finish the transaction itself.
    None of them is left Active or Reseted, and nothing else changes.
   */
  lemma {:induction false} FinishIsPostOrder(w: World, t: nat, m: Mode)
    requires Good(w) && IsTxn(w.objs, t) && w.objs[t].handle != 0 && !Unfinished(m)
    ensures var f := Forest(w.objs);
      && FinishTxn(w, t, m).log == w.log + Aborts(Below(f, true, t)) + [FinishCall(m, t + 1)]
      && FinishTxn(w, t, m).env == w.env && |FinishTxn(w, t, m).objs| == |w.objs|
      && (forall i :: 0 <= i < |w.objs| ==>
           FinishTxn(w, t, m).objs[i] ==
             if i == t then WithMode(w.objs[i], m)
             else if i in TxnSubtree(f, t) && w.objs[i].Txn? then WithMode(w.objs[i], Aborted)
             else w.objs[i])
  {
    hide Below, Aborts, TxnSubtree, Subscribers, Linked, EnvInOrder, AbortEach, Rooted, OrderedAt;
    RaiseEffect(w, t, m);
    assert WiredAt(w.objs, {}, t);
    FinishUnfolds(w, t, m);
  }

  lemma FinishUnfolds(w: World, t: nat, m: Mode)
    requires Ordered(w) && IsTxn(w.objs, t) && !Unfinished(m)
    requires Ordered(SetMode(w, t, m)) && AllTxns(w.objs, w.objs[t].stateChanging, t + 1)
    ensures var r := AbortEach(SetMode(w, t, m), w.objs[t].stateChanging, t + 1);
      t < |r.objs| && FinishTxn(w, t, m) == Logged(r, FinishCall(m, r.objs[t].handle))
  {
  }

  /** The cursors that are still to be closed, of the transactions at and under `t`, are those of read-only ones. */
  predicate CursorsSpared(w: World, t: nat) {
    forall c :: 0 <= c < |w.objs| ==> Spares(w, t, c)
  }

  /** Object `c` is no live cursor of a write transaction at or under `t`. */
  predicate Spares(w: World, t: nat, c: nat)
    requires c < |w.objs|
  {
    w.objs[c].Cursor? && w.objs[c].handle != 0 && IsTxn(w.objs, w.objs[c].txn) ==>
      w.objs[c].txn in TxnSubtree(Forest(w.objs), t) ==> w.objs[w.objs[c].txn].readOnly
  }

  lemma {:induction false} FinishIsGood(w: World, t: nat, m: Mode)
    requires Good(w) && IsTxn(w.objs, t) && w.objs[t].handle != 0 && !Unfinished(m)
    requires SubtreeUnfinished(w, t) && CursorsSpared(w, t)
    ensures Good(FinishTxn(w, t, m))
  {
    hide Spares, Replay, EndTxns, Subscribers, Rooted, TxnSubtree, CursorsSpared, SubtreeUnfinished;
    var r := FinishTxn(w, t, m);
    FinishIsPostOrder(w, t, m);
    WiredModes(w, r, {});
    var l := Replay(NEW, w.log).value;
    FinishLedger(w, t, m);
    NothingFreed(w, t, l);
    FinishFits(w, r, t, l);
  }

  /** What the ledger says after `t` and the transactions under it have been finished. */
  lemma {:induction false} FinishLedger(w: World, t: nat, m: Mode)
    requires Good(w) && IsTxn(w.objs, t) && w.objs[t].handle != 0 && !Unfinished(m) && SubtreeUnfinished(w, t)
    ensures t in TxnSubtree(Forest(w.objs), t)
    ensures Replay(NEW, FinishTxn(w, t, m).log)
         == Some(EndTxns(Replay(NEW, w.log).value, Handles(TxnSubtree(Forest(w.objs), t))))
  {
    hide Replay, EndTxns, Subscribers, FinishTxn, PostOrder, TxnSubtree;
    var l := Replay(NEW, w.log).value;
    SubtreeInLedger(w, t, l);
    LedgerIsOver(l, w);
    FinishLog(w, t, m);
    ReplayPostOrder(l, Forest(w.objs), t);
  }

  lemma NothingFreed(w: World, t: nat, l: Ledger)
    requires Fits(l, w) && CursorsSpared(w, t)
    ensures Freed(l, Handles(TxnSubtree(Forest(w.objs), t))) == {}
  {
    var s := TxnSubtree(Forest(w.objs), t);
    forall c | c in l.cursors && l.cursors[c] in Handles(s) && l.cursors[c] in l.txns
      ensures l.txns[l.cursors[c]].readOnly
    {
      assert OwesCursor(w.objs, c) && Spares(w, t, c - 1);
      assert l.cursors[c] == w.objs[c - 1].txn + 1 && Owes(w.objs, l.cursors[c]);
    }
  }

  /**
    Ending a write transaction frees its cursors. If one is not closed before, its object is left with a freed handle:
    the state is no longer in order, and whatever calls follow break the rules as soon as they close the cursor,
    which the disposal of the object does.
   */
  lemma {:induction false} FinishFreesCursor(w: World, t: nat, m: Mode, c: nat)
    requires Good(w) && IsTxn(w.objs, t) && w.objs[t].handle != 0 && !Unfinished(m) && SubtreeUnfinished(w, t)
    requires c < |w.objs| && !Spares(w, t, c)
    ensures var r := FinishTxn(w, t, m);
      && !Good(r) && c < |r.objs|
      && Dispose(r, c).log == r.log + [CursorClose(c + 1)]
      && (forall calls :: CloseCount(calls, c + 1) > 0 ==> Replay(NEW, r.log + calls).None?)
  {
    hide Good, Replay, TxnSubtree, FinishTxn, Dispose, Below;
    GoodLedger(w);
    var r, l := FinishTxn(w, t, m), LedgerOf(w);
    FinishIsPostOrder(w, t, m);
    FinishLedger(w, t, m);
    CursorIsFreed(w, t, l, c);
    assert c + 1 in LedgerOf(r).freed;
    FreedIsNotGood(r, c);
    assert r.objs[c] == w.objs[c];
    CursorHandle(w, c);
    DisposedCursorLog(r, c);
  }

  /** A cursor of a read-only transaction, on the other hand, may be disposed before or after its transaction ends. */
  lemma {:induction false} SparedCursorOutlivesTxn(w: World, t: nat, m: Mode, c: nat)
    requires Good(w) && IsTxn(w.objs, t) && w.objs[t].handle != 0 && !Unfinished(m)
    requires SubtreeUnfinished(w, t) && CursorsSpared(w, t)
    requires c < |w.objs| && w.objs[c].Cursor? && w.objs[c].handle != 0
    ensures var r := FinishTxn(w, t, m);
      && c < |r.objs| && r.objs[c] == w.objs[c]
      && Good(Dispose(r, c)) && Dispose(r, c).log == r.log + [CursorClose(c + 1)]
  {
    hide Good, FinishTxn, Dispose, CursorsSpared, SubtreeUnfinished, TxnSubtree, Below;
    GoodLedger(w);
    FinishIsPostOrder(w, t, m);
    FinishIsGood(w, t, m);
    DisposeDisposesSubtree(FinishTxn(w, t, m), c);
    CursorHandle(w, c);
    DisposedCursorLog(FinishTxn(w, t, m), c);
  }

  /** The ledger after the calls made so far, if they keep the rules. */
  ghost function LedgerOf(w: World): Ledger {
    match Replay(NEW, w.log)
    case None => NEW
    case Some(l) => l
  }

  lemma GoodLedger(w: World)
    requires Good(w)
    ensures Wired(w, {}) && Replay(NEW, w.log) == Some(LedgerOf(w)) && Fits(LedgerOf(w), w)
  {
  }

  lemma FreedIsNotGood(r: World, c: nat)
    requires Replay(NEW, r.log) == Some(LedgerOf(r)) && c + 1 in LedgerOf(r).freed
    ensures !Good(r)
    ensures forall calls :: CloseCount(calls, c + 1) > 0 ==> Replay(NEW, r.log + calls).None?
  {
    hide Replay, CloseCount, Wired, EnvInOrder;
    ReplayIsSane(NEW, r.log);
    forall calls | CloseCount(calls, c + 1) > 0 ensures Replay(NEW, r.log + calls).None? {
      ReplayAppend(NEW, r.log, calls);
      FreedForGood(LedgerOf(r), calls, c + 1);
    }
  }

  lemma DisposedCursorLog(r: World, c: nat)
    requires Ordered(r) && c < |r.objs| && r.objs[c].Cursor? && r.objs[c].handle == c + 1
    ensures Dispose(r, c).log == r.log + [CursorClose(c + 1)]
  {
  }

  lemma CursorHandle(w: World, c: nat)
    requires Wired(w, {}) && c < |w.objs| && w.objs[c].handle != 0
    ensures w.objs[c].handle == c + 1
  {
    assert WiredAt(w.objs, {}, c);
  }

  lemma CursorIsFreed(w: World, t: nat, l: Ledger, c: nat)
    requires Fits(l, w) && SubtreeUnfinished(w, t) && c < |w.objs| && !Spares(w, t, c)
    ensures c + 1 in Freed(l, Handles(TxnSubtree(Forest(w.objs), t)))
  {
    var p := w.objs[c].txn;
    assert OwesCursor(w.objs, c + 1) && l.cursors[c + 1] == p + 1;
    assert Owes(w.objs, p + 1) && l.txns[p + 1] == EntryOf(w.objs[p]);
  }

  /** To the ledger, a commit or an abort of `t` is the post-order of aborts. */
  lemma FinishReplays(l: Ledger, below: seq<nat>, t: nat, m: Mode)
    ensures Replay(l, Aborts(below) + [FinishCall(m, t + 1)]) == Replay(l, Aborts(below + [t]))
  {
    assert Aborts(below + [t]) == Aborts(below) + [TxnAbort(t + 1)];
    ReplayLast(l, Aborts(below), FinishCall(m, t + 1));
    ReplayLast(l, Aborts(below), TxnAbort(t + 1));
  }

  lemma {:induction false} FinishLog(w: World, t: nat, m: Mode)
    requires Good(w) && IsTxn(w.objs, t) && w.objs[t].handle != 0 && !Unfinished(m)
    ensures Replay(NEW, FinishTxn(w, t, m).log)
      == Replay(Replay(NEW, w.log).value, Aborts(PostOrder(Forest(w.objs), true, t)))
  {
    var below := Below(Forest(w.objs), true, t);
    FinishIsPostOrder(w, t, m);
    assert FinishTxn(w, t, m).log == w.log + (Aborts(below) + [FinishCall(m, t + 1)]);
    ReplayAppend(NEW, w.log, Aborts(below) + [FinishCall(m, t + 1)]);
    FinishReplays(Replay(NEW, w.log).value, below, t, m);
  }

  lemma SubtreeInLedger(w: World, t: nat, l: Ledger)
    requires Fits(l, w) && IsTxn(w.objs, t) && w.objs[t].handle != 0 && SubtreeUnfinished(w, t)
    ensures t in TxnSubtree(Forest(w.objs), t) && Handles(TxnSubtree(Forest(w.objs), t)) <= l.txns.Keys
  {
    var s := TxnSubtree(Forest(w.objs), t);
    forall h | h in Handles(s) ensures h in l.txns {
      assert h - 1 in s && w.objs[h - 1].Txn?;
      assert Owes(w.objs, h);
    }
  }

  lemma LedgerIsOver(l: Ledger, w: World)
    requires Fits(l, w)
    ensures Over(l, Forest(w.objs))
  {
    var f := Forest(w.objs);
    forall h: nat | h in l.txns
      ensures 1 <= h <= |f| && f[h - 1].live && f[h - 1].isTxn && l.txns[h].parent == NodeParent(f[h - 1])
    {
      assert Owes(w.objs, h);
    }
  }

  lemma FinishFits(w: World, r: World, t: nat, l: Ledger)
    requires Fits(l, w) && IsTxn(w.objs, t) && r.env == w.env && |r.objs| == |w.objs|
    requires t in TxnSubtree(Forest(w.objs), t) && t < |r.objs| && r.objs[t].Txn? && !Unfinished(r.objs[t].mode)
    requires r.objs[t] == WithMode(w.objs[t], r.objs[t].mode)
    requires forall i :: 0 <= i < |w.objs| && i != t ==>
               r.objs[i] ==
                 if i in TxnSubtree(Forest(w.objs), t) && w.objs[i].Txn? then WithMode(w.objs[i], Aborted)
                 else w.objs[i]
    requires Freed(l, Handles(TxnSubtree(Forest(w.objs), t))) == {}
    ensures Fits(EndTxns(l, Handles(TxnSubtree(Forest(w.objs), t))), r)
  {
    hide EndTxns, Freed;
    var s := TxnSubtree(Forest(w.objs), t);
    forall i | 0 <= i < |w.objs| ensures Kept(w.objs, r.objs, Handles(s), i) {
      assert i in s ==> w.objs[i].Txn?;
      assert i + 1 in Handles(s) <==> i in s;
    }
    FitsEnded(l, w, r, Handles(s));
  }

  /** Only handles in the ledger can be finished, in a list of calls that opens none. */
  lemma {:induction false} FinishNeedsLedger(l: Ledger, ids: seq<nat>, k: nat)
    requires k < |ids| && Replay(l, Aborts(ids)).Some?
    ensures ids[k] + 1 in l.txns
    decreases |ids|
  {
    assert Aborts(ids)[1..] == Aborts(ids[1..]);
    if k > 0 {
      FinishNeedsLedger(Apply(l, Aborts(ids)[0]).value, ids[1..], k - 1);
    }
  }

  /** The subtree of a transaction is in its post-order. */
  lemma {:induction false} PostOrderCovers(f: seq<Node>, t: nat, i: nat) returns (k: nat)
    requires Rooted(f) && t < |f| && f[t].live && i in TxnSubtree(f, t)
    ensures k < |PostOrder(f, true, t)| && PostOrder(f, true, t)[k] == i
    decreases |f| - t, 0, 0
  {
    if i == t {
      k := |Below(f, true, t)|;
    } else {
      TxnChildrenCover(f, t, i);
      ChildrenAreYounger(f, true, t);
      var cs := Children(f, true, t);
      forall k | 0 <= k < |cs| ensures f[cs[k]].live {
        assert IsChild(f, true, cs[k], t);
      }
      k := PostOrderEachCovers(f, cs, t + 1, i);
    }
  }

  lemma {:induction false} PostOrderEachCovers(f: seq<Node>, ts: seq<nat>, from: nat, i: nat) returns (k: nat)
    requires Rooted(f) && from <= |f| && forall k :: 0 <= k < |ts| ==> from <= ts[k] < |f| && f[ts[k]].live
    requires i in TxnSubtrees(f, ts)
    ensures k < |PostOrderEach(f, true, ts, from)| && PostOrderEach(f, true, ts, from)[k] == i
    decreases |f| - from, 1, |ts|
  {
    CoversCons(f, ts, i);
    if Under(f, i, ts[0]) {
      k := PostOrderCovers(f, ts[0], i);
    } else {
      k := PostOrderEachCovers(f, ts[1..], from, i);
      k := k + |PostOrder(f, true, ts[0])|;
    }
  }

  /** One finished transaction among those to be finished, and the rules are broken. */
  lemma {:induction false} FinishBreaksRules(w: World, t: nat, m: Mode)
    requires Good(w) && IsTxn(w.objs, t) && w.objs[t].handle != 0 && !Unfinished(m) && !SubtreeUnfinished(w, t)
    ensures Replay(NEW, FinishTxn(w, t, m).log).None?
  {
    var f := Forest(w.objs);
    var l := Replay(NEW, w.log).value;
    FinishLog(w, t, m);
    var i :| i in TxnSubtree(f, t) && i < |w.objs| && w.objs[i].Txn? && !Unfinished(w.objs[i].mode);
    assert !Owes(w.objs, i + 1);
    if Replay(l, Aborts(PostOrder(f, true, t))).Some? {
      var k := PostOrderCovers(f, t, i);
      FinishNeedsLedger(l, PostOrder(f, true, t), k);
    }
  }

  /** A disposed transaction has no live subscriber, and its handle is null. */
  lemma FinishOfDisposedBreaksRules(w: World, t: nat, m: Mode)
    requires Good(w) && IsTxn(w.objs, t) && w.objs[t].handle == 0 && !Unfinished(m)
    ensures Replay(NEW, FinishTxn(w, t, m).log).None?
  {
    var f := Forest(w.objs);
    forall i | 0 <= i < |f| ensures !Heard(f, {}, StateChangingOf(t), i) {
      assert RootedAt(f, i);
    }
    SubscribersNone(f, {}, StateChangingOf(t), |f|);
    assert WiredAt(w.objs, {}, t) && OrderedAt(w.objs, t);
    assert w.objs[t].stateChanging == [];
    OrderedUpdate(w, t, w.objs[t].(mode := m));
    assert AbortEach(SetMode(w, t, m), [], t + 1) == SetMode(w, t, m);
    assert FinishTxn(w, t, m) == Logged(SetMode(w, t, m), FinishCall(m, 0));
    ReplayLast(NEW, w.log, FinishCall(m, 0));
    assert !Owes(w.objs, 0);
  }
}
