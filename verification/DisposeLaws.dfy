/** What `Dispose` does, from any state in which the wrapper's events and the native ledger are in order. */
module DisposeLaws {
  import opened Wrappers
  import opened Lifetimes
  import opened LifetimeForest
  import opened NativeLedger

  /** An object without its subscriber lists. */
  function Bare(o: Obj): Obj {
    match o
    case Txn(handle, mode, readOnly, parent, _, _) => Txn(handle, mode, readOnly, parent, [], [])
    case Cursor(_, _) => o
  }

  /** A bare object after its disposal: a transaction still unfinished has been aborted. */
  function Gone(o: Obj): Obj {
    match o
    case Txn(_, mode, readOnly, parent, _, _) =>
      Txn(0, if Unfinished(mode) then Aborted else mode, readOnly, parent, [], [])
    case Cursor(_, txn) => Cursor(0, txn)
  }

  predicate WiredAt(objs: seq<Obj>, busy: set<nat>, i: nat)
    requires i < |objs|
  {
    && (objs[i].handle == 0 || objs[i].handle == i + 1)
    && (objs[i].Txn? ==>
         && objs[i].disposing == Subscribers(Forest(objs), busy, DisposingOf(i), |objs|)
         && objs[i].stateChanging == Subscribers(Forest(objs), busy, StateChangingOf(i), |objs|))
  }

  /** Every event holds exactly its live, not busy, listeners in the order of their creation. */
  predicate Wired(w: World, busy: set<nat>) {
    && Ordered(w)
    && Rooted(Forest(w.objs))
    && (forall i :: 0 <= i < |w.objs| ==> WiredAt(w.objs, busy, i))
    && w.env.disposing == Subscribers(Forest(w.objs), busy, OfEnv, |w.objs|)
  }

  // ---------- the ledger the wrapper's objects stand for ----------

  predicate Owes(objs: seq<Obj>, h: nat) {
    1 <= h <= |objs| && objs[h - 1].Txn? && objs[h - 1].handle != 0 && Unfinished(objs[h - 1].mode)
  }

  predicate OwesCursor(objs: seq<Obj>, h: nat) {
    1 <= h <= |objs| && objs[h - 1].Cursor? && objs[h - 1].handle != 0
  }

  function ParentHandle(o: Obj): nat {
    match Owner(o)
    case None => 0
    case Some(p) => p + 1
  }

  /** The ledger's entry for a transaction; of a cursor only the parent, its transaction, is looked at. */
  function EntryOf(o: Obj): Entry {
    match o
    case Txn(_, mode, readOnly, _, _, _) => Entry(ParentHandle(o), readOnly, mode == Reseted)
    case Cursor(_, _) => Entry(ParentHandle(o), false, false)
  }

  ghost predicate Fits(l: Ledger, w: World) {
    && l.used == |w.objs|
    && (forall h: nat :: h in l.txns <==> Owes(w.objs, h))
    && (forall h: nat :: h in l.txns ==> l.txns[h] == EntryOf(w.objs[h - 1]))
    && (forall h: nat :: h in l.cursors <==> OwesCursor(w.objs, h))
    && (forall h: nat :: h in l.cursors ==> l.cursors[h] == ParentHandle(w.objs[h - 1]))
    && l.freed == {}
    && (w.env.isOpen <==> l.env == Opened)
    && (w.env.handle != 0 && !w.env.isOpen ==> l.env == Created)
  }

  /**
    The native calls made so far keep the rules, and the ledger they leave is the one the objects stand for;
    in particular no cursor has been freed while its object is still to close it.
   */
  ghost predicate Linked(w: World) {
    Replay(NEW, w.log).Some? && Fits(Replay(NEW, w.log).value, w)
  }

  // ---------- frames ----------

  /** `r` is `w` with the objects of `gone` disposed; subscriber lists and log aside. */
  predicate DisposedExactly(w: World, r: World, gone: set<nat>) {
    && |r.objs| == |w.objs|
    && r.env.handle == w.env.handle && r.env.isOpen == w.env.isOpen
    && (forall i :: 0 <= i < |w.objs| ==> Bare(r.objs[i]) == if i in gone then Gone(w.objs[i]) else Bare(w.objs[i]))
  }

  lemma ForestOfBare(objs: seq<Obj>, objs': seq<Obj>)
    requires |objs| == |objs'| && forall i :: 0 <= i < |objs| ==> Bare(objs[i]) == Bare(objs'[i])
    ensures Forest(objs) == Forest(objs')
  {
    forall i | 0 <= i < |objs| ensures Forest(objs)[i] == Forest(objs')[i] {
      assert Owner(Bare(objs[i])) == Owner(objs[i]) && Owner(Bare(objs'[i])) == Owner(objs'[i]);
    }
  }

  lemma FitsBare(l: Ledger, w: World, r: World)
    requires Fits(l, w) && DisposedExactly(w, r, {})
    ensures Fits(l, r)
  {
    forall h: nat | 1 <= h <= |w.objs|
      ensures Owes(r.objs, h) == Owes(w.objs, h) && OwesCursor(r.objs, h) == OwesCursor(w.objs, h)
      ensures EntryOf(r.objs[h - 1]) == EntryOf(w.objs[h - 1])
    {
      SameEntry(w.objs[h - 1], r.objs[h - 1]);
      assert Bare(r.objs[h - 1]) == Bare(w.objs[h - 1]);
    }
  }

  lemma UnsubscribeTxnWired(w: World, t: nat, busy: set<nat>)
    requires Wired(w, busy) && IsTxn(w.objs, t) && w.objs[t].handle != 0 && t !in busy
    ensures Wired(UnsubscribeTxn(w, t), busy + {t}) && DisposedExactly(w, UnsubscribeTxn(w, t), {})
    ensures UnsubscribeTxn(w, t).log == w.log
    ensures UnsubscribeTxn(w, t).objs[t] == w.objs[t]
  {
    var r := UnsubscribeTxn(w, t);
    var f := Forest(w.objs);
    var n := |w.objs|;
    assert OrderedAt(w.objs, t);
    ForestOfBare(w.objs, r.objs);
    SubscribersWithout(f, busy, f, busy + {t}, OfEnv, n, t);
    forall i | 0 <= i < n ensures WiredAt(r.objs, busy + {t}, i) {
      assert WiredAt(w.objs, busy, i);
      if w.objs[t].parent == Some(i) {
        SubscribersWithout(f, busy, f, busy + {t}, DisposingOf(i), n, t);
        SubscribersWithout(f, busy, f, busy + {t}, StateChangingOf(i), n, t);
      } else {
        SubscribersFrame(f, busy, f, busy + {t}, DisposingOf(i), n);
        SubscribersFrame(f, busy, f, busy + {t}, StateChangingOf(i), n);
      }
    }
  }

  // ---------- a cursor ----------

  lemma CursorIsLeaf(f: seq<Node>, c: nat)
    requires Rooted(f) && c < |f| && f[c].live && !f[c].isTxn
    ensures Subtree(f, c) == {c}
  {
    forall i | 0 <= i < |f| && f[i].live && Under(f, i, c) ensures i == c {
      LiveUnderLive(f, i, c);
    }
  }

  lemma DisposeCursorWired(w: World, c: nat, busy: set<nat>)
    requires Wired(w, busy) && c < |w.objs| && w.objs[c].Cursor? && w.objs[c].handle != 0 && c !in busy
    ensures Wired(Dispose(w, c), busy) && DisposedExactly(w, Dispose(w, c), {c})
    ensures Dispose(w, c).log == w.log + [CursorClose(c + 1)]
  {
    var r := Dispose(w, c);
    var f, f' := Forest(w.objs), Forest(r.objs);
    var n := |w.objs|;
    assert OrderedAt(w.objs, c) && WiredAt(w.objs, busy, c);
    var t := w.objs[c].txn;
    assert forall i :: 0 <= i < n && i != c ==> f'[i] == f[i];
    assert f'[c] == f[c].(live := false);
    forall i | 0 <= i < n ensures RootedAt(f', i) {
      assert RootedAt(f, i);
    }
    SubscribersFrame(f, busy, f', busy, OfEnv, n);
    forall i | 0 <= i < n ensures WiredAt(r.objs, busy, i) {
      assert WiredAt(w.objs, busy, i);
      if i == t {
        SubscribersWithout(f, busy, f', busy, DisposingOf(i), n, c);
      } else {
        SubscribersFrame(f, busy, f', busy, DisposingOf(i), n);
      }
      SubscribersFrame(f, busy, f', busy, StateChangingOf(i), n);
    }
  }

  lemma DisposeCursorLinked(w: World, c: nat, busy: set<nat>)
    requires Wired(w, busy) && c < |w.objs| && w.objs[c].Cursor? && w.objs[c].handle != 0 && c !in busy
    requires Linked(w)
    ensures Linked(Dispose(w, c))
  {
    hide Dispose, Replay, Subscribers, Rooted;
    DisposeCursorWired(w, c, busy);
    var r := Dispose(w, c);
    var l := Replay(NEW, w.log).value;
    ReplayLast(NEW, w.log, CursorClose(c + 1));
    assert OwesCursor(w.objs, c + 1) && c + 1 in l.cursors;
    var l' := l.(cursors := l.cursors - {c + 1});
    forall h: nat | 1 <= h <= |w.objs|
      ensures Owes(r.objs, h) == Owes(w.objs, h)
      ensures OwesCursor(r.objs, h) == (OwesCursor(w.objs, h) && h != c + 1)
      ensures EntryOf(r.objs[h - 1]) == EntryOf(w.objs[h - 1])
    {
      assert Bare(r.objs[h - 1]) == if h - 1 == c then Gone(w.objs[h - 1]) else Bare(w.objs[h - 1]);
    }
    assert Fits(l', r);
  }

  // ---------- a transaction, once its subscribers are disposed ----------

  /** The end of a transaction's `Dispose`: the abort of an unfinished one, and the cleared handle. */
  function LastSteps(w: World, t: nat): World
    requires Ordered(w) && IsTxn(w.objs, t)
  {
    ClearHandle(if Unfinished(w.objs[t].mode) then AbortTxn(w, t) else w, t)
  }

  predicate Childless(w: World, t: nat) {
    forall i :: 0 <= i < |w.objs| && Owner(w.objs[i]) == Some(t) ==> w.objs[i].handle == 0
  }

  lemma AbortChildless(w: World, t: nat, busy: set<nat>)
    requires Wired(w, busy) && IsTxn(w.objs, t) && Childless(w, t)
    ensures AbortTxn(w, t) == Logged(SetMode(w, t, Aborted), TxnAbort(w.objs[t].handle))
  {
    assert WiredAt(w.objs, busy, t);
    SubscribersNone(Forest(w.objs), busy, StateChangingOf(t), |w.objs|);
  }

  lemma LastStepsWired(w: World, t: nat, busy: set<nat>)
    requires Wired(w, busy + {t}) && IsTxn(w.objs, t) && w.objs[t].handle != 0 && Childless(w, t)
    requires forall b :: b in busy ==> b < t
    ensures Ordered(LastSteps(w, t)) && Wired(LastSteps(w, t), busy) && DisposedExactly(w, LastSteps(w, t), {t})
    ensures LastSteps(w, t).log == w.log + (if Unfinished(w.objs[t].mode) then [TxnAbort(t + 1)] else [])
  {
    hide Subscribers, AbortTxn;
    AbortChildless(w, t, busy + {t});
    assert WiredAt(w.objs, busy + {t}, t) && OrderedAt(w.objs, t);
    var r := LastSteps(w, t);
    var f, f' := Forest(w.objs), Forest(r.objs);
    var n := |w.objs|;
    var w' := if Unfinished(w.objs[t].mode) then AbortTxn(w, t) else w;
    assert OrderedAt(w'.objs, t);
    OrderedUpdate(w', t, Disposed(w'.objs[t]));
    assert forall i :: 0 <= i < n && i != t ==> r.objs[i] == w.objs[i] && f'[i] == f[i];
    assert f'[t] == f[t].(live := false);
    forall i | 0 <= i < n ensures RootedAt(f', i) {
      assert RootedAt(f, i);
    }
    forall e: Event ensures Subscribers(f', busy, e, n) == Subscribers(f, busy + {t}, e, n) {
      SubscribersFrame(f, busy + {t}, f', busy, e, n);
    }
    forall i | 0 <= i < n ensures WiredAt(r.objs, busy, i) {
      assert WiredAt(w.objs, busy + {t}, i);
    }
  }

  lemma LastStepsLinked(w: World, t: nat, busy: set<nat>)
    requires Wired(w, busy + {t}) && IsTxn(w.objs, t) && w.objs[t].handle != 0 && Childless(w, t)
    requires forall b :: b in busy ==> b < t
    requires Linked(w)
    ensures Linked(LastSteps(w, t))
  {
    hide Fits, Replay, LastSteps, Subscribers, Rooted, Ordered, EndTxns;
    LastStepsWired(w, t, busy);
    var l := Replay(NEW, w.log).value;
    if Unfinished(w.objs[t].mode) {
      ReplayLast(NEW, w.log, TxnAbort(t + 1));
      ChildlessInLedger(w, t, l);
      FitsWithout(w, LastSteps(w, t), t, l);
    } else {
      assert w.log + [] == w.log;
      FitsFinished(w, LastSteps(w, t), t, l);
    }
  }

  lemma ChildlessInLedger(w: World, t: nat, l: Ledger)
    requires Fits(l, w) && IsTxn(w.objs, t) && w.objs[t].handle != 0 && Unfinished(w.objs[t].mode) && Childless(w, t)
    ensures t + 1 in l.txns && !HasChild(l, t + 1)
  {
    assert Owes(w.objs, t + 1);
    forall c | c in l.txns ensures l.txns[c].parent != t + 1 {
      assert Owes(w.objs, c) && l.txns[c] == EntryOf(w.objs[c - 1]);
    }
  }

  /** Object `i` stands in the ledger as before, or is a transaction whose handle is in `hs` and does no longer. */
  predicate Kept(objs: seq<Obj>, objs': seq<Obj>, hs: set<nat>, i: nat)
    requires i < |objs| == |objs'|
  {
    && Owes(objs', i + 1) == (Owes(objs, i + 1) && i + 1 !in hs)
    && OwesCursor(objs', i + 1) == OwesCursor(objs, i + 1)
    && ParentHandle(objs'[i]) == ParentHandle(objs[i])
    && (i + 1 !in hs ==> EntryOf(objs'[i]) == EntryOf(objs[i]))
  }

  lemma FitsEnded(l: Ledger, w: World, r: World, hs: set<nat>)
    requires Fits(l, w) && |r.objs| == |w.objs| && r.env.handle == w.env.handle && r.env.isOpen == w.env.isOpen
    requires forall i :: 0 <= i < |w.objs| ==> Kept(w.objs, r.objs, hs, i)
    requires Freed(l, hs) == {}
    ensures Fits(EndTxns(l, hs), r)
  {
    hide EntryOf, ParentHandle, Freed;
    assert l.cursors - {} == l.cursors;
    forall h: nat | 1 <= h <= |w.objs|
      ensures Owes(r.objs, h) == (Owes(w.objs, h) && h !in hs) && OwesCursor(r.objs, h) == OwesCursor(w.objs, h)
      ensures ParentHandle(r.objs[h - 1]) == ParentHandle(w.objs[h - 1])
      ensures h !in hs ==> EntryOf(r.objs[h - 1]) == EntryOf(w.objs[h - 1])
    {
      assert Kept(w.objs, r.objs, hs, h - 1);
    }
  }

  lemma SameEntry(o: Obj, r: Obj)
    ensures Bare(o) == Bare(r) ==> EntryOf(o) == EntryOf(r) && ParentHandle(o) == ParentHandle(r)
  {
    assert EntryOf(Bare(o)) == EntryOf(o) && EntryOf(Bare(r)) == EntryOf(r);
    assert ParentHandle(Bare(o)) == ParentHandle(o) && ParentHandle(Bare(r)) == ParentHandle(r);
  }

  lemma DisposedKeeps(w: World, r: World, t: nat, hs: set<nat>)
    requires DisposedExactly(w, r, {t}) && IsTxn(w.objs, t)
    requires if Unfinished(w.objs[t].mode) then hs == {t + 1} else hs == {}
    ensures forall i :: 0 <= i < |w.objs| ==> Kept(w.objs, r.objs, hs, i)
  {
    forall i | 0 <= i < |w.objs| ensures Kept(w.objs, r.objs, hs, i) {
      SameEntry(w.objs[i], r.objs[i]);
      assert Bare(r.objs[i]) == if i == t then Gone(w.objs[i]) else Bare(w.objs[i]);
    }
  }

  /** A transaction without a live cursor frees none when it ends. */
  lemma FitsWithout(w: World, r: World, t: nat, l: Ledger)
    requires Fits(l, w) && DisposedExactly(w, r, {t}) && IsTxn(w.objs, t) && Unfinished(w.objs[t].mode)
      && Childless(w, t)
    ensures Fits(EndTxns(l, {t + 1}), r)
  {
    hide EntryOf, Kept, EndTxns;
    forall c | c in l.cursors ensures l.cursors[c] != t + 1 {
      assert OwesCursor(w.objs, c) && Owner(w.objs[c - 1]) == Some(w.objs[c - 1].txn);
    }
    assert Freed(l, {t + 1}) == {};
    DisposedKeeps(w, r, t, {t + 1});
    FitsEnded(l, w, r, {t + 1});
  }

  lemma FitsFinished(w: World, r: World, t: nat, l: Ledger)
    requires Fits(l, w) && DisposedExactly(w, r, {t}) && IsTxn(w.objs, t) && !Unfinished(w.objs[t].mode)
    ensures Fits(l, r)
  {
    hide Fits, EndTxns;
    DisposedKeeps(w, r, t, {});
    FitsEnded(l, w, r, {});
    EndNone(l);
  }

  // ---------- Dispose ----------

  /** The live objects at and under the members of `ts`. */
  function Subtrees(f: seq<Node>, ts: seq<nat>): set<nat> {
    set i | 0 <= i < |f| && f[i].live && Covers(f, ts, i)
  }

  lemma DisposedTwice(w: World, m: World, r: World, ts: seq<nat>)
    requires ts != []
    requires DisposedExactly(w, m, Subtree(Forest(w.objs), ts[0]))
    requires DisposedExactly(m, r, Subtrees(Forest(m.objs), ts[1..]))
    requires SameObjects(w, m)
    ensures DisposedExactly(w, r, Subtrees(Forest(w.objs), ts))
  {
    var f, f' := Forest(w.objs), Forest(m.objs);
    forall i | 0 <= i < |w.objs|
      ensures Bare(r.objs[i]) == if i in Subtrees(f, ts) then Gone(w.objs[i]) else Bare(w.objs[i])
    {
      assert Bare(m.objs[i]) == if i in Subtree(f, ts[0]) then Gone(w.objs[i]) else Bare(w.objs[i]);
      assert Bare(m.objs[i]).handle == m.objs[i].handle && Bare(w.objs[i]).handle == w.objs[i].handle;
      assert SameObject(w.objs[i], m.objs[i]);
      CoversCons(f, ts, i);
      CoversFrame(f, f', ts[1..], i);
    }
  }

  lemma CoversFrame(f: seq<Node>, f': seq<Node>, ts: seq<nat>, i: nat)
    requires |f| == |f'| && forall j :: 0 <= j < |f| ==> f[j].owner == f'[j].owner
    ensures Covers(f, ts, i) == Covers(f', ts, i)
  {
    forall k | 0 <= k < |ts| ensures Under(f, i, ts[k]) == Under(f', i, ts[k]) {
      UnderFrame(f, f', i, ts[k]);
    }
  }

  /** What `Dispose` and `DisposeEach` guarantee, `gone` being the objects they were to dispose. */
  ghost predicate Effect(w: World, r: World, busy: set<nat>, gone: set<nat>) {
    && Wired(r, busy)
    && DisposedExactly(w, r, gone)
    && (Linked(w) ==> Linked(r))
  }

  lemma {:induction false} DisposeEffect(w: World, t: nat, busy: set<nat>)
    requires Wired(w, busy) && t < |w.objs| && forall b :: b in busy ==> b < t
    ensures Effect(w, Dispose(w, t), busy, Subtree(Forest(w.objs), t))
    decreases |w.objs| - t, 0, 0
  {
    hide Linked, Subscribers, AfterSubscribers, LastSteps, Rooted, UnsubscribeCursor;
    var f := Forest(w.objs);
    assert WiredAt(w.objs, busy, t);
    if w.objs[t].handle == 0 {
      DeadSubtreeIsEmpty(f, t);
    } else if w.objs[t].Cursor? {
      CursorIsLeaf(f, t);
      DisposeCursorWired(w, t, busy);
      if Linked(w) {
        DisposeCursorLinked(w, t, busy);
      }
    } else {
      BelowEffect(w, t, busy);
      var m := AfterSubscribers(w, t);
      LastStepsWired(m, t, busy);
      if Linked(w) {
        LastStepsLinked(m, t, busy);
      }
      assert t in Subtree(f, t);
      DisposedThenLast(w, m, LastSteps(m, t), Subtree(f, t) - {t}, t);
      assert Subtree(f, t) - {t} + {t} == Subtree(f, t);
    }
  }

  /** `Dispose` of a transaction up to the point where all its subscribers are disposed. */
  function AfterSubscribers(w: World, t: nat): (r: World)
    requires Ordered(w) && IsTxn(w.objs, t)
    ensures Ordered(r) && SameObjects(w, r)
  {
    var w1 := UnsubscribeTxn(w, t);
    assert OrderedAt(w1.objs, t);
    DisposeEach(w1, w1.objs[t].disposing, t + 1)
  }

  lemma {:induction false} BelowEffect(w: World, t: nat, busy: set<nat>)
    requires Wired(w, busy) && IsTxn(w.objs, t) && w.objs[t].handle != 0 && forall b :: b in busy ==> b < t
    ensures Dispose(w, t) == LastSteps(AfterSubscribers(w, t), t)
    ensures Effect(w, AfterSubscribers(w, t), busy + {t}, Subtree(Forest(w.objs), t) - {t})
    ensures Childless(AfterSubscribers(w, t), t)
    ensures Bare(AfterSubscribers(w, t).objs[t]) == Bare(w.objs[t]) && AfterSubscribers(w, t).objs[t].handle != 0
    decreases |w.objs| - t - 1, 2, 0
  {
    hide Replay, Fits, Subscribers, Covers, UnsubscribeTxn, DisposeEach, AbortTxn, Rooted;
    var f := Forest(w.objs);
    UnsubscribeTxnWired(w, t, busy);
    var w1 := UnsubscribeTxn(w, t);
    ForestOfBare(w.objs, w1.objs);
    assert OrderedAt(w1.objs, t) && WiredAt(w1.objs, busy + {t}, t);
    var subs := w1.objs[t].disposing;
    DisposeEachEffect(w1, subs, t + 1, busy + {t});
    var w2 := DisposeEach(w1, subs, t + 1);
    forall i | 0 <= i < |f| && f[i].live ensures (i in Subtrees(f, subs)) == (Under(f, i, t) && i != t) {
      ChildrenCover(f, busy + {t}, t, i);
    }
    assert Subtrees(f, subs) == Subtree(f, t) - {t};
    if Linked(w) {
      FitsBare(Replay(NEW, w.log).value, w, w1);
    }
    DisposedFromBare(w, w1, w2, Subtree(f, t) - {t});
    ChildrenAreGone(w, w2, t, Subtree(f, t) - {t});
    assert Bare(w2.objs[t]) == Bare(w.objs[t]);
    assert Bare(w2.objs[t]).handle == w2.objs[t].handle && Bare(w.objs[t]).handle == w.objs[t].handle;
  }

  lemma DisposedFromBare(w: World, w1: World, w2: World, gone: set<nat>)
    requires DisposedExactly(w, w1, {}) && DisposedExactly(w1, w2, gone)
    ensures DisposedExactly(w, w2, gone)
  {
    forall i | 0 <= i < |w.objs|
      ensures Bare(w2.objs[i]) == if i in gone then Gone(w.objs[i]) else Bare(w.objs[i])
    {
      assert Bare(w1.objs[i]) == Bare(w.objs[i]);
      assert Gone(Bare(w1.objs[i])) == Gone(w1.objs[i]) && Gone(Bare(w.objs[i])) == Gone(w.objs[i]);
    }
  }

  lemma {:induction false} DisposeEachEffect(w: World, ts: seq<nat>, from: nat, busy: set<nat>)
    requires Wired(w, busy) && from <= |w.objs| && All(w.objs, ts, from) && forall b :: b in busy ==> b < from
    ensures Effect(w, DisposeEach(w, ts, from), busy, Subtrees(Forest(w.objs), ts))
    decreases |w.objs| - from, 1, |ts|
  {
    if ts == [] {
      assert Subtrees(Forest(w.objs), ts) == {};
    } else {
      DisposeEffect(w, ts[0], busy);
      var m := Dispose(w, ts[0]);
      DisposeEachEffect(m, ts[1..], from, busy);
      DisposedTwice(w, m, DisposeEach(m, ts[1..], from), ts);
    }
  }

  lemma DeadSubtreeIsEmpty(f: seq<Node>, t: nat)
    requires Rooted(f) && t < |f| && !f[t].live
    ensures Subtree(f, t) == {}
  {
    forall i | 0 <= i < |f| && f[i].live ensures !Under(f, i, t) {
      if Under(f, i, t) {
        LiveUnderLive(f, i, t);
      }
    }
  }

  lemma ChildrenAreGone(w: World, r: World, t: nat, below: set<nat>)
    requires |w.objs| == |r.objs| && Rooted(Forest(w.objs)) && SameObjects(w, r) && DisposedExactly(w, r, below)
    requires forall i :: 0 <= i < |w.objs| && w.objs[i].handle != 0 && Under(Forest(w.objs), i, t) && i != t ==>
               i in below
    ensures Childless(r, t)
  {
    var f := Forest(w.objs);
    forall i | 0 <= i < |r.objs| && Owner(r.objs[i]) == Some(t) ensures r.objs[i].handle == 0 {
      assert SameObject(w.objs[i], r.objs[i]);
      assert RootedAt(f, i);
      assert Under(f, i, t) && i != t;
      assert Bare(r.objs[i]) == if i in below then Gone(w.objs[i]) else Bare(w.objs[i]);
    }
  }

  lemma DisposedThenLast(w: World, m: World, r: World, below: set<nat>, t: nat)
    requires t !in below && DisposedExactly(w, m, below) && DisposedExactly(m, r, {t})
    ensures DisposedExactly(w, r, below + {t})
  {
    forall i | 0 <= i < |w.objs|
      ensures Bare(r.objs[i]) == if i in below + {t} then Gone(w.objs[i]) else Bare(w.objs[i])
    {
      assert Bare(m.objs[i]) == if i in below then Gone(w.objs[i]) else Bare(w.objs[i]);
      assert Gone(Bare(m.objs[i])) == Gone(m.objs[i]) && Gone(Bare(w.objs[i])) == Gone(w.objs[i]);
    }
  }
}
