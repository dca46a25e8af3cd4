/** What `Commit` and `Abort` do to a transaction and to everything begun under it. */
module AbortLaws {
  import opened Wrappers
  import opened Lifetimes
  import opened LifetimeForest
  import opened NativeLedger
  import opened DisposeLaws

  /** The live transactions at and under `t`. */
  function TxnSubtree(f: seq<Node>, t: nat): set<nat> {
    set i | 0 <= i < |f| && f[i].live && f[i].isTxn && Under(f, i, t)
  }

  function TxnSubtrees(f: seq<Node>, ts: seq<nat>): set<nat> {
    set i | 0 <= i < |f| && f[i].live && f[i].isTxn && Covers(f, ts, i)
  }

  function Aborts(ids: seq<nat>): seq<Call> {
    seq(|ids|, k requires 0 <= k < |ids| => TxnAbort(ids[k] + 1))
  }

  function WithMode(o: Obj, m: Mode): Obj
    requires o.Txn?
  {
    o.(mode := m)
  }

  /** `r` is `w` with the transactions of `ended` aborted, and `calls` made. */
  predicate AbortedExactly(w: World, r: World, ended: set<nat>, calls: seq<Call>) {
    && |r.objs| == |w.objs| && r.env == w.env && r.log == w.log + calls
    && (forall i :: 0 <= i < |w.objs| ==>
         r.objs[i] == if i in ended && w.objs[i].Txn? then WithMode(w.objs[i], Aborted) else w.objs[i])
  }

  lemma WiredModes(w: World, r: World, busy: set<nat>)
    requires Wired(w, busy) && Ordered(r) && |r.objs| == |w.objs| && r.env == w.env
    requires forall i :: 0 <= i < |w.objs| ==>
               || w.objs[i] == r.objs[i]
               || (w.objs[i].Txn? && r.objs[i].Txn? && r.objs[i] == WithMode(w.objs[i], r.objs[i].mode))
    ensures Wired(r, busy) && Forest(r.objs) == Forest(w.objs)
  {
    assert forall i :: 0 <= i < |w.objs| ==> Forest(r.objs)[i] == Forest(w.objs)[i];
    assert Forest(r.objs) == Forest(w.objs);
    forall i | 0 <= i < |w.objs| ensures WiredAt(r.objs, busy, i) {
      assert WiredAt(w.objs, busy, i);
    }
  }

  lemma TxnChildrenCover(f: seq<Node>, t: nat, i: nat)
    requires Rooted(f) && i < |f| && f[i].live && f[i].isTxn
    ensures Covers(f, Children(f, true, t), i) == (Under(f, i, t) && i != t)
  {
    var cs := Children(f, true, t);
    ChildrenAreYounger(f, true, t);
    if k :| 0 <= k < |cs| && Under(f, i, cs[k]) {
      assert IsChild(f, true, cs[k], t);
      UnderIsYounger(f, i, cs[k]);
      assert Under(f, cs[k], t);
      UnderTransitive(f, i, cs[k], t);
    }
    if Under(f, i, t) && i != t {
      var c := UnderViaChild(f, i, t);
      LiveUnderLive(f, i, c);
      var k := SubscribersComplete(f, {}, StateChangingOf(t), |f|, c);
    }
  }

  // ---------- the effect ----------

  lemma {:induction false} AbortEffect(w: World, t: nat)
    requires Wired(w, {}) && IsTxn(w.objs, t) && w.objs[t].handle != 0
    ensures AbortedExactly(w, AbortTxn(w, t), TxnSubtree(Forest(w.objs), t), Aborts(PostOrder(Forest(w.objs), true, t)))
    decreases |w.objs| - t, 0, 0
  {
    var f := Forest(w.objs);
    RaiseEffect(w, t, Aborted);
    assert WiredAt(w.objs, {}, t) && t in TxnSubtree(f, t);
    var w1 := SetMode(w, t, Aborted);
    AbortedThenCall(w, w1, AbortEach(w1, w1.objs[t].stateChanging, t + 1), TxnSubtree(f, t), t, Below(f, true, t));
  }

  lemma AbortedThenCall(w: World, w1: World, w2: World, ended: set<nat>, t: nat, below: seq<nat>)
    requires t in ended && IsTxn(w.objs, t) && w.objs[t].handle == t + 1
    requires w1 == SetMode(w, t, Aborted) && AbortedExactly(w1, w2, ended - {t}, Aborts(below))
    ensures AbortedExactly(w, Logged(w2, TxnAbort(w2.objs[t].handle)), ended, Aborts(below + [t]))
  {
    assert Aborts(below + [t]) == Aborts(below) + [TxnAbort(t + 1)];
    assert w2.objs[t] == w1.objs[t];
    assert w2.log + [TxnAbort(t + 1)] == w.log + Aborts(below + [t]);
  }

  /** The part that `Commit` and `Abort` share: the new state, announced to the subscribers. */
  lemma {:induction false} RaiseEffect(w: World, t: nat, m: Mode)
    requires Wired(w, {}) && IsTxn(w.objs, t) && w.objs[t].handle != 0
    ensures Ordered(SetMode(w, t, m)) && AllTxns(w.objs, w.objs[t].stateChanging, t + 1)
    ensures var f := Forest(w.objs);
      AbortedExactly(SetMode(w, t, m), AbortEach(SetMode(w, t, m), w.objs[t].stateChanging, t + 1),
                     TxnSubtree(f, t) - {t}, Aborts(Below(f, true, t)))
    decreases |w.objs| - t - 1, 2, 0
  {
    var f := Forest(w.objs);
    assert OrderedAt(w.objs, t) && WiredAt(w.objs, {}, t);
    OrderedUpdate(w, t, w.objs[t].(mode := m));
    var w1 := SetMode(w, t, m);
    WiredModes(w, w1, {});
    ChildrenAreYounger(f, true, t);
    assert w.objs[t].stateChanging == Children(f, true, t);
    AbortEachEffect(w1, Children(f, true, t), t + 1);
    StrictTxnSubtree(f, t);
  }

  lemma StrictTxnSubtree(f: seq<Node>, t: nat)
    requires Rooted(f)
    ensures TxnSubtrees(f, Children(f, true, t)) == TxnSubtree(f, t) - {t}
  {
    forall i | 0 <= i < |f| && f[i].live && f[i].isTxn
      ensures Covers(f, Children(f, true, t), i) == (Under(f, i, t) && i != t)
    {
      TxnChildrenCover(f, t, i);
    }
  }

  lemma {:induction false} AbortEachEffect(w: World, ts: seq<nat>, from: nat)
    requires Wired(w, {}) && from <= |w.objs| && AllTxns(w.objs, ts, from)
    requires forall k :: 0 <= k < |ts| ==> w.objs[ts[k]].handle != 0
    ensures AbortedExactly(w, AbortEach(w, ts, from), TxnSubtrees(Forest(w.objs), ts),
                           Aborts(PostOrderEach(Forest(w.objs), true, ts, from)))
    decreases |w.objs| - from, 1, |ts|
  {
    var f := Forest(w.objs);
    if ts == [] {
      assert TxnSubtrees(f, ts) == {};
    } else {
      AbortEffect(w, ts[0]);
      var m := AbortTxn(w, ts[0]);
      WiredModes(w, m, {});
      AbortEachEffect(m, ts[1..], from);
      TxnSubtreesCons(f, ts);
      AbortedTwice(w, m, AbortEach(m, ts[1..], from), TxnSubtree(f, ts[0]), TxnSubtrees(f, ts[1..]),
                   PostOrder(f, true, ts[0]), PostOrderEach(f, true, ts[1..], from));
    }
  }

  lemma AbortedTwice(w: World, m: World, r: World, first: set<nat>, rest: set<nat>, a: seq<nat>, b: seq<nat>)
    requires AbortedExactly(w, m, first, Aborts(a)) && AbortedExactly(m, r, rest, Aborts(b))
    ensures AbortedExactly(w, r, first + rest, Aborts(a + b))
  {
    assert Aborts(a + b) == Aborts(a) + Aborts(b);
    assert r.log == w.log + Aborts(a + b);
    forall i | 0 <= i < |w.objs|
      ensures r.objs[i] == if i in first + rest && w.objs[i].Txn? then WithMode(w.objs[i], Aborted) else w.objs[i]
    {
      assert m.objs[i] == if i in first && w.objs[i].Txn? then WithMode(w.objs[i], Aborted) else w.objs[i];
    }
  }

  lemma TxnSubtreesCons(f: seq<Node>, ts: seq<nat>)
    requires ts != []
    ensures TxnSubtrees(f, ts) == TxnSubtree(f, ts[0]) + TxnSubtrees(f, ts[1..])
  {
    forall i | 0 <= i < |f| ensures Covers(f, ts, i) == (Under(f, i, ts[0]) || Covers(f, ts[1..], i)) {
      CoversCons(f, ts, i);
    }
  }

  // ---------- the ledger ----------

  function Handles(ids: set<nat>): (hs: set<nat>)
    ensures forall h: nat :: h in hs <==> h >= 1 && h - 1 in ids
  {
    set i | i in ids :: i + 1
  }

  function NodeParent(n: Node): nat {
    match n.owner
    case None => 0
    case Some(p) => p + 1
  }

  ghost predicate Over(l: Ledger, f: seq<Node>) {
    forall h: nat :: h in l.txns ==>
      1 <= h <= |f| && f[h - 1].live && f[h - 1].isTxn && l.txns[h].parent == NodeParent(f[h - 1])
  }

  lemma {:induction false} ReplayPostOrder(l: Ledger, f: seq<Node>, t: nat)
    requires Rooted(f) && t < |f| && f[t].live && f[t].isTxn && Over(l, f)
    requires Handles(TxnSubtree(f, t)) <= l.txns.Keys
    ensures Replay(l, Aborts(PostOrder(f, true, t))) == Some(EndTxns(l, Handles(TxnSubtree(f, t))))
    decreases |f| - t, 0, 0
  {
    hide Rooted, Replay, Below, Over, EndTxns;
    ReplayBelow(l, f, t);
    var below := Below(f, true, t);
    assert Aborts(below + [t]) == Aborts(below) + [TxnAbort(t + 1)];
    ReplayLast(l, Aborts(below), TxnAbort(t + 1));
    assert t in TxnSubtree(f, t);
    assert Handles(TxnSubtree(f, t) - {t}) + {t + 1} == Handles(TxnSubtree(f, t));
    EndTwice(l, Handles(TxnSubtree(f, t) - {t}), {t + 1});
  }

  /** After everything strictly under `t` is aborted, `t` is next, and nothing in the ledger is under it. */
  lemma {:induction false} ReplayBelow(l: Ledger, f: seq<Node>, t: nat)
    requires Rooted(f) && t < |f| && f[t].live && f[t].isTxn && Over(l, f)
    requires Handles(TxnSubtree(f, t)) <= l.txns.Keys
    ensures var l' := EndTxns(l, Handles(TxnSubtree(f, t) - {t}));
      && Replay(l, Aborts(Below(f, true, t))) == Some(l')
      && t + 1 in l'.txns && !HasChild(l', t + 1)
    decreases |f| - t - 1, 2, 0
  {
    hide Replay, Children, PostOrderEach, EndTxns;
    ChildrenAreYounger(f, true, t);
    var cs := Children(f, true, t);
    forall k | 0 <= k < |cs| ensures f[cs[k]].owner == Some(t) && f[cs[k]].live && f[cs[k]].isTxn {
      assert IsChild(f, true, cs[k], t);
    }
    StrictTxnSubtree(f, t);
    ReplayPostOrderEach(l, f, cs, t + 1, t);
    ChildlessAfter(l, f, t);
  }

  lemma ChildlessAfter(l: Ledger, f: seq<Node>, t: nat)
    requires Rooted(f) && t < |f| && f[t].live && f[t].isTxn && Over(l, f)
    requires Handles(TxnSubtree(f, t)) <= l.txns.Keys
    ensures var l' := EndTxns(l, Handles(TxnSubtree(f, t) - {t})); t + 1 in l'.txns && !HasChild(l', t + 1)
  {
    assert t in TxnSubtree(f, t);
    var l' := EndTxns(l, Handles(TxnSubtree(f, t) - {t}));
    forall c | c in l'.txns ensures l'.txns[c].parent != t + 1 {
      assert c in l.txns;
      assert RootedAt(f, c - 1);
      assert f[c - 1].owner == Some(t) ==> Under(f, c - 1, t);
    }
  }

  lemma {:induction false} ReplayPostOrderEach(l: Ledger, f: seq<Node>, ts: seq<nat>, from: nat, p: nat)
    requires Rooted(f) && from <= |f| && Increasing(ts) && Over(l, f)
    requires forall k :: 0 <= k < |ts| ==>
               from <= ts[k] < |f| && f[ts[k]].live && f[ts[k]].isTxn && f[ts[k]].owner == Some(p)
    requires Handles(TxnSubtrees(f, ts)) <= l.txns.Keys
    ensures Replay(l, Aborts(PostOrderEach(f, true, ts, from))) == Some(EndTxns(l, Handles(TxnSubtrees(f, ts))))
    decreases |f| - from, 1, |ts|
  {
    hide Rooted, Replay, EndTxns;
    if ts == [] {
      NothingToReplay(l, f, from);
    } else {
      var s, rest := ts[0], ts[1..];
      RestStaysInLedger(l, f, ts, p);
      ReplayPostOrder(l, f, s);
      var l' := EndTxns(l, Handles(TxnSubtree(f, s)));
      OverEnded(l, f, Handles(TxnSubtree(f, s)));
      ReplayPostOrderEach(l', f, rest, from, p);
      EndTwice(l, Handles(TxnSubtree(f, s)), Handles(TxnSubtrees(f, rest)));
      ReplayTwice(l, l', EndTxns(l', Handles(TxnSubtrees(f, rest))), PostOrder(f, true, s),
        PostOrderEach(f, true, rest, from));
    }
  }

  lemma NothingToReplay(l: Ledger, f: seq<Node>, from: nat)
    requires Rooted(f) && from <= |f|
    ensures Replay(l, Aborts(PostOrderEach(f, true, [], from))) == Some(EndTxns(l, Handles(TxnSubtrees(f, []))))
  {
    assert TxnSubtrees(f, []) == {} && Handles({}) == {};
    assert PostOrderEach(f, true, [], from) == [] && Aborts([]) == [];
    EndNone(l);
  }

  lemma OverEnded(l: Ledger, f: seq<Node>, hs: set<nat>)
    requires Over(l, f)
    ensures Over(EndTxns(l, hs), f)
  {
  }

  lemma ReplayTwice(l: Ledger, l': Ledger, l'': Ledger, a: seq<nat>, b: seq<nat>)
    requires Replay(l, Aborts(a)) == Some(l') && Replay(l', Aborts(b)) == Some(l'')
    ensures Replay(l, Aborts(a + b)) == Some(l'')
  {
    hide Replay;
    assert Aborts(a + b) == Aborts(a) + Aborts(b);
    ReplayAppend(l, Aborts(a), Aborts(b));
  }

  lemma RestStaysInLedger(l: Ledger, f: seq<Node>, ts: seq<nat>, p: nat)
    requires Rooted(f) && Increasing(ts) && ts != []
    requires forall k :: 0 <= k < |ts| ==> ts[k] < |f| && f[ts[k]].owner == Some(p)
    requires Handles(TxnSubtrees(f, ts)) <= l.txns.Keys
    ensures Handles(TxnSubtree(f, ts[0])) <= l.txns.Keys
    ensures Handles(TxnSubtrees(f, ts[1..])) <= EndTxns(l, Handles(TxnSubtree(f, ts[0]))).txns.Keys
    ensures Handles(TxnSubtree(f, ts[0])) + Handles(TxnSubtrees(f, ts[1..])) == Handles(TxnSubtrees(f, ts))
  {
    var s, rest := ts[0], ts[1..];
    TxnSubtreesCons(f, ts);
    forall i | i in TxnSubtrees(f, rest) ensures i !in TxnSubtree(f, s) {
      var k :| 0 <= k < |rest| && Under(f, i, rest[k]);
      assert rest[k] == ts[k + 1];
      if Under(f, i, s) {
        SiblingsAreDisjoint(f, i, s, rest[k], p);
      }
    }
    assert Handles(TxnSubtrees(f, ts)) == Handles(TxnSubtree(f, s)) + Handles(TxnSubtrees(f, rest));
  }
}
