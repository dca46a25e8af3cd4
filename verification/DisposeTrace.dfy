/** The native calls made by `Dispose` of a transaction, and their order. */
module DisposeTrace {
  import opened Wrappers
  import opened Lifetimes
  import opened LifetimeForest
  import opened DisposeLaws

  /** The native call that releases object `i`: none for a transaction already finished. */
  function ReleaseOf(objs: seq<Obj>, i: nat): seq<Call> {
    if i < |objs| && objs[i].Cursor? then [CursorClose(i + 1)]
    else if IsTxn(objs, i) && Unfinished(objs[i].mode) then [TxnAbort(i + 1)]
    else []
  }

  function Releases(objs: seq<Obj>, ids: seq<nat>): seq<Call> {
    if ids == [] then [] else ReleaseOf(objs, ids[0]) + Releases(objs, ids[1..])
  }

  lemma {:induction false} ReleasesAppend(objs: seq<Obj>, a: seq<nat>, b: seq<nat>)
    ensures Releases(objs, a + b) == Releases(objs, a) + Releases(objs, b)
    decreases |a|
  {
    if a == [] {
      assert a + b == b;
    } else {
      ReleasesAppend(objs, a[1..], b);
      assert (a + b)[1..] == a[1..] + b;
    }
  }

  lemma {:induction false} ReleasesFrame(objs: seq<Obj>, objs': seq<Obj>, ids: seq<nat>)
    requires |objs| == |objs'|
    requires forall k :: 0 <= k < |ids| ==> ids[k] < |objs| && Bare(objs[ids[k]]) == Bare(objs'[ids[k]])
    ensures Releases(objs, ids) == Releases(objs', ids)
    decreases |ids|
  {
    if ids != [] {
      assert Bare(objs[ids[0]]) == Bare(objs'[ids[0]]);
      ReleasesFrame(objs, objs', ids[1..]);
    }
  }

  // ---------- the post-order holds the subtree, and depends on nothing else ----------

  lemma {:induction false} PostOrderWithin(f: seq<Node>, t: nat)
    requires Rooted(f) && t < |f| && f[t].live
    ensures forall k :: 0 <= k < |PostOrder(f, false, t)| ==> PostOrder(f, false, t)[k] in Subtree(f, t)
    ensures forall k :: 0 <= k < |Below(f, false, t)| ==> Below(f, false, t)[k] in Subtree(f, t)
    decreases |f| - t, 0, 0
  {
    var cs := Children(f, false, t);
    ChildrenAreYounger(f, false, t);
    PostOrderEachWithin(f, cs, t + 1);
    forall i | i in Subtrees(f, cs) ensures i in Subtree(f, t) {
      ChildrenCover(f, {}, t, i);
    }
    assert t in Subtree(f, t);
    assert PostOrder(f, false, t) == Below(f, false, t) + [t];
  }

  lemma {:induction false} PostOrderEachWithin(f: seq<Node>, ts: seq<nat>, from: nat)
    requires Rooted(f) && from <= |f| && forall k :: 0 <= k < |ts| ==> from <= ts[k] < |f| && f[ts[k]].live
    ensures forall k :: 0 <= k < |PostOrderEach(f, false, ts, from)| ==>
              PostOrderEach(f, false, ts, from)[k] in Subtrees(f, ts)
    decreases |f| - from, 1, |ts|
  {
    if ts != [] {
      PostOrderWithin(f, ts[0]);
      PostOrderEachWithin(f, ts[1..], from);
      forall i | 0 <= i < |f| ensures Covers(f, ts, i) == (Under(f, i, ts[0]) || Covers(f, ts[1..], i)) {
        CoversCons(f, ts, i);
      }
    }
  }

  predicate Alike(f: seq<Node>, f': seq<Node>) {
    |f| == |f'| && forall i :: 0 <= i < |f| ==> f[i].owner == f'[i].owner && f[i].isTxn == f'[i].isTxn
  }

  lemma {:induction false} PostOrderFrame(f: seq<Node>, f': seq<Node>, t: nat)
    requires Rooted(f) && Rooted(f') && Alike(f, f') && t < |f|
    requires forall i :: 0 <= i < |f| && Under(f, i, t) ==> f[i].live == f'[i].live
    ensures PostOrder(f, false, t) == PostOrder(f', false, t)
    decreases |f| - t, 0, 0
  {
    forall i | 0 <= i < |f| ensures Heard(f', {}, DisposingOf(t), i) == Heard(f, {}, DisposingOf(t), i) {
      assert RootedAt(f, i);
      assert f[i].owner == Some(t) ==> Under(f, i, t);
    }
    SubscribersFrame(f, {}, f', {}, DisposingOf(t), |f|);
    ChildrenAreYounger(f, false, t);
    var cs := Children(f, false, t);
    forall i, k | 0 <= k < |cs| && 0 <= i < |f| && Under(f, i, cs[k]) ensures Under(f, i, t) {
      assert IsChild(f, false, cs[k], t);
      assert Under(f, cs[k], t);
      UnderTransitive(f, i, cs[k], t);
    }
    PostOrderEachFrame(f, f', cs, t + 1);
  }

  lemma {:induction false} PostOrderEachFrame(f: seq<Node>, f': seq<Node>, ts: seq<nat>, from: nat)
    requires Rooted(f) && Rooted(f') && Alike(f, f') && from <= |f|
    requires forall k :: 0 <= k < |ts| ==> from <= ts[k] < |f|
    requires forall i, k :: 0 <= k < |ts| && 0 <= i < |f| && Under(f, i, ts[k]) ==> f[i].live == f'[i].live
    ensures PostOrderEach(f, false, ts, from) == PostOrderEach(f', false, ts, from)
    decreases |f| - from, 1, |ts|
  {
    if ts != [] {
      PostOrderFrame(f, f', ts[0]);
      forall i, k | 0 <= k < |ts[1..]| && 0 <= i < |f| && Under(f, i, ts[1..][k]) ensures f[i].live == f'[i].live {
        assert ts[1..][k] == ts[k + 1];
      }
      PostOrderEachFrame(f, f', ts[1..], from);
    }
  }

  // ---------- the trace ----------

  /** `Dispose` releases the live objects at and under `t`, each once, in post-order. */
  lemma {:induction false} DisposeCalls(w: World, t: nat, busy: set<nat>)
    requires Wired(w, busy) && t < |w.objs| && w.objs[t].handle != 0 && forall b :: b in busy ==> b < t
    ensures Dispose(w, t).log == w.log + Releases(w.objs, PostOrder(Forest(w.objs), false, t))
    decreases |w.objs| - t, 0, 0
  {
    hide Subscribers, AfterSubscribers, Below, Dispose, LastSteps, Rooted, UnsubscribeCursor;
    var f := Forest(w.objs);
    assert WiredAt(w.objs, busy, t);
    if w.objs[t].Cursor? {
      DisposeCursorWired(w, t, busy);
      NoChildren(f, t);
    } else {
      BelowCalls(w, t, busy);
      BelowEffect(w, t, busy);
      var m := AfterSubscribers(w, t);
      LastStepsWired(m, t, busy);
      assert Bare(m.objs[t]) == Bare(w.objs[t]);
      ReleasesLast(w.objs, Below(f, false, t), t);
    }
  }

  lemma ReleasesLast(objs: seq<Obj>, ids: seq<nat>, t: nat)
    ensures Releases(objs, ids + [t]) == Releases(objs, ids) + ReleaseOf(objs, t)
  {
    ReleasesAppend(objs, ids, [t]);
    assert [t][1..] == [];
  }

  lemma {:induction false} BelowCalls(w: World, t: nat, busy: set<nat>)
    requires Wired(w, busy) && IsTxn(w.objs, t) && w.objs[t].handle != 0 && forall b :: b in busy ==> b < t
    ensures AfterSubscribers(w, t).log == w.log + Releases(w.objs, Below(Forest(w.objs), false, t))
    decreases |w.objs| - t - 1, 2, 0
  {
    hide Subscribers, UnsubscribeTxn, DisposeEach, Releases, PostOrderEach;
    var f := Forest(w.objs);
    UnsubscribeTxnWired(w, t, busy);
    var w1 := UnsubscribeTxn(w, t);
    ForestOfBare(w.objs, w1.objs);
    assert OrderedAt(w1.objs, t) && WiredAt(w1.objs, busy + {t}, t);
    SubscribersAreChildren(f, busy + {t}, t);
    var cs := Children(f, false, t);
    ChildrenAreYounger(f, false, t);
    forall k | 0 <= k < |cs| ensures w1.objs[cs[k]].handle != 0 && Owner(w1.objs[cs[k]]) == Some(t) {
      assert IsChild(f, false, cs[k], t);
      assert Forest(w1.objs)[cs[k]] == NodeOf(w1.objs[cs[k]]);
    }
    DisposeEachCalls(w1, cs, t + 1, busy + {t}, t);
    PostOrderWithin(f, t);
    ReleasesFrame(w.objs, w1.objs, Below(f, false, t));
  }

  lemma SubscribersAreChildren(f: seq<Node>, busy: set<nat>, t: nat)
    requires Rooted(f) && forall b :: b in busy ==> b <= t
    ensures Subscribers(f, busy, DisposingOf(t), |f|) == Children(f, false, t)
  {
    forall i | 0 <= i < |f| ensures Heard(f, busy, DisposingOf(t), i) == Heard(f, {}, DisposingOf(t), i) {
      assert RootedAt(f, i);
    }
    SubscribersFrame(f, {}, f, busy, DisposingOf(t), |f|);
  }

  lemma {:induction false} DisposeEachCalls(w: World, ts: seq<nat>, from: nat, busy: set<nat>, p: nat)
    requires Wired(w, busy) && from <= |w.objs| && All(w.objs, ts, from) && forall b :: b in busy ==> b < from
    requires Increasing(ts)
    requires forall k :: 0 <= k < |ts| ==> w.objs[ts[k]].handle != 0 && Owner(w.objs[ts[k]]) == Some(p)
    ensures DisposeEach(w, ts, from).log == w.log + Releases(w.objs, PostOrderEach(Forest(w.objs), false, ts, from))
    decreases |w.objs| - from, 1, |ts|
  {
    if ts == [] {
      NothingDisposed(w, ts, from);
    } else {
      FirstDisposed(w, ts, from, busy, p);
      DisposeCalls(w, ts[0], busy);
      DisposeEachCalls(Dispose(w, ts[0]), ts[1..], from, busy, p);
      CallsCons(w, ts, from);
    }
  }

  lemma NothingDisposed(w: World, ts: seq<nat>, from: nat)
    requires Ordered(w) && Rooted(Forest(w.objs)) && from <= |w.objs| && ts == []
    ensures DisposeEach(w, ts, from).log == w.log + Releases(w.objs, PostOrderEach(Forest(w.objs), false, ts, from))
  {
    assert PostOrderEach(Forest(w.objs), false, ts, from) == [];
  }

  lemma CallsCons(w: World, ts: seq<nat>, from: nat)
    requires Ordered(w) && Rooted(Forest(w.objs)) && from <= |w.objs| && All(w.objs, ts, from) && ts != []
    requires Dispose(w, ts[0]).log == w.log + Releases(w.objs, PostOrder(Forest(w.objs), false, ts[0]))
    requires DisposeEach(Dispose(w, ts[0]), ts[1..], from).log
          == Dispose(w, ts[0]).log + Releases(w.objs, PostOrderEach(Forest(w.objs), false, ts[1..], from))
    ensures DisposeEach(w, ts, from).log == w.log + Releases(w.objs, PostOrderEach(Forest(w.objs), false, ts, from))
  {
    DisposeEachCons(w, ts, from);
    PostOrderEachCons(Forest(w.objs), ts, from);
    ReleasesAfter(w.objs, w.log, PostOrder(Forest(w.objs), false, ts[0]),
      PostOrderEach(Forest(w.objs), false, ts[1..], from));
  }

  lemma DisposeEachCons(w: World, ts: seq<nat>, from: nat)
    requires Ordered(w) && from <= |w.objs| && All(w.objs, ts, from) && ts != []
    ensures DisposeEach(w, ts, from) == DisposeEach(Dispose(w, ts[0]), ts[1..], from)
  {
  }

  lemma PostOrderEachCons(f: seq<Node>, ts: seq<nat>, from: nat)
    requires Rooted(f) && from <= |f| && ts != [] && forall k :: 0 <= k < |ts| ==> from <= ts[k] < |f|
    ensures PostOrderEach(f, false, ts, from) == PostOrder(f, false, ts[0]) + PostOrderEach(f, false, ts[1..], from)
  {
  }

  lemma ReleasesAfter(objs: seq<Obj>, log: seq<Call>, a: seq<nat>, b: seq<nat>)
    ensures log + Releases(objs, a) + Releases(objs, b) == log + Releases(objs, a + b)
  {
    ReleasesAppend(objs, a, b);
  }

  lemma FirstDisposed(w: World, ts: seq<nat>, from: nat, busy: set<nat>, p: nat)
    requires Wired(w, busy) && from <= |w.objs| && All(w.objs, ts, from) && forall b :: b in busy ==> b < from
    requires Increasing(ts) && ts != []
    requires forall k :: 0 <= k < |ts| ==> w.objs[ts[k]].handle != 0 && Owner(w.objs[ts[k]]) == Some(p)
    ensures var m := Dispose(w, ts[0]);
      && Wired(m, busy) && All(m.objs, ts[1..], from) && Increasing(ts[1..])
      && (forall k :: 0 <= k < |ts[1..]| ==> m.objs[ts[1..][k]].handle != 0 && Owner(m.objs[ts[1..][k]]) == Some(p))
      && Releases(m.objs, PostOrderEach(Forest(m.objs), false, ts[1..], from))
           == Releases(w.objs, PostOrderEach(Forest(w.objs), false, ts[1..], from))
  {
    var m := Dispose(w, ts[0]);
    DisposeEffect(w, ts[0], busy);
    SiblingsAreSpared(w, m, ts, p);
    RestIsSpared(w, m, ts[1..], from);
  }

  /** The disposal of `ts[0]` leaves its younger siblings, and what is under them, as they are. */
  predicate Spared(w: World, m: World, rest: seq<nat>) {
    |m.objs| == |w.objs| &&
    forall i, k :: 0 <= k < |rest| && 0 <= i < |w.objs| && Under(Forest(w.objs), i, rest[k]) ==>
      Bare(m.objs[i]) == Bare(w.objs[i]) && m.objs[i].handle == w.objs[i].handle && Owner(m.objs[i]) == Owner(w.objs[i])
  }

  lemma SiblingsAreSpared(w: World, m: World, ts: seq<nat>, p: nat)
    requires Rooted(Forest(w.objs)) && ts != [] && Increasing(ts)
      && DisposedExactly(w, m, Subtree(Forest(w.objs), ts[0]))
    requires forall k :: 0 <= k < |ts| ==>
               ts[k] < |w.objs| && w.objs[ts[k]].handle != 0 && Owner(w.objs[ts[k]]) == Some(p)
    ensures Spared(w, m, ts[1..])
    ensures forall k :: 0 <= k < |ts[1..]| ==> m.objs[ts[1..][k]].handle != 0 && Owner(m.objs[ts[1..][k]]) == Some(p)
  {
    var f := Forest(w.objs);
    var rest := ts[1..];
    forall i, k | 0 <= k < |rest| && 0 <= i < |w.objs| && Under(f, i, rest[k])
      ensures Bare(m.objs[i]) == Bare(w.objs[i]) && m.objs[i].handle == w.objs[i].handle
        && Owner(m.objs[i]) == Owner(w.objs[i])
    {
      assert rest[k] == ts[k + 1];
      if Under(f, i, ts[0]) {
        SiblingsAreDisjoint(f, i, ts[0], rest[k], p);
      }
      assert Bare(m.objs[i]) == Bare(w.objs[i]);
      assert Bare(m.objs[i]).handle == m.objs[i].handle && Bare(w.objs[i]).handle == w.objs[i].handle;
    }
    forall k | 0 <= k < |rest| ensures m.objs[rest[k]].handle != 0 && Owner(m.objs[rest[k]]) == Some(p) {
      assert rest[k] == ts[k + 1] && Under(f, rest[k], rest[k]);
    }
  }

  lemma RestIsSpared(w: World, m: World, rest: seq<nat>, from: nat)
    requires Rooted(Forest(w.objs)) && from <= |w.objs| && All(w.objs, rest, from) && Spared(w, m, rest)
    requires forall k :: 0 <= k < |rest| ==> w.objs[rest[k]].handle != 0
    requires Rooted(Forest(m.objs)) && SameObjects(w, m)
    ensures Releases(m.objs, PostOrderEach(Forest(m.objs), false, rest, from))
         == Releases(w.objs, PostOrderEach(Forest(w.objs), false, rest, from))
  {
    var f, f' := Forest(w.objs), Forest(m.objs);
    forall i | 0 <= i < |f| ensures f[i].owner == f'[i].owner && f[i].isTxn == f'[i].isTxn {
      assert SameObject(w.objs[i], m.objs[i]);
    }
    PostOrderEachFrame(f, f', rest, from);
    PostOrderEachWithin(f, rest, from);
    var ids := PostOrderEach(f, false, rest, from);
    forall j | 0 <= j < |ids| ensures ids[j] < |w.objs| && Bare(w.objs[ids[j]]) == Bare(m.objs[ids[j]]) {
      assert ids[j] in Subtrees(f, rest);
      var k :| 0 <= k < |rest| && Under(f, ids[j], rest[k]);
    }
    ReleasesFrame(w.objs, m.objs, ids);
  }

  lemma NoChildren(f: seq<Node>, c: nat)
    requires Rooted(f) && c < |f| && !f[c].isTxn
    ensures PostOrder(f, false, c) == [c]
  {
    forall i | 0 <= i < |f| ensures !Heard(f, {}, DisposingOf(c), i) {
      assert RootedAt(f, i);
    }
    SubscribersNone(f, {}, DisposingOf(c), |f|);
    assert Children(f, false, c) == [];
    assert Below(f, false, c) == [];
  }
}
