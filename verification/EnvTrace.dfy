/** The native calls made by disposing the environment, whose event holds nested transactions beside their parents. */
module EnvTrace {
  import opened Wrappers
  import opened Lifetimes
  import opened LifetimeForest
  import opened DisposeLaws
  import opened DisposeTrace

  predicate IsRoot(f: seq<Node>, i: nat) {
    i < |f| && f[i].live && f[i].isTxn && f[i].owner.None?
  }

  /** The live transactions below `n` that have no parent, in the order of their creation. */
  function Roots(f: seq<Node>, n: nat): (ts: seq<nat>)
    ensures forall k :: 0 <= k < |ts| ==> ts[k] < |f|
  {
    if n == 0 then [] else Roots(f, n - 1) + (if IsRoot(f, n - 1) then [n - 1] else [])
  }

  function RootsAmong(f: seq<Node>, ts: seq<nat>): (r: seq<nat>)
    ensures forall k :: 0 <= k < |r| ==> IsRoot(f, r[k]) && r[k] in ts
  {
    if ts == [] then [] else (if IsRoot(f, ts[0]) then [ts[0]] else []) + RootsAmong(f, ts[1..])
  }

  lemma {:induction false} RootsAmongAppend(f: seq<Node>, ts: seq<nat>, t: nat)
    ensures RootsAmong(f, ts + [t]) == RootsAmong(f, ts) + (if IsRoot(f, t) then [t] else [])
  {
    if ts == [] {
      assert [t][1..] == [] && RootsAmong(f, []) == [];
    } else {
      assert (ts + [t])[1..] == ts[1..] + [t];
      RootsAmongAppend(f, ts[1..], t);
    }
  }

  lemma {:induction false} RootsAmongSubscribers(f: seq<Node>, n: nat)
    ensures RootsAmong(f, Subscribers(f, {}, OfEnv, n)) == Roots(f, n)
  {
    hide RootsAmong;
    if n == 0 {
      NoRoots(f);
    } else {
      var s := Subscribers(f, {}, OfEnv, n - 1);
      RootsAmongSubscribers(f, n - 1);
      RootsAmongAppend(f, s, n - 1);
      if !Heard(f, {}, OfEnv, n - 1) {
        assert s + [] == s && !IsRoot(f, n - 1);
      }
    }
  }

  lemma {:induction false} RootsAreDisjoint(f: seq<Node>, i: nat, a: nat, b: nat)
    requires IsRoot(f, a) && IsRoot(f, b) && Under(f, i, a) && Under(f, i, b)
    ensures a == b
    decreases i
  {
    if i != a && i != b {
      RootsAreDisjoint(f, f[i].owner.value, a, b);
    }
  }

  /** Every live transaction is among `ts`. */
  predicate HoldsLive(f: seq<Node>, ts: seq<nat>) {
    forall i :: 0 <= i < |f| && f[i].live && f[i].isTxn ==> i in ts
  }

  predicate AllOfThemTxns(objs: seq<Obj>, ts: seq<nat>) {
    forall k :: 0 <= k < |ts| ==> IsTxn(objs, ts[k])
  }

  /** The oldest transaction that is not disposed yet has no parent: that would be older, and not disposed either. */
  lemma HeadIsRoot(f: seq<Node>, ts: seq<nat>)
    requires Rooted(f) && Increasing(ts) && ts != [] && HoldsLive(f, ts)
    requires ts[0] < |f| && f[ts[0]].live && f[ts[0]].isTxn
    ensures IsRoot(f, ts[0])
  {
    assert RootedAt(f, ts[0]);
    forall p: nat | p < ts[0] ensures p !in ts {
    }
  }

  lemma HeadIsGone(w: World, ts: seq<nat>)
    requires Ordered(w) && AllOfThemTxns(w.objs, ts) && HoldsLive(Forest(w.objs), ts)
    requires ts != [] && w.objs[ts[0]].handle == 0
    ensures Dispose(w, ts[0]) == w && HoldsLive(Forest(w.objs), ts[1..])
    ensures RootsAmong(Forest(w.objs), ts) == RootsAmong(Forest(w.objs), ts[1..])
  {
    var f := Forest(w.objs);
    assert !f[ts[0]].live;
  }

  /** The disposal of a root leaves the other roots, and what is under them, as they are. */
  lemma RootDisposed(w: World, ts: seq<nat>)
    requires Wired(w, {}) && Increasing(ts) && AllOfThemTxns(w.objs, ts) && HoldsLive(Forest(w.objs), ts)
    requires ts != [] && IsRoot(Forest(w.objs), ts[0])
    ensures var f, m, rest := Forest(w.objs), Dispose(w, ts[0]), ts[1..];
      && Wired(m, {}) && Increasing(rest) && AllOfThemTxns(m.objs, rest) && HoldsLive(Forest(m.objs), rest)
      && RootsAmong(Forest(m.objs), rest) == RootsAmong(f, rest)
      && Releases(m.objs, PostOrderEach(Forest(m.objs), false, RootsAmong(f, rest), 0))
           == Releases(w.objs, PostOrderEach(f, false, RootsAmong(f, rest), 0))
  {
    hide Dispose, Releases, PostOrderEach, Subscribers, Linked;
    var f, m, rest := Forest(w.objs), Dispose(w, ts[0]), ts[1..];
    DisposeEffect(w, ts[0], {});
    RestHoldsLive(w, m, ts);
    RootsSpared(w, m, ts[0], RootsAmong(f, rest));
    forall k | 0 <= k < |rest| ensures rest[k] < |f| && IsRoot(Forest(m.objs), rest[k]) == IsRoot(f, rest[k]) {
      assert SameObject(w.objs[rest[k]], m.objs[rest[k]]);
      RootStays(w, m, ts, k + 1);
    }
    RootsAmongFrame(f, Forest(m.objs), rest);
    forall k | 0 <= k < |RootsAmong(f, rest)| ensures w.objs[RootsAmong(f, rest)[k]].handle != 0 {
      assert IsRoot(f, RootsAmong(f, rest)[k]);
    }
    RestIsSpared(w, m, RootsAmong(f, rest), 0);
  }

  lemma {:induction false} RootsAmongFrame(f: seq<Node>, f': seq<Node>, ts: seq<nat>)
    requires forall k :: 0 <= k < |ts| ==> IsRoot(f', ts[k]) == IsRoot(f, ts[k])
    ensures RootsAmong(f', ts) == RootsAmong(f, ts)
  {
    if ts != [] {
      RootsAmongFrame(f, f', ts[1..]);
    }
  }

  lemma LiveAfter(w: World, m: World, gone: set<nat>, i: nat)
    requires DisposedExactly(w, m, gone) && SameObjects(w, m) && i < |w.objs|
    ensures m.objs[i].handle == if i in gone then 0 else w.objs[i].handle
    ensures Forest(m.objs)[i] == if i in gone then Forest(w.objs)[i].(live := false) else Forest(w.objs)[i]
  {
    assert Bare(m.objs[i]) == if i in gone then Gone(w.objs[i]) else Bare(w.objs[i]);
    assert Bare(m.objs[i]).handle == m.objs[i].handle && Bare(w.objs[i]).handle == w.objs[i].handle;
    assert SameObject(w.objs[i], m.objs[i]);
  }

  lemma RestHoldsLive(w: World, m: World, ts: seq<nat>)
    requires ts != [] && AllOfThemTxns(w.objs, ts) && HoldsLive(Forest(w.objs), ts) && Increasing(ts)
    requires SameObjects(w, m) && DisposedExactly(w, m, Subtree(Forest(w.objs), ts[0]))
    ensures Increasing(ts[1..]) && AllOfThemTxns(m.objs, ts[1..]) && HoldsLive(Forest(m.objs), ts[1..])
  {
    var f, f' := Forest(w.objs), Forest(m.objs);
    forall k | 0 <= k < |ts[1..]| ensures IsTxn(m.objs, ts[1..][k]) {
      assert SameObject(w.objs[ts[k + 1]], m.objs[ts[k + 1]]);
    }
    forall i | 0 <= i < |f'| && f'[i].live && f'[i].isTxn ensures i in ts[1..] {
      LiveAfter(w, m, Subtree(f, ts[0]), i);
      assert Under(f, ts[0], ts[0]);
      assert i in ts && i != ts[0];
    }
  }

  lemma RootStays(w: World, m: World, ts: seq<nat>, k: nat)
    requires 0 < k < |ts| && Increasing(ts) && IsRoot(Forest(w.objs), ts[0]) && ts[k] < |w.objs|
    requires SameObjects(w, m) && DisposedExactly(w, m, Subtree(Forest(w.objs), ts[0]))
    ensures IsRoot(Forest(m.objs), ts[k]) == IsRoot(Forest(w.objs), ts[k])
  {
    var f := Forest(w.objs);
    LiveAfter(w, m, Subtree(f, ts[0]), ts[k]);
    if IsRoot(f, ts[k]) && Under(f, ts[k], ts[0]) {
      RootsAreDisjoint(f, ts[k], ts[0], ts[k]);
    }
  }

  lemma RootsSpared(w: World, m: World, t: nat, roots: seq<nat>)
    requires IsRoot(Forest(w.objs), t) && SameObjects(w, m) && DisposedExactly(w, m, Subtree(Forest(w.objs), t))
    requires forall k :: 0 <= k < |roots| ==> IsRoot(Forest(w.objs), roots[k]) && roots[k] != t
    ensures Spared(w, m, roots)
  {
    var f := Forest(w.objs);
    forall i, k | 0 <= k < |roots| && 0 <= i < |w.objs| && Under(f, i, roots[k])
      ensures Bare(m.objs[i]) == Bare(w.objs[i]) && m.objs[i].handle == w.objs[i].handle
      ensures Owner(m.objs[i]) == Owner(w.objs[i])
    {
      LiveAfter(w, m, Subtree(f, t), i);
      if Under(f, i, t) {
        RootsAreDisjoint(f, i, t, roots[k]);
      }
      assert SameObject(w.objs[i], m.objs[i]);
    }
  }

  /** Raising `Disposing` on all live transactions, oldest first, disposes each tree when its root is met. */
  lemma {:induction false} DisposeAllCalls(w: World, ts: seq<nat>)
    requires Wired(w, {}) && Increasing(ts) && AllOfThemTxns(w.objs, ts) && HoldsLive(Forest(w.objs), ts)
    ensures DisposeEach(w, ts, 0).log
         == w.log + Releases(w.objs, PostOrderEach(Forest(w.objs), false, RootsAmong(Forest(w.objs), ts), 0))
    decreases |ts|
  {
    hide Dispose, DisposeEach, Releases, PostOrder, PostOrderEach, Wired, HoldsLive, RootsAmong;
    WiredIsOrdered(w);
    var f := Forest(w.objs);
    if ts == [] {
      NoRoots(f);
      NothingDisposed(w, ts, 0);
    } else {
      DisposeEachCons(w, ts, 0);
      if w.objs[ts[0]].handle == 0 {
        HeadIsGone(w, ts);
        DisposeAllCalls(w, ts[1..]);
      } else {
        HeadIsRoot(f, ts);
        RootDisposed(w, ts);
        DisposeCalls(w, ts[0], {});
        DisposeAllCalls(Dispose(w, ts[0]), ts[1..]);
        RootFirst(f, ts);
        ReleasesAfter(w.objs, w.log, PostOrder(f, false, ts[0]), PostOrderEach(f, false, RootsAmong(f, ts[1..]), 0));
      }
    }
  }

  lemma WiredIsOrdered(w: World)
    requires Wired(w, {})
    ensures Ordered(w) && Rooted(Forest(w.objs))
  {
  }

  lemma NoRoots(f: seq<Node>)
    ensures RootsAmong(f, []) == []
  {
  }

  lemma RootFirst(f: seq<Node>, ts: seq<nat>)
    requires Rooted(f) && ts != [] && IsRoot(f, ts[0])
    ensures PostOrderEach(f, false, RootsAmong(f, ts), 0)
         == PostOrder(f, false, ts[0]) + PostOrderEach(f, false, RootsAmong(f, ts[1..]), 0)
  {
    var rest := RootsAmong(f, ts[1..]);
    assert RootsAmong(f, ts) == [ts[0]] + rest && ([ts[0]] + rest)[1..] == rest;
    PostOrderEachCons(f, RootsAmong(f, ts), 0);
  }

  /** The environment's event holds all live transactions, so its disposal releases tree after tree. */
  lemma {:induction false} EnvDisposeCalls(w: World)
    requires Wired(w, {})
    ensures DisposeEach(w, w.env.disposing, 0).log
         == w.log + Releases(w.objs, PostOrderEach(Forest(w.objs), false, Roots(Forest(w.objs), |w.objs|), 0))
  {
    hide DisposeEach, Releases, PostOrderEach, RootsAmong;
    var f, n := Forest(w.objs), |w.objs|;
    var ts := w.env.disposing;
    SubscribersSound(f, {}, OfEnv, n);
    forall i | 0 <= i < |f| && f[i].live && f[i].isTxn ensures i in ts {
      var k := SubscribersComplete(f, {}, OfEnv, n, i);
    }
    forall k | 0 <= k < |ts| ensures IsTxn(w.objs, ts[k]) {
      assert Heard(f, {}, OfEnv, ts[k]);
    }
    DisposeAllCalls(w, ts);
    RootsAmongSubscribers(f, n);
  }
}
