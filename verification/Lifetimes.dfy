/**
  Transactions, cursors and the environment of the LMDBNet wrapper.

  The objects live in one heap, numbered in the order of their creation; an event is the ordered list
  of the objects whose `Dispose` (or `OnParentStateChanging`) is subscribed to it. As in C#, raising an
  event calls the subscribers of the moment it is raised, whatever they unsubscribe meanwhile.
  Every native call is appended to `log`.

  The functions say what each operation does; `Session` is the imperative code, proved against them.
 */
module Lifetimes {
  import opened Wrappers

  datatype Mode = Active | Reseted | Aborted | Commited

  /** A handle of 0 is `IntPtr.Zero`: the object has been disposed. */
  datatype Obj =
    | Txn(handle: nat, mode: Mode, readOnly: bool, parent: Option<nat>, disposing: seq<nat>, stateChanging: seq<nat>)
    | Cursor(handle: nat, txn: nat)

  datatype Env = Env(handle: nat, isOpen: bool, disposing: seq<nat>)

  /** The native calls, with the handles passed to or returned by them. */
  datatype Call =
    | EnvOpen(env: nat)
    | EnvClose(env: nat)
    | TxnBegin(env: nat, parentTxn: nat, readOnly: bool, txn: nat)
    | TxnCommit(txn: nat)
    | TxnAbort(txn: nat)
    | TxnReset(txn: nat)
    | TxnRenew(txn: nat)
    | CursorOpen(txn: nat, cursor: nat)
    | CursorClose(cursor: nat)

  datatype World = World(env: Env, objs: seq<Obj>, log: seq<Call>)

  /** The environment has been created and not opened yet. */
  const INIT := World(Env(1, false, []), [], [])

  function Owner(o: Obj): Option<nat> {
    match o
    case Txn(_, _, _, parent, _, _) => parent
    case Cursor(_, txn) => Some(txn)
  }

  predicate Unfinished(m: Mode) {
    m == Active || m == Reseted
  }

  predicate IsTxn(objs: seq<Obj>, i: nat) {
    i < |objs| && objs[i].Txn?
  }

  predicate All(objs: seq<Obj>, subs: seq<nat>, from: nat) {
    forall k :: 0 <= k < |subs| ==> from <= subs[k] < |objs|
  }

  predicate AllTxns(objs: seq<Obj>, subs: seq<nat>, from: nat) {
    forall k :: 0 <= k < |subs| ==> from <= subs[k] && IsTxn(objs, subs[k])
  }

  predicate OrderedAt(objs: seq<Obj>, i: nat)
    requires i < |objs|
  {
    match objs[i]
    case Txn(_, _, _, parent, disposing, stateChanging) =>
      && (parent.Some? ==> parent.value < i && IsTxn(objs, parent.value))
      && All(objs, disposing, i + 1) && AllTxns(objs, stateChanging, i + 1)
    case Cursor(_, txn) => txn < i && IsTxn(objs, txn)
  }

  /** Objects are owned by older objects, and only younger objects subscribe to them. */
  predicate Ordered(w: World) {
    && (forall i :: 0 <= i < |w.objs| ==> OrderedAt(w.objs, i))
    && All(w.objs, w.env.disposing, 0)
  }

  predicate SameObject(o: Obj, o': Obj) {
    o'.Txn? == o.Txn? && Owner(o') == Owner(o)
  }

  /** The operation kept every object, its kind and its owner. */
  predicate SameObjects(w: World, r: World) {
    && |r.objs| == |w.objs|
    && (forall i :: 0 <= i < |w.objs| ==> SameObject(w.objs[i], r.objs[i]))
  }

  /** Replacing an object by one of its kind and owner, with subscribers that are still younger. */
  lemma OrderedUpdate(w: World, i: nat, o: Obj)
    requires Ordered(w) && i < |w.objs| && SameObject(w.objs[i], o)
    requires o.Txn? ==> All(w.objs, o.disposing, i + 1) && AllTxns(w.objs, o.stateChanging, i + 1)
    ensures Ordered(w.(objs := w.objs[i := o])) && SameObjects(w, w.(objs := w.objs[i := o]))
  {
    var objs := w.objs[i := o];
    forall j | 0 <= j < |objs| ensures OrderedAt(objs, j) {
      assert OrderedAt(w.objs, j);
      OrderedAtFrame(w.objs, objs, j, objs[j]);
    }
  }

  lemma OrderedAtFrame(objs: seq<Obj>, objs': seq<Obj>, j: nat, o: Obj)
    requires j < |objs| == |objs'| && OrderedAt(objs, j) && o == objs'[j] && SameObject(objs[j], o)
    requires forall i :: 0 <= i < |objs| ==> objs'[i].Txn? == objs[i].Txn?
    requires o.Txn? ==> All(objs, o.disposing, j + 1) && AllTxns(objs, o.stateChanging, j + 1)
    ensures OrderedAt(objs', j)
  {
  }

  /** A new object, subscribed to events of its owner `p` and of the environment. */
  lemma OrderedAppend(w: World, o: Obj, env: Env)
    requires Ordered(w)
    requires Owner(o).Some? ==> Owner(o).value < |w.objs| && IsTxn(w.objs, Owner(o).value)
    requires o.Txn? ==> o.disposing == [] && o.stateChanging == []
    requires forall k :: 0 <= k < |env.disposing| ==> env.disposing[k] <= |w.objs|
    ensures forall log :: Ordered(World(env, Adopt(w.objs, o) + [o], log))
  {
    var n := |w.objs|;
    var objs := Adopt(w.objs, o) + [o];
    forall j | 0 <= j < |objs| ensures OrderedAt(objs, j) {
      if j < n {
        assert OrderedAt(w.objs, j);
      }
    }
  }

  // ---------- Commit and Abort ----------

  function SetMode(w: World, t: nat, m: Mode): World
    requires IsTxn(w.objs, t)
  {
    w.(objs := w.objs[t := w.objs[t].(mode := m)])
  }

  function Logged(w: World, c: Call): World {
    w.(log := w.log + [c])
  }

  function AbortTxn(w: World, t: nat): (r: World)
    requires Ordered(w) && IsTxn(w.objs, t)
    ensures Ordered(r) && SameObjects(w, r)
    decreases |w.objs| - t, 0, 0
  {
    assert OrderedAt(w.objs, t);
    OrderedUpdate(w, t, w.objs[t].(mode := Aborted));
    var w1 := SetMode(w, t, Aborted);
    assert OrderedAt(w1.objs, t);
    var w2 := AbortEach(w1, w1.objs[t].stateChanging, t + 1);
    Logged(w2, TxnAbort(w2.objs[t].handle))
  }

  /** Raises `StateChanging` with a finishing state: the subscribers from `from` on abort in order. */
  function AbortEach(w: World, subs: seq<nat>, from: nat): (r: World)
    requires Ordered(w) && from <= |w.objs| && AllTxns(w.objs, subs, from)
    ensures Ordered(r) && SameObjects(w, r)
    decreases |w.objs| - from, 1, |subs|
  {
    if subs == [] then w else AbortEach(AbortTxn(w, subs[0]), subs[1..], from)
  }

  function CommitTxn(w: World, t: nat): (r: World)
    requires Ordered(w) && IsTxn(w.objs, t)
    ensures Ordered(r) && SameObjects(w, r)
  {
    assert OrderedAt(w.objs, t);
    OrderedUpdate(w, t, w.objs[t].(mode := Commited));
    var w1 := SetMode(w, t, Commited);
    assert OrderedAt(w1.objs, t);
    var w2 := AbortEach(w1, w1.objs[t].stateChanging, t + 1);
    Logged(w2, TxnCommit(w2.objs[t].handle))
  }

  // ---------- Dispose ----------

  /** Removal from an event: the last occurrence goes. */
  function Without(s: seq<nat>, x: nat): seq<nat> {
    if s == [] then []
    else if s[|s| - 1] == x then s[..|s| - 1]
    else Without(s[..|s| - 1], x) + [s[|s| - 1]]
  }

  lemma WithoutKeeps(objs: seq<Obj>, s: seq<nat>, x: nat, from: nat)
    ensures All(objs, s, from) ==> All(objs, Without(s, x), from)
    ensures AllTxns(objs, s, from) ==> AllTxns(objs, Without(s, x), from)
  {
    if s != [] && s[|s| - 1] != x {
      var init := s[..|s| - 1];
      WithoutKeeps(objs, init, x, from);
      assert All(objs, s, from) ==> All(objs, init, from);
      assert AllTxns(objs, s, from) ==> AllTxns(objs, init, from);
    }
  }

  function Disposed(o: Obj): Obj {
    match o
    case Txn(_, mode, readOnly, parent, disposing, stateChanging) =>
      Txn(0, mode, readOnly, parent, disposing, stateChanging)
    case Cursor(_, txn) => Cursor(0, txn)
  }

  function ClearHandle(w: World, i: nat): World
    requires i < |w.objs|
  {
    w.(objs := w.objs[i := Disposed(w.objs[i])])
  }

  function UnsubscribeCursor(w: World, c: nat): (r: World)
    requires Ordered(w) && c < |w.objs| && w.objs[c].Cursor?
    ensures Ordered(r) && SameObjects(w, r)
  {
    var t := w.objs[c].txn;
    assert OrderedAt(w.objs, c) && OrderedAt(w.objs, t);
    WithoutKeeps(w.objs, w.objs[t].disposing, c, t + 1);
    OrderedUpdate(w, t, w.objs[t].(disposing := Without(w.objs[t].disposing, c)));
    w.(objs := w.objs[t := w.objs[t].(disposing := Without(w.objs[t].disposing, c))])
  }

  function UnsubscribeTxn(w: World, t: nat): (r: World)
    requires Ordered(w) && IsTxn(w.objs, t)
    ensures Ordered(r) && SameObjects(w, r)
  {
    WithoutKeeps(w.objs, w.env.disposing, t, 0);
    var w1 := w.(env := w.env.(disposing := Without(w.env.disposing, t)));
    match w.objs[t].parent
    case None => w1
    case Some(p) =>
      assert OrderedAt(w.objs, t) && OrderedAt(w.objs, p);
      WithoutKeeps(w.objs, w.objs[p].disposing, t, p + 1);
      WithoutKeeps(w.objs, w.objs[p].stateChanging, t, p + 1);
      var o := w.objs[p].(disposing := Without(w.objs[p].disposing, t),
                          stateChanging := Without(w.objs[p].stateChanging, t));
      OrderedUpdate(w1, p, o);
      w1.(objs := w1.objs[p := o])
  }

  function Dispose(w: World, i: nat): (r: World)
    requires Ordered(w) && i < |w.objs|
    ensures Ordered(r) && SameObjects(w, r)
    decreases |w.objs| - i, 0, 0
  {
    if w.objs[i].handle == 0 then w
    else if w.objs[i].Cursor? then
      OrderedUpdate(w, i, Disposed(w.objs[i]));
      UnsubscribeCursor(ClearHandle(Logged(w, CursorClose(w.objs[i].handle)), i), i)
    else
      var w1 := UnsubscribeTxn(w, i);
      assert OrderedAt(w1.objs, i);
      var w2 := DisposeEach(w1, w1.objs[i].disposing, i + 1);
      var w3 := if Unfinished(w2.objs[i].mode) then AbortTxn(w2, i) else w2;
      assert OrderedAt(w3.objs, i);
      OrderedUpdate(w3, i, Disposed(w3.objs[i]));
      ClearHandle(w3, i)
  }

  /** Raises a `Disposing` event: the subscribers from `from` on dispose themselves in order. */
  function DisposeEach(w: World, subs: seq<nat>, from: nat): (r: World)
    requires Ordered(w) && from <= |w.objs| && All(w.objs, subs, from)
    ensures Ordered(r) && SameObjects(w, r)
    decreases |w.objs| - from, 1, |subs|
  {
    if subs == [] then w else DisposeEach(Dispose(w, subs[0]), subs[1..], from)
  }

  function DisposeEnv(w: World): (r: World)
    requires Ordered(w)
    ensures Ordered(r) && SameObjects(w, r)
  {
    if w.env.handle == 0 then w
    else
      var w1 := DisposeEach(w, w.env.disposing, 0);
      var w2 := if w1.env.isOpen then Logged(w1, EnvClose(w1.env.handle)).(env := w1.env.(isOpen := false)) else w1;
      w2.(env := w2.env.(handle := 0))
  }

  // ---------- the remaining operations ----------

  function OpenEnv(w: World): (r: World)
    ensures Ordered(w) ==> Ordered(r)
  {
    assert Ordered(w) ==> forall i :: 0 <= i < |w.objs| ==> OrderedAt(w.objs, i);
    if w.env.isOpen then w  // throws
    else Logged(w, EnvOpen(w.env.handle)).(env := w.env.(isOpen := true))
  }

  /** The owner of a new object gets it as the last subscriber of its events. */
  function Adopt(objs: seq<Obj>, o: Obj): seq<Obj>
    requires Owner(o).Some? ==> IsTxn(objs, Owner(o).value)
  {
    match Owner(o)
    case None => objs
    case Some(p) =>
      var owner := objs[p].(disposing := objs[p].disposing + [|objs|]);
      objs[p := if o.Txn? then owner.(stateChanging := owner.stateChanging + [|objs|]) else owner]
  }

  /** A transaction is begun by the environment (no parent) or by its parent. */
  function Begin(w: World, parent: Option<nat>, readOnly: bool): (r: World)
    requires Ordered(w) && (parent.Some? ==> IsTxn(w.objs, parent.value))
    ensures Ordered(r)
  {
    if parent.None? && !w.env.isOpen then w  // throws
    else
      var t := |w.objs|;
      var o := Txn(t + 1, Active, readOnly, parent, [], []);
      var parentHandle := if parent.Some? then w.objs[parent.value].handle else 0;
      var env := w.env.(disposing := w.env.disposing + [t]);
      OrderedAppend(w, o, env);
      World(env, Adopt(w.objs, o) + [o], w.log + [TxnBegin(w.env.handle, parentHandle, readOnly, t + 1)])
  }

  /** A child begun through the environment, which looks whether it is open; the parent itself does not. */
  function BeginInEnv(w: World, p: nat, readOnly: bool): (r: World)
    requires Ordered(w) && IsTxn(w.objs, p)
    ensures Ordered(r)
  {
    if !w.env.isOpen then w  // throws
    else Begin(w, Some(p), readOnly)
  }

  function OpenCursor(w: World, t: nat): (r: World)
    requires Ordered(w) && IsTxn(w.objs, t)
    ensures Ordered(r)
  {
    var c := Cursor(|w.objs| + 1, t);
    OrderedAppend(w, c, w.env);
    World(w.env, Adopt(w.objs, c) + [c], w.log + [CursorOpen(w.objs[t].handle, |w.objs| + 1)])
  }

  function Reset(w: World, t: nat): (r: World)
    requires Ordered(w) && IsTxn(w.objs, t)
    ensures Ordered(r)
  {
    if !w.objs[t].readOnly then w  // throws
    else
      assert OrderedAt(w.objs, t);
      OrderedUpdate(Logged(w, TxnReset(w.objs[t].handle)), t, w.objs[t].(mode := Reseted));
      SetMode(Logged(w, TxnReset(w.objs[t].handle)), t, Reseted)
  }

  function Renew(w: World, t: nat): (r: World)
    requires Ordered(w) && IsTxn(w.objs, t)
    ensures Ordered(r)
  {
    if !w.objs[t].readOnly || w.objs[t].mode != Reseted then w  // throws
    else
      assert OrderedAt(w.objs, t);
      OrderedUpdate(Logged(w, TxnRenew(w.objs[t].handle)), t, w.objs[t].(mode := Active));
      SetMode(Logged(w, TxnRenew(w.objs[t].handle)), t, Active)
  }

  // ---------- the code ----------

  class Session {
    var env: Env
    var objs: seq<Obj>
    var log: seq<Call>

    function View(): World
      reads this
    {
      World(env, objs, log)
    }

    constructor ()
      ensures View() == INIT
    {
      env, objs, log := Env(1, false, []), [], [];
    }

    method Abort(t: nat)
      requires Ordered(View()) && IsTxn(objs, t)
      modifies this
      ensures View() == AbortTxn(old(View()), t)
      decreases |objs| - t, 0
    {
      assert OrderedAt(objs, t);
      OrderedUpdate(View(), t, objs[t].(mode := Aborted));
      objs := objs[t := objs[t].(mode := Aborted)];
      assert OrderedAt(objs, t);
      RaiseStateChanging(objs[t].stateChanging, t + 1);
      log := log + [TxnAbort(objs[t].handle)];
    }

    method RaiseStateChanging(subs: seq<nat>, from: nat)
      requires Ordered(View()) && from <= |objs| && AllTxns(objs, subs, from)
      modifies this
      ensures View() == AbortEach(old(View()), subs, from)
      decreases |objs| - from, 1
    {
      hide AbortTxn;
      ghost var start := View();
      var i := 0;
      while i < |subs|
        invariant 0 <= i <= |subs|
        invariant Ordered(View()) && SameObjects(start, View())
        invariant AllTxns(objs, subs, from)
        invariant AbortEach(View(), subs[i..], from) == AbortEach(start, subs, from)
      {
        assert subs[i..][0] == subs[i] && subs[i..][1..] == subs[i + 1..];
        Abort(subs[i]);
        i := i + 1;
      }
    }

    method Commit(t: nat)
      requires Ordered(View()) && IsTxn(objs, t)
      modifies this
      ensures View() == CommitTxn(old(View()), t)
    {
      assert OrderedAt(objs, t);
      OrderedUpdate(View(), t, objs[t].(mode := Commited));
      objs := objs[t := objs[t].(mode := Commited)];
      assert OrderedAt(objs, t);
      RaiseStateChanging(objs[t].stateChanging, t + 1);
      log := log + [TxnCommit(objs[t].handle)];
    }

    method DisposeObject(i: nat)
      requires Ordered(View()) && i < |objs|
      modifies this
      ensures View() == Dispose(old(View()), i)
      decreases |objs| - i, 0
    {
      hide AbortTxn, DisposeEach;
      if objs[i].handle == 0 {
        return;
      }
      if objs[i].Cursor? {
        OrderedUpdate(View(), i, Disposed(objs[i]));
        log := log + [CursorClose(objs[i].handle)];
        objs := objs[i := Disposed(objs[i])];
        var t := objs[i].txn;
        assert OrderedAt(objs, i);
        objs := objs[t := objs[t].(disposing := Without(objs[t].disposing, i))];
      } else {
        Unsubscribe(i);
        assert OrderedAt(objs, i);
        RaiseDisposing(objs[i].disposing, i + 1);
        if Unfinished(objs[i].mode) {
          Abort(i);
        }
        objs := objs[i := Disposed(objs[i])];
      }
    }

    method Unsubscribe(t: nat)
      requires Ordered(View()) && IsTxn(objs, t)
      modifies this
      ensures View() == UnsubscribeTxn(old(View()), t)
    {
      env := env.(disposing := Without(env.disposing, t));
      if objs[t].parent.Some? {
        var p := objs[t].parent.value;
        assert OrderedAt(objs, t);
        objs := objs[p := objs[p].(disposing := Without(objs[p].disposing, t))];
        objs := objs[p := objs[p].(stateChanging := Without(objs[p].stateChanging, t))];
      }
    }

    method RaiseDisposing(subs: seq<nat>, from: nat)
      requires Ordered(View()) && from <= |objs| && All(objs, subs, from)
      modifies this
      ensures View() == DisposeEach(old(View()), subs, from)
      decreases |objs| - from, 1
    {
      hide Dispose;
      ghost var start := View();
      var i := 0;
      while i < |subs|
        invariant 0 <= i <= |subs|
        invariant Ordered(View()) && SameObjects(start, View())
        invariant DisposeEach(View(), subs[i..], from) == DisposeEach(start, subs, from)
      {
        assert subs[i..][0] == subs[i] && subs[i..][1..] == subs[i + 1..];
        DisposeObject(subs[i]);
        i := i + 1;
      }
    }

    method DisposeEnvironment()
      requires Ordered(View())
      modifies this
      ensures View() == DisposeEnv(old(View()))
    {
      if env.handle == 0 {
        return;
      }
      RaiseDisposing(env.disposing, 0);
      if env.isOpen {
        log := log + [EnvClose(env.handle)];
        env := env.(isOpen := false);
      }
      env := env.(handle := 0);
    }

    method Open() returns (ok: bool)
      modifies this
      ensures View() == OpenEnv(old(View())) && ok == !old(env).isOpen
    {
      if env.isOpen {
        return false;
      }
      log := log + [EnvOpen(env.handle)];
      env := env.(isOpen := true);
      return true;
    }

    method BeginTransaction(parent: Option<nat>, readOnly: bool) returns (r: Option<nat>)
      requires Ordered(View()) && (parent.Some? ==> IsTxn(objs, parent.value))
      modifies this
      ensures View() == Begin(old(View()), parent, readOnly)
      ensures r == if parent.None? && !old(env).isOpen then None else Some(|old(objs)|)
    {
      if parent.None? && !env.isOpen {
        return None;
      }
      var t := |objs|;
      env := env.(disposing := env.disposing + [t]);
      var parentHandle := 0;
      if parent.Some? {
        var p := parent.value;
        objs := objs[p := objs[p].(disposing := objs[p].disposing + [t])];
        objs := objs[p := objs[p].(stateChanging := objs[p].stateChanging + [t])];
        parentHandle := objs[p].handle;
      }
      log := log + [TxnBegin(env.handle, parentHandle, readOnly, t + 1)];
      objs := objs + [Txn(t + 1, Active, readOnly, parent, [], [])];
      return Some(t);
    }

    method BeginTransactionInEnv(parent: nat, readOnly: bool) returns (r: Option<nat>)
      requires Ordered(View()) && IsTxn(objs, parent)
      modifies this
      ensures View() == BeginInEnv(old(View()), parent, readOnly)
      ensures r == if old(env).isOpen then Some(|old(objs)|) else None
    {
      if !env.isOpen {
        return None;
      }
      r := BeginTransaction(Some(parent), readOnly);
    }

    method CreateCursor(t: nat) returns (c: nat)
      requires Ordered(View()) && IsTxn(objs, t)
      modifies this
      ensures View() == OpenCursor(old(View()), t) && c == |old(objs)|
    {
      c := |objs|;
      log := log + [CursorOpen(objs[t].handle, c + 1)];
      objs := objs[t := objs[t].(disposing := objs[t].disposing + [c])] + [Cursor(c + 1, t)];
    }

    method ResetTxn(t: nat) returns (ok: bool)
      requires Ordered(View()) && IsTxn(objs, t)
      modifies this
      ensures View() == Reset(old(View()), t) && ok == old(objs)[t].readOnly
    {
      if !objs[t].readOnly {
        return false;
      }
      log := log + [TxnReset(objs[t].handle)];
      objs := objs[t := objs[t].(mode := Reseted)];
      return true;
    }

    method RenewTxn(t: nat) returns (ok: bool)
      requires Ordered(View()) && IsTxn(objs, t)
      modifies this
      ensures View() == Renew(old(View()), t)
      ensures ok == (old(objs)[t].readOnly && old(objs)[t].mode == Reseted)
    {
      if !objs[t].readOnly || objs[t].mode != Reseted {
        return false;
      }
      log := log + [TxnRenew(objs[t].handle)];
      objs := objs[t := objs[t].(mode := Active)];
      return true;
    }
  }
}
