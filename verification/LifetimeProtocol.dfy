/** The client protocol: what exactly keeps the wrapper in good order, and what exactly keeps the native rules. */
module LifetimeProtocol {
  import opened Wrappers
  import opened Lifetimes
  import opened LifetimeForest
  import opened NativeLedger
  import opened DisposeLaws
  import opened AbortLaws
  import opened LifetimeTheorems

  datatype Op =
    | OpenEnvOp
    | DisposeEnvOp
    | BeginOp(parent: Option<nat>, readOnly: bool)
    | BeginInEnvOp(p: nat, readOnly: bool)
    | FinishOp(t: nat, commit: bool)
    | ResetOp(t: nat)
    | RenewOp(t: nat)
    | OpenCursorOp(t: nat)
    | DisposeOp(i: nat)

  /** The operation is called on an object that exists and has it. */
  predicate Typed(w: World, op: Op) {
    match op
    case OpenEnvOp => true
    case DisposeEnvOp => true
    case BeginOp(parent, _) => parent.Some? ==> IsTxn(w.objs, parent.value)
    case BeginInEnvOp(p, _) => IsTxn(w.objs, p)
    case FinishOp(t, _) => IsTxn(w.objs, t)
    case ResetOp(t) => IsTxn(w.objs, t)
    case RenewOp(t) => IsTxn(w.objs, t)
    case OpenCursorOp(t) => IsTxn(w.objs, t)
    case DisposeOp(i) => i < |w.objs|
  }

  function FinalMode(commit: bool): Mode {
    if commit then Commited else Aborted
  }

  function Step(w: World, op: Op): (r: World)
    requires Ordered(w) && Typed(w, op)
    ensures Ordered(r)
  {
    match op
    case OpenEnvOp => OpenEnv(w)
    case DisposeEnvOp => DisposeEnv(w)
    case BeginOp(parent, readOnly) => Begin(w, parent, readOnly)
    case BeginInEnvOp(p, readOnly) => BeginInEnv(w, p, readOnly)
    case FinishOp(t, commit) => FinishTxn(w, t, FinalMode(commit))
    case ResetOp(t) => Reset(w, t)
    case RenewOp(t) => Renew(w, t)
    case OpenCursorOp(t) => OpenCursor(w, t)
    case DisposeOp(i) => Dispose(w, i)
  }

  /** Neither disposed nor finished nor reset. */
  predicate Usable(w: World, t: nat)
    requires IsTxn(w.objs, t)
  {
    w.objs[t].handle != 0 && w.objs[t].mode == Active
  }

  predicate IsOpenChild(objs: seq<Obj>, i: nat, t: nat) {
    IsTxn(objs, i) && objs[i].handle != 0 && Unfinished(objs[i].mode) && objs[i].parent == Some(t)
  }

  predicate HasOpenChild(w: World, t: nat) {
    exists i :: 0 <= i < |w.objs| && IsOpenChild(w.objs, i, t)
  }

  /**
    What a client may do to keep the wrapper in good order. Operations that throw, and every disposal, are always
    allowed. A transaction is used only while it is active; it has no cursor opened, and is not reset or renewed, while
    it has an unfinished child. It is finished only when no transaction under it is finished and not disposed, because
    the wrapper would finish that one again, and when all cursors of write transactions at and under it are disposed,
    because the library would free them and leave their objects with a freed handle.
   */
  predicate Allowed(w: World, op: Op)
    requires Typed(w, op)
  {
    match op
    case OpenEnvOp => w.env.isOpen || (w.env.handle != 0)
    case DisposeEnvOp => true
    case BeginOp(parent, _) => parent.Some? ==> Usable(w, parent.value)
    case BeginInEnvOp(p, _) => w.env.isOpen ==> Usable(w, p)
    case FinishOp(t, _) => w.objs[t].handle != 0 && SubtreeUnfinished(w, t) && CursorsSpared(w, t)
    case ResetOp(t) => w.objs[t].readOnly ==> Restartable(w, t)
    case RenewOp(t) => w.objs[t].readOnly && w.objs[t].mode == Reseted ==> Restartable(w, t)
    case OpenCursorOp(t) => Usable(w, t) && !HasOpenChild(w, t)
    case DisposeOp(_) => true
  }

  predicate Restartable(w: World, t: nat)
    requires IsTxn(w.objs, t)
  {
    w.objs[t].handle != 0 && Unfinished(w.objs[t].mode) && !HasOpenChild(w, t)
  }

  lemma ChildInLedger(l: Ledger, w: World, t: nat)
    requires Fits(l, w)
    ensures HasChild(l, t + 1) <==> HasOpenChild(w, t)
  {
    if h :| h in l.txns && l.txns[h].parent == t + 1 {
      assert Owes(w.objs, h) && IsOpenChild(w.objs, h - 1, t);
    }
    if i :| 0 <= i < |w.objs| && IsOpenChild(w.objs, i, t) {
      assert Owes(w.objs, i + 1) && l.txns[i + 1].parent == t + 1;
    }
  }

  // ---------- a new object ----------

  function Adopted(w: World, o: Obj, call: Call): World
    requires Owner(o).Some? ==> IsTxn(w.objs, Owner(o).value)
  {
    World(if o.Txn? then w.env.(disposing := w.env.disposing + [|w.objs|]) else w.env,
          Adopt(w.objs, o) + [o],
          w.log + [call])
  }

  predicate Fresh(w: World, o: Obj) {
    && o.handle == |w.objs| + 1
    && (o.Txn? ==> o.mode == Active && o.disposing == [] && o.stateChanging == [])
    && (o.Cursor? || Owner(o).Some? ==> Owner(o).Some? && IsTxn(w.objs, Owner(o).value))
  }

  lemma AdoptedForest(w: World, o: Obj, call: Call)
    requires Fresh(w, o)
    ensures Forest(Adopted(w, o, call).objs) == Forest(w.objs) + [NodeOf(o)]
  {
    var f := Forest(Adopted(w, o, call).objs);
    forall i | 0 <= i < |f| ensures f[i] == (Forest(w.objs) + [NodeOf(o)])[i] {
    }
  }

  lemma SubscribersGrow(f: seq<Node>, node: Node, e: Event)
    ensures Subscribers(f + [node], {}, e, |f| + 1)
         == Subscribers(f, {}, e, |f|) + (if node.live && Listens(node, e) then [|f|] else [])
  {
    SubscribersFrame(f, {}, f + [node], {}, e, |f|);
  }

  lemma AdoptedWired(w: World, o: Obj, call: Call)
    requires Wired(w, {}) && Fresh(w, o)
    requires Owner(o).Some? ==> w.objs[Owner(o).value].handle != 0
    ensures Wired(Adopted(w, o, call), {})
  {
    hide Subscribers;
    var r := Adopted(w, o, call);
    var n := |w.objs|;
    var f := Forest(w.objs);
    var node := NodeOf(o);
    OrderedAppend(w, o, r.env);
    AdoptedForest(w, o, call);
    forall i | 0 <= i < n + 1 ensures RootedAt(f + [node], i) {
      if i < n {
        assert RootedAt(f, i);
      }
    }
    SubscribersGrow(f, node, OfEnv);
    forall i | 0 <= i < n + 1 ensures WiredAt(r.objs, {}, i) {
      SubscribersGrow(f, node, DisposingOf(i));
      SubscribersGrow(f, node, StateChangingOf(i));
      if i < n {
        assert WiredAt(w.objs, {}, i);
      } else {
        forall j | 0 <= j < n ensures !Heard(f, {}, DisposingOf(n), j) && !Heard(f, {}, StateChangingOf(n), j) {
          assert RootedAt(f, j);
        }
        SubscribersNone(f, {}, DisposingOf(n), n);
        SubscribersNone(f, {}, StateChangingOf(n), n);
      }
    }
  }

  lemma AdoptedFits(w: World, o: Obj, call: Call, l: Ledger)
    requires Fits(l, w) && Fresh(w, o)
    ensures Fits(if o.Txn? then l.(used := |w.objs| + 1, txns := l.txns[|w.objs| + 1 := EntryOf(o)])
                 else l.(used := |w.objs| + 1, cursors := l.cursors[|w.objs| + 1 := ParentHandle(o)]),
                 Adopted(w, o, call))
  {
    var r := Adopted(w, o, call);
    var n := |w.objs|;
    forall h: nat
      ensures Owes(r.objs, h) == (Owes(w.objs, h) || (h == n + 1 && o.Txn?))
      ensures OwesCursor(r.objs, h) == (OwesCursor(w.objs, h) || (h == n + 1 && o.Cursor?))
    {
      if 1 <= h <= n {
        assert Bare(r.objs[h - 1]) == Bare(w.objs[h - 1]);
      }
    }
    forall i | 0 <= i < n
      ensures EntryOf(r.objs[i]) == EntryOf(w.objs[i]) && ParentHandle(r.objs[i]) == ParentHandle(w.objs[i])
    {
      assert Bare(r.objs[i]) == Bare(w.objs[i]);
      SameEntry(w.objs[i], r.objs[i]);
    }
  }

  function BeginCall(w: World, parent: Option<nat>, readOnly: bool): Call
    requires parent.Some? ==> IsTxn(w.objs, parent.value)
  {
    TxnBegin(w.env.handle, if parent.Some? then w.objs[parent.value].handle else 0, readOnly, |w.objs| + 1)
  }

  lemma BeginIsAdopted(w: World, parent: Option<nat>, readOnly: bool)
    requires Ordered(w) && (parent.Some? ==> IsTxn(w.objs, parent.value))
    ensures var o := Txn(|w.objs| + 1, Active, readOnly, parent, [], []);
      Begin(w, parent, readOnly) ==
        if parent.Some? || w.env.isOpen then Adopted(w, o, BeginCall(w, parent, readOnly)) else w
  {
  }

  lemma BeginUsable(w: World, o: Obj)
    requires Good(w) && w.env.isOpen && o.Txn? && Fresh(w, o) && (o.parent.Some? ==> Usable(w, o.parent.value))
    ensures Good(Adopted(w, o, BeginCall(w, o.parent, o.readOnly)))
  {
    hide Replay, Subscribers, Rooted, Ordered;
    var call := BeginCall(w, o.parent, o.readOnly);
    var l := Replay(NEW, w.log).value;
    ReplayLast(NEW, w.log, call);
    if o.parent.Some? {
      assert WiredAt(w.objs, {}, o.parent.value);
      assert Owes(w.objs, o.parent.value + 1);
    }
    AdoptedWired(w, o, call);
    AdoptedFits(w, o, call, l);
  }

  lemma BeginUnusable(w: World, o: Obj)
    requires Good(w) && o.Txn? && Fresh(w, o) && o.parent.Some? && !Usable(w, o.parent.value)
    ensures !Good(Adopted(w, o, BeginCall(w, o.parent, o.readOnly)))
  {
    hide Replay, Subscribers, Ordered;
    var call := BeginCall(w, o.parent, o.readOnly);
    var p := o.parent.value;
    AdoptedForest(w, o, call);
    ReplayLast(NEW, w.log, call);
    assert WiredAt(w.objs, {}, p);
    if w.objs[p].handle == 0 {
      assert !RootedAt(Forest(w.objs) + [NodeOf(o)], |w.objs|);
    } else {
      assert w.objs[p].mode == Reseted || !Owes(w.objs, p + 1);
    }
  }

  lemma BeginExact(w: World, parent: Option<nat>, readOnly: bool)
    requires Good(w) && (parent.Some? ==> IsTxn(w.objs, parent.value))
    ensures Good(Begin(w, parent, readOnly)) <==> (parent.Some? ==> Usable(w, parent.value))
  {
    hide Begin, Replay, Subscribers, Fits;
    BeginIsAdopted(w, parent, readOnly);
    if parent.Some? || w.env.isOpen {
      var o := Txn(|w.objs| + 1, Active, readOnly, parent, [], []);
      if parent.Some? ==> Usable(w, parent.value) {
        if parent.Some? {
          assert w.env.isOpen by { assert w.objs[parent.value].handle != 0; }
        }
        BeginUsable(w, o);
      } else {
        BeginUnusable(w, o);
      }
    }
  }

  lemma OpenCursorExact(w: World, t: nat)
    requires Good(w) && IsTxn(w.objs, t)
    ensures Good(OpenCursor(w, t)) <==> Usable(w, t) && !HasOpenChild(w, t)
  {
    hide Replay, Subscribers, Rooted, Ordered, HasChild, HasOpenChild;
    var n := |w.objs|;
    var o := Cursor(n + 1, t);
    var call := CursorOpen(w.objs[t].handle, n + 1);
    var l := Replay(NEW, w.log).value;
    assert OpenCursor(w, t) == Adopted(w, o, call);
    ReplayLast(NEW, w.log, call);
    assert WiredAt(w.objs, {}, t);
    EntryInLedger(l, w, t);
    ChildInLedger(l, w, t);
    if Usable(w, t) && !HasOpenChild(w, t) {
      AdoptedWired(w, o, call);
      AdoptedFits(w, o, call, l);
    }
  }

  lemma EntryInLedger(l: Ledger, w: World, t: nat)
    requires Fits(l, w) && IsTxn(w.objs, t)
    ensures 0 !in l.txns
    ensures t + 1 in l.txns <==> w.objs[t].handle != 0 && Unfinished(w.objs[t].mode)
    ensures t + 1 in l.txns ==> l.txns[t + 1].readOnly == w.objs[t].readOnly
    ensures t + 1 in l.txns ==> l.txns[t + 1].isReset == (w.objs[t].mode == Reseted)
  {
    assert Owes(w.objs, t + 1) <==> w.objs[t].handle != 0 && Unfinished(w.objs[t].mode);
    assert !Owes(w.objs, 0);
  }

  // ---------- Reset, Renew, Open ----------

  lemma RestartExact(w: World, t: nat, call: Call, m: Mode)
    requires Good(w) && IsTxn(w.objs, t) && w.objs[t].readOnly
    requires (call == TxnReset(w.objs[t].handle) && m == Reseted)
          || (call == TxnRenew(w.objs[t].handle) && m == Active && w.objs[t].mode == Reseted)
    ensures Good(SetMode(Logged(w, call), t, m)) <==> Restartable(w, t)
  {
    hide Replay, Subscribers, Rooted, HasChild, HasOpenChild, Fits, Ordered;
    var r, l := SetMode(Logged(w, call), t, m), Replay(NEW, w.log).value;
    RestartWired(w, t, call, m);
    ReplayLast(NEW, w.log, call);
    EntryInLedger(l, w, t);
    ChildInLedger(l, w, t);
    if Restartable(w, t) {
      RestartFits(w, r, t, m, l);
    }
  }

  lemma RestartWired(w: World, t: nat, call: Call, m: Mode)
    requires Wired(w, {}) && IsTxn(w.objs, t)
    ensures Wired(SetMode(Logged(w, call), t, m), {}) && (w.objs[t].handle == 0 || w.objs[t].handle == t + 1)
  {
    hide Subscribers, Rooted;
    var r := SetMode(Logged(w, call), t, m);
    assert OrderedAt(w.objs, t) && WiredAt(w.objs, {}, t);
    OrderedUpdate(w, t, w.objs[t].(mode := m));
    assert Ordered(r) by {
      assert forall i :: 0 <= i < |w.objs| ==> OrderedAt(SetMode(w, t, m).objs, i);
    }
    WiredModes(w, r, {});
  }

  lemma RestartFits(w: World, r: World, t: nat, m: Mode, l: Ledger)
    requires Fits(l, w) && IsTxn(w.objs, t) && Restartable(w, t) && Unfinished(m) && t + 1 in l.txns
    requires r.env == w.env && r.objs == w.objs[t := WithMode(w.objs[t], m)]
    ensures Fits(l.(txns := l.txns[t + 1 := l.txns[t + 1].(isReset := m == Reseted)]), r)
  {
    forall h: nat ensures Owes(r.objs, h) == Owes(w.objs, h) && OwesCursor(r.objs, h) == OwesCursor(w.objs, h) {
    }
  }

  lemma OpenExact(w: World)
    requires Good(w)
    ensures Good(OpenEnv(w)) <==> w.env.isOpen || w.env.handle != 0
  {
    if !w.env.isOpen {
      var r := OpenEnv(w);
      var l := Replay(NEW, w.log).value;
      ReplayLast(NEW, w.log, EnvOpen(w.env.handle));
      WiredEnv(w, r);
      if w.env.handle != 0 {
        assert Fits(l.(env := Opened), r);
      }
    }
  }

  // ---------- the theorem ----------

  /**
    One step from good order ends in good order if, and only if, the protocol allows it. Good order is more than the
    native rules: a child begun of a disposed transaction, or a write cursor left to a finished one, is not in order.
   */
  lemma ProtocolIsExact(w: World, op: Op)
    requires Good(w) && Typed(w, op)
    ensures Good(Step(w, op)) <==> Allowed(w, op)
  {
    match op
    case OpenEnvOp => OpenExact(w);
    case DisposeEnvOp => DisposeEnvIsGood(w);
    case BeginOp(parent, readOnly) => BeginExact(w, parent, readOnly);
    case BeginInEnvOp(p, readOnly) =>
      if w.env.isOpen {
        BeginExact(w, Some(p), readOnly);
      }
    case FinishOp(t, commit) =>
      if w.objs[t].handle == 0 {
        FinishOfDisposedBreaksRules(w, t, FinalMode(commit));
      } else if !SubtreeUnfinished(w, t) {
        FinishBreaksRules(w, t, FinalMode(commit));
      } else if CursorsSpared(w, t) {
        FinishIsGood(w, t, FinalMode(commit));
      } else {
        var c :| 0 <= c < |w.objs| && !Spares(w, t, c);
        FinishFreesCursor(w, t, FinalMode(commit), c);
      }
    case ResetOp(t) =>
      if w.objs[t].readOnly {
        RestartExact(w, t, TxnReset(w.objs[t].handle), Reseted);
      }
    case RenewOp(t) =>
      if w.objs[t].readOnly && w.objs[t].mode == Reseted {
        RestartExact(w, t, TxnRenew(w.objs[t].handle), Active);
      }
    case OpenCursorOp(t) => OpenCursorExact(w, t);
    case DisposeOp(i) => DisposeDisposesSubtree(w, i);
  }

  // ---------- the native rules alone ----------

  /** With a disposed parent, whose handle is null, the library begins a transaction of its own. */
  predicate MayHaveChild(w: World, p: nat)
    requires IsTxn(w.objs, p)
  {
    w.env.isOpen && (w.objs[p].handle == 0 || w.objs[p].mode == Active)
  }

  /**
    What keeps the native rules at this step: as the protocol has it, but a disposed transaction may be the parent of a
    new one, and a transaction may be finished over its open cursors; the breach is the later close of one that was
    freed.
   */
  predicate KeepsRules(w: World, op: Op)
    requires Typed(w, op)
  {
    match op
    case BeginOp(parent, _) => parent.Some? ==> MayHaveChild(w, parent.value)
    case BeginInEnvOp(p, _) => w.env.isOpen ==> MayHaveChild(w, p)
    case FinishOp(t, _) => w.objs[t].handle != 0 && SubtreeUnfinished(w, t)
    case _ => Allowed(w, op)
  }

  lemma BeginByRules(w: World, parent: Option<nat>, readOnly: bool)
    requires Good(w) && (parent.Some? ==> IsTxn(w.objs, parent.value))
    ensures Replay(NEW, Begin(w, parent, readOnly).log).Some? <==> (parent.Some? ==> MayHaveChild(w, parent.value))
  {
    hide Begin, Replay, Subscribers, Ordered, Rooted;
    var l := Replay(NEW, w.log).value;
    BeginIsAdopted(w, parent, readOnly);
    ReplayLast(NEW, w.log, BeginCall(w, parent, readOnly));
    if parent.Some? {
      assert WiredAt(w.objs, {}, parent.value);
      EntryInLedger(l, w, parent.value);
    }
  }

  lemma OpenCursorByRules(w: World, t: nat)
    requires Good(w) && IsTxn(w.objs, t)
    ensures Replay(NEW, OpenCursor(w, t).log).Some? <==> Usable(w, t) && !HasOpenChild(w, t)
  {
    hide Replay, Subscribers, Ordered, Rooted, HasChild, HasOpenChild;
    var l := Replay(NEW, w.log).value;
    ReplayLast(NEW, w.log, CursorOpen(w.objs[t].handle, |w.objs| + 1));
    assert WiredAt(w.objs, {}, t);
    EntryInLedger(l, w, t);
    ChildInLedger(l, w, t);
  }

  lemma RestartByRules(w: World, t: nat, call: Call)
    requires Good(w) && IsTxn(w.objs, t) && w.objs[t].readOnly
    requires call == TxnReset(w.objs[t].handle) || (call == TxnRenew(w.objs[t].handle) && w.objs[t].mode == Reseted)
    ensures Replay(NEW, w.log + [call]).Some? <==> Restartable(w, t)
  {
    hide Replay, Subscribers, Ordered, Rooted, HasChild, HasOpenChild;
    var l := Replay(NEW, w.log).value;
    ReplayLast(NEW, w.log, call);
    assert WiredAt(w.objs, {}, t);
    EntryInLedger(l, w, t);
    ChildInLedger(l, w, t);
  }

  /** One step from good order keeps the native rules if, and only if, `KeepsRules` holds. */
  lemma {:induction false} RulesExactly(w: World, op: Op)
    requires Good(w) && Typed(w, op)
    ensures Replay(NEW, Step(w, op).log).Some? <==> KeepsRules(w, op)
  {
    hide Replay, Wired, Fits, Apply, SubtreeUnfinished, HasOpenChild, Begin, OpenCursor, FinishTxn, Dispose, DisposeEnv;
    match op
    case OpenEnvOp => ReplayLast(NEW, w.log, EnvOpen(w.env.handle)); OpenByRules(w);
    case DisposeEnvOp => DisposeEnvIsGood(w);
    case BeginOp(parent, readOnly) => BeginByRules(w, parent, readOnly);
    case BeginInEnvOp(p, readOnly) => BeginByRules(w, Some(p), readOnly);
    case FinishOp(t, commit) =>
      if w.objs[t].handle == 0 {
        FinishOfDisposedBreaksRules(w, t, FinalMode(commit));
      } else if SubtreeUnfinished(w, t) {
        FinishLedger(w, t, FinalMode(commit));
      } else {
        FinishBreaksRules(w, t, FinalMode(commit));
      }
    case ResetOp(t) =>
      if w.objs[t].readOnly {
        RestartByRules(w, t, TxnReset(w.objs[t].handle));
      }
    case RenewOp(t) =>
      if w.objs[t].readOnly && w.objs[t].mode == Reseted {
        RestartByRules(w, t, TxnRenew(w.objs[t].handle));
      }
    case OpenCursorOp(t) => OpenCursorByRules(w, t);
    case DisposeOp(i) => DisposeDisposesSubtree(w, i);
  }

  lemma OpenByRules(w: World)
    requires Good(w)
    ensures Replay(NEW, OpenEnv(w).log).Some? <==> w.env.isOpen || w.env.handle != 0
  {
    hide Replay, Wired;
    ReplayLast(NEW, w.log, EnvOpen(w.env.handle));
  }

  /**
    A step keeps the rules and yet leaves good order exactly if it begins a child of a disposed parent, or frees a
    cursor whose object is still to close it.
   */
  lemma RulesButNotOrder(w: World, op: Op)
    requires Good(w) && Typed(w, op)
    ensures Replay(NEW, Step(w, op).log).Some? && !Good(Step(w, op)) <==>
      match op
      case BeginOp(parent, _) => parent.Some? && w.env.isOpen && w.objs[parent.value].handle == 0
      case BeginInEnvOp(p, _) => w.env.isOpen && w.objs[p].handle == 0
      case FinishOp(t, _) => w.objs[t].handle != 0 && SubtreeUnfinished(w, t) && !CursorsSpared(w, t)
      case _ => false
  {
    hide Good, Step, Replay, SubtreeUnfinished, CursorsSpared, HasOpenChild;
    ProtocolIsExact(w, op);
    RulesExactly(w, op);
    LiveMeansOpen(w);
  }

  lemma LiveMeansOpen(w: World)
    requires Good(w)
    ensures forall i :: 0 <= i < |w.objs| && w.objs[i].handle != 0 ==> w.env.isOpen
  {
  }

  ghost predicate Follows(w: World, ops: seq<Op>)
    requires Ordered(w)
    decreases |ops|
  {
    ops == [] || (Typed(w, ops[0]) && Allowed(w, ops[0]) && Follows(Step(w, ops[0]), ops[1..]))
  }

  ghost function After(w: World, ops: seq<Op>): World
    requires Ordered(w) && Follows(w, ops)
    decreases |ops|
  {
    if ops == [] then w else After(Step(w, ops[0]), ops[1..])
  }

  lemma {:induction false} RunIsGood(w: World, ops: seq<Op>)
    requires Good(w) && Follows(w, ops)
    ensures Good(After(w, ops))
    decreases |ops|
  {
    if ops != [] {
      ProtocolIsExact(w, ops[0]);
      RunIsGood(Step(w, ops[0]), ops[1..]);
    }
  }

  /**
    In every run that follows the protocol, each native transaction handle is committed or aborted at most once
    and each cursor handle is closed at most once, and only after it was handed out.
    A run that has disposed the environment has finished every handle exactly as often as it was handed out: once.
   */
  lemma HandlesFinishedOnce(ops: seq<Op>, h: nat)
    requires Follows(INIT, ops)
    ensures var log := After(INIT, ops).log;
      && FinishCount(log, h) <= BeginCount(log, h) <= 1
      && CloseCount(log, h) <= OpenCount(log, h) <= 1
      && (After(INIT, ops).env.handle == 0 ==>
           FinishCount(log, h) == BeginCount(log, h) && CloseCount(log, h) == OpenCount(log, h))
  {
    hide Replay, Follows, After, Wired;
    InitIsGood();
    RunIsGood(INIT, ops);
    var w := After(INIT, ops);
    HandlesConserved(NEW, w.log, h);
    if w.env.handle == 0 {
      assert !Owes(w.objs, h) && !OwesCursor(w.objs, h);
    }
  }

  /**
    The environment's own handle is made by the constructor. In every run it is closed once the environment is disposed
    if it was opened, and not otherwise: an environment that is disposed without having been opened keeps it.
   */
  lemma {:induction false} EnvClosedIffOpened(ops: seq<Op>)
    requires Follows(INIT, ops)
    ensures var w := After(INIT, ops);
      && EnvOpenCount(w.log) <= 1
      && EnvCloseCount(w.log) == (if w.env.handle == 0 then EnvOpenCount(w.log) else 0)
  {
    hide Replay, Follows, After, Wired;
    InitIsGood();
    RunIsGood(INIT, ops);
    EnvConserved(NEW, After(INIT, ops).log);
  }

  // ---------- runs outside the protocol ----------

  lemma RunCons(w: World, op: Op, rest: seq<Op>)
    requires Ordered(w) && Typed(w, op) && Allowed(w, op) && Follows(Step(w, op), rest)
    ensures Follows(w, [op] + rest) && After(w, [op] + rest) == After(Step(w, op), rest)
  {
    hide Step, Allowed, Typed;
    assert ([op] + rest)[1..] == rest;
  }

  lemma RunOf3(w0: World, a: Op, w1: World, b: Op, w2: World, c: Op, w3: World)
    requires Ordered(w0) && Typed(w0, a) && Allowed(w0, a) && Step(w0, a) == w1
    requires Typed(w1, b) && Allowed(w1, b) && Step(w1, b) == w2
    requires Typed(w2, c) && Allowed(w2, c) && Step(w2, c) == w3
    ensures Follows(w0, [a, b, c]) && After(w0, [a, b, c]) == w3
  {
    hide Step, Allowed, Typed;
    RunCons(w2, c, []);
    RunCons(w1, b, [c] + []);
    RunCons(w0, a, [b] + ([c] + []));
    assert [a] + ([b] + ([c] + [])) == [a, b, c];
  }

  const OPENED := World(Env(1, true, []), [], [EnvOpen(1)])

  const BEGUN := World(
    Env(1, true, [0]), [Txn(1, Active, false, None, [], [])], [EnvOpen(1)] + [TxnBegin(1, 0, false, 1)])

  /** A transaction and its child, both active. */
  const NESTED := World(
    Env(1, true, [0, 1]),
    [Txn(1, Active, false, None, [1], [1]), Txn(2, Active, false, Some(0), [], [])],
    [EnvOpen(1)] + [TxnBegin(1, 0, false, 1)] + [TxnBegin(1, 1, false, 2)])

  /** An active write transaction with a cursor. */
  const CURSORED := World(
    Env(1, true, [0]),
    [Txn(1, Active, false, None, [1], []), Cursor(2, 0)],
    [EnvOpen(1)] + [TxnBegin(1, 0, false, 1)] + [CursorOpen(1, 2)])

  lemma BegunIsReached()
    ensures Ordered(INIT) && OpenEnv(INIT) == OPENED && Ordered(OPENED) && Begin(OPENED, None, false) == BEGUN
  {
    assert INIT.log + [EnvOpen(1)] == [EnvOpen(1)];
    assert Begin(OPENED, None, false).objs == BEGUN.objs;
    assert OPENED.env.disposing + [0] == [0];
  }

  lemma NestedIsReached()
    ensures Follows(INIT, [OpenEnvOp, BeginOp(None, false), BeginOp(Some(0), false)])
    ensures After(INIT, [OpenEnvOp, BeginOp(None, false), BeginOp(Some(0), false)]) == NESTED
  {
    BegunIsReached();
    var child := Txn(2, Active, false, Some(0), [], []);
    assert BEGUN.objs[0].disposing + [1] == [1] && BEGUN.objs[0].stateChanging + [1] == [1];
    assert Adopt(BEGUN.objs, child) == [Txn(1, Active, false, None, [1], [1])];
    assert Begin(BEGUN, Some(0), false) == NESTED;
    RunOf3(INIT, OpenEnvOp, OPENED, BeginOp(None, false), BEGUN, BeginOp(Some(0), false), NESTED);
  }

  lemma CursoredIsReached()
    ensures Follows(INIT, [OpenEnvOp, BeginOp(None, false), OpenCursorOp(0)])
    ensures After(INIT, [OpenEnvOp, BeginOp(None, false), OpenCursorOp(0)]) == CURSORED
  {
    BegunIsReached();
    assert BEGUN.objs[0].disposing + [1] == [1];
    assert Adopt(BEGUN.objs, Cursor(2, 0)) == [Txn(1, Active, false, None, [1], [])];
    assert OpenCursor(BEGUN, 0) == CURSORED;
    assert forall i :: 0 <= i < |BEGUN.objs| ==> !IsOpenChild(BEGUN.objs, i, 0);
    RunOf3(INIT, OpenEnvOp, OPENED, BeginOp(None, false), BEGUN, OpenCursorOp(0), CURSORED);
  }

  /** After a run that follows the protocol, a child is begun of a disposed parent: by the rules, but not in order. */
  lemma {:induction false} ChildOfDisposedParent(readOnly: bool)
    ensures Follows(INIT, [OpenEnvOp, BeginOp(None, false), DisposeOp(0)])
    ensures var w := After(INIT, [OpenEnvOp, BeginOp(None, false), DisposeOp(0)]);
      && Typed(w, BeginOp(Some(0), readOnly)) && w.objs[0].handle == 0
      && Replay(NEW, Begin(w, Some(0), readOnly).log).Some? && !Good(Begin(w, Some(0), readOnly))
  {
    hide Good, Replay, Follows, After, Begin, Dispose, Subtree;
    BegunIsReached();
    InitIsGood();
    ProtocolIsExact(INIT, OpenEnvOp);
    ProtocolIsExact(OPENED, BeginOp(None, false));
    var w := Dispose(BEGUN, 0);
    DisposeDisposesSubtree(BEGUN, 0);
    assert Under(Forest(BEGUN.objs), 0, 0) && SameObject(BEGUN.objs[0], w.objs[0]);
    RunOf3(INIT, OpenEnvOp, OPENED, BeginOp(None, false), BEGUN, DisposeOp(0), w);
    RulesButNotOrder(w, BeginOp(Some(0), readOnly));
  }

  /**
    The library frees the cursors of a write transaction when it ends; the wrapper does not dispose their objects.
    When one is disposed after the commit, it closes a cursor that is freed already.
   */
  lemma {:induction false} CursorClosedAfterCommit()
    ensures Follows(INIT, [OpenEnvOp, BeginOp(None, false), OpenCursorOp(0)])
    ensures After(INIT, [OpenEnvOp, BeginOp(None, false), OpenCursorOp(0)]) == CURSORED
    ensures var r := CommitTxn(CURSORED, 0);
      && Replay(NEW, r.log).Some? && 1 < |r.objs|
      && Dispose(r, 1).log == CURSORED.log + [TxnCommit(1)] + [CursorClose(2)]
      && Replay(NEW, Dispose(r, 1).log).None?
  {
    hide Good, Replay, Follows, After, CommitTxn, Dispose;
    CursoredIsReached();
    InitIsGood();
    RunIsGood(INIT, [OpenEnvOp, BeginOp(None, false), OpenCursorOp(0)]);
    CursoredTree();
    FinishLedger(CURSORED, 0, Commited);
    FinishIsPostOrder(CURSORED, 0, Commited);
    assert CURSORED.log + [] + [TxnCommit(1)] == CURSORED.log + [TxnCommit(1)];
    FinishFreesCursor(CURSORED, 0, Commited, 1);
    assert CloseCount([], 2) == 0 && [CursorClose(2)][1..] == [];
    assert CloseCount([CursorClose(2)], 2) == 1;
  }

  lemma CursoredTree()
    ensures Rooted(Forest(CURSORED.objs)) && SubtreeUnfinished(CURSORED, 0) && !Spares(CURSORED, 0, 1)
    ensures Aborts(Below(Forest(CURSORED.objs), true, 0)) == []
  {
    var f := Forest(CURSORED.objs);
    assert f == [Node(true, None, true), Node(false, Some(0), true)];
    assert RootedAt(f, 0) && RootedAt(f, 1) && Under(f, 0, 0);
    assert forall i :: 0 <= i < 2 ==> !Heard(f, {}, StateChangingOf(0), i);
    SubscribersNone(f, {}, StateChangingOf(0), 2);
    assert Children(f, true, 0) == [];
    assert Below(f, true, 0) == [];
  }

  /**
    The wrapper does not look at the state before it finishes a transaction: when a child is committed and
    then, before it is disposed, its parent, the parent's announcement aborts the child's handle again.
   */
  lemma CommittedChildIsAbortedAgain()
    ensures Follows(INIT, [OpenEnvOp, BeginOp(None, false), BeginOp(Some(0), false)])
    ensures After(INIT, [OpenEnvOp, BeginOp(None, false), BeginOp(Some(0), false)]) == NESTED && Ordered(NESTED)
    ensures CommitTxn(CommitTxn(NESTED, 1), 0).log == NESTED.log + [TxnCommit(2)] + [TxnAbort(2)] + [TxnCommit(1)]
    ensures FinishCount(NESTED.log + [TxnCommit(2)] + [TxnAbort(2)] + [TxnCommit(1)], 2) == 2
  {
    hide Follows, After;
    NestedIsReached();
    CommitOfChild();
    var w3 := Logged(SetMode(NESTED, 1, Commited), TxnCommit(2));
    CommitOfParent(w3);
    CountTwo([EnvOpen(1)], [TxnBegin(1, 0, false, 1)], [TxnBegin(1, 1, false, 2)]);
  }

  lemma CommitOfChild()
    ensures Ordered(NESTED) && CommitTxn(NESTED, 1) == Logged(SetMode(NESTED, 1, Commited), TxnCommit(2))
  {
  }

  lemma CommitOfParent(w3: World)
    requires w3 == Logged(SetMode(NESTED, 1, Commited), TxnCommit(2))
    ensures Ordered(w3) && CommitTxn(w3, 0).log == NESTED.log + [TxnCommit(2)] + [TxnAbort(2)] + [TxnCommit(1)]
  {
    var r0 := SetMode(w3, 0, Commited);
    assert Ordered(w3) && Ordered(r0);
    AbortOfChild(r0);
    assert [1][1..] == [];
    assert AbortEach(r0, [1], 1) == AbortTxn(r0, 1);
  }

  lemma AbortOfChild(r0: World)
    requires r0.objs == [Txn(1, Commited, false, None, [1], [1]), Txn(2, Commited, false, Some(0), [], [])]
      && Ordered(r0)
    ensures AbortTxn(r0, 1) == Logged(SetMode(r0, 1, Aborted), TxnAbort(2))
  {
  }

  lemma CountTwo(a: seq<Call>, b: seq<Call>, c: seq<Call>)
    requires FinishCount(a, 2) == 0 && FinishCount(b, 2) == 0 && FinishCount(c, 2) == 0
    ensures FinishCount(a + b + c + [TxnCommit(2)] + [TxnAbort(2)] + [TxnCommit(1)], 2) == 2
  {
    FinishCountAppend(a, b, 2);
    FinishCountAppend(a + b, c, 2);
    FinishCountAppend(a + b + c, [TxnCommit(2)], 2);
    FinishCountAppend(a + b + c + [TxnCommit(2)], [TxnAbort(2)], 2);
    FinishCountAppend(a + b + c + [TxnCommit(2)] + [TxnAbort(2)], [TxnCommit(1)], 2);
  }

  lemma {:induction false} FinishCountAppend(a: seq<Call>, b: seq<Call>, h: nat)
    ensures FinishCount(a + b, h) == FinishCount(a, h) + FinishCount(b, h)
    decreases |a|
  {
    if a == [] {
      assert a + b == b;
    } else {
      assert (a + b)[1..] == a[1..] + b;
      FinishCountAppend(a[1..], b, h);
    }
  }
}
