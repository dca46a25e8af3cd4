/**
  The rules under which the native library may be called: a ledger of the handles it has handed out and
  not taken back. A call on a handle that is not in the ledger breaks the rules. So does

  - ending a transaction that still has a child (stricter than the library, which admits a commit or an abort there),
    or closing the environment over anything left open;
  - closing a cursor of a write transaction after that has ended, which has freed it already, while a cursor of
    a read-only transaction stays to be closed;
  - opening a cursor on, resetting or renewing a transaction that has a child;
  - opening a cursor on a transaction that is reset, or beginning a child of one; renewing one that is not reset.

  Beginning a second child beside an unfinished one is admitted, as the wrapper's documentation has it, and so is
  closing a cursor at any time before its transaction ends.
 */
module NativeLedger {
  import opened Wrappers
  import opened Lifetimes

  datatype EnvStatus = Created | Opened | Closed

  datatype Entry = Entry(parent: nat, readOnly: bool, isReset: bool)

  /**
    `txns` holds each transaction that has not ended, with its parent, 0 for none; `cursors` maps each cursor that is
    to be closed to its transaction, and `freed` are those that the end of their transaction has freed instead.
    Handles are never used twice.
   */
  datatype Ledger = Ledger(env: EnvStatus, used: nat, txns: map<nat, Entry>, cursors: map<nat, nat>, freed: set<nat>)

  const NEW := Ledger(Created, 0, map[], map[], {})

  predicate HasChild(l: Ledger, h: nat) {
    exists c :: c in l.txns && l.txns[c].parent == h
  }

  function Apply(l: Ledger, c: Call): Option<Ledger> {
    match c
    case EnvOpen(e) =>
      if e != 0 && l.env == Created then Some(l.(env := Opened)) else None
    case EnvClose(e) =>
      if l.env == Opened && l.txns == map[] && l.cursors == map[] then Some(l.(env := Closed)) else None
    case TxnBegin(e, p, readOnly, h) =>
      if l.env == Opened && (p == 0 || (p in l.txns && !l.txns[p].isReset)) && h > l.used
      then Some(l.(used := h, txns := l.txns[h := Entry(p, readOnly, false)])) else None
    case TxnCommit(h) => Finish(l, h)
    case TxnAbort(h) => Finish(l, h)
    case TxnReset(h) =>
      if h in l.txns && l.txns[h].readOnly && !HasChild(l, h)
      then Some(l.(txns := l.txns[h := l.txns[h].(isReset := true)])) else None
    case TxnRenew(h) =>
      if h in l.txns && l.txns[h].isReset && !HasChild(l, h)
      then Some(l.(txns := l.txns[h := l.txns[h].(isReset := false)])) else None
    case CursorOpen(h, c) =>
      if h in l.txns && !l.txns[h].isReset && !HasChild(l, h) && c > l.used
      then Some(l.(used := c, cursors := l.cursors[c := h])) else None
    case CursorClose(c) =>
      if c in l.cursors then Some(l.(cursors := l.cursors - {c})) else None
  }

  function Finish(l: Ledger, h: nat): Option<Ledger> {
    if h in l.txns && !HasChild(l, h) then Some(EndTxns(l, {h})) else None
  }

  /** The cursors that the write transactions among `hs` free when they end. */
  function Freed(l: Ledger, hs: set<nat>): set<nat> {
    set c | c in l.cursors && l.cursors[c] in hs && l.cursors[c] in l.txns && !l.txns[l.cursors[c]].readOnly
  }

  function EndTxns(l: Ledger, hs: set<nat>): Ledger {
    l.(txns := l.txns - hs, cursors := l.cursors - Freed(l, hs), freed := l.freed + Freed(l, hs))
  }

  lemma EndTwice(l: Ledger, a: set<nat>, b: set<nat>)
    ensures EndTxns(EndTxns(l, a), b) == EndTxns(l, a + b)
  {
    var l1 := EndTxns(l, a);
    assert Freed(l, a + b) == Freed(l, a) + Freed(l1, b);
    assert l1.txns - b == l.txns - (a + b);
    assert l1.cursors - Freed(l1, b) == l.cursors - Freed(l, a + b);
  }

  lemma EndNone(l: Ledger)
    ensures EndTxns(l, {}) == l
  {
    assert Freed(l, {}) == {} && l.txns - {} == l.txns && l.cursors - {} == l.cursors;
  }

  function Replay(l: Ledger, calls: seq<Call>): Option<Ledger>
    decreases |calls|
  {
    if calls == [] then Some(l)
    else
      match Apply(l, calls[0])
      case None => None
      case Some(l') => Replay(l', calls[1..])
  }

  predicate Sane(l: Ledger) {
    && (forall h :: h in l.txns ==> h <= l.used)
    && (forall c :: c in l.cursors ==> c <= l.used && c !in l.freed)
    && (forall c :: c in l.freed ==> c <= l.used)
  }

  lemma {:induction false} ReplayAppend(l: Ledger, a: seq<Call>, b: seq<Call>)
    ensures Replay(l, a + b) == (match Replay(l, a) case None => None case Some(m) => Replay(m, b))
    decreases |a|
  {
    if a == [] {
      assert a + b == b;
    } else {
      assert (a + b)[1..] == a[1..] + b;
      match Apply(l, a[0])
      case None =>
      case Some(m) => ReplayAppend(m, a[1..], b);
    }
  }

  lemma ReplayLast(l: Ledger, a: seq<Call>, c: Call)
    ensures Replay(l, a + [c]) == (match Replay(l, a) case None => None case Some(m) => Apply(m, c))
  {
    ReplayAppend(l, a, [c]);
    match Replay(l, a)
    case None =>
    case Some(m) =>
      assert [c][1..] == [];
      match Apply(m, c)
      case None =>
      case Some(n) => assert Replay(n, []) == Some(n);
  }

  function One(b: bool): nat {
    if b then 1 else 0
  }

  predicate Finishes(c: Call, h: nat) {
    c == TxnCommit(h) || c == TxnAbort(h)
  }

  function FinishCount(calls: seq<Call>, h: nat): nat {
    if calls == [] then 0 else One(Finishes(calls[0], h)) + FinishCount(calls[1..], h)
  }

  function CloseCount(calls: seq<Call>, c: nat): nat {
    if calls == [] then 0 else One(calls[0] == CursorClose(c)) + CloseCount(calls[1..], c)
  }

  function BeginCount(calls: seq<Call>, h: nat): nat {
    if calls == [] then 0 else One(calls[0].TxnBegin? && calls[0].txn == h) + BeginCount(calls[1..], h)
  }

  function OpenCount(calls: seq<Call>, c: nat): nat {
    if calls == [] then 0 else One(calls[0].CursorOpen? && calls[0].cursor == c) + OpenCount(calls[1..], c)
  }

  function EnvOpenCount(calls: seq<Call>): nat {
    if calls == [] then 0 else One(calls[0].EnvOpen?) + EnvOpenCount(calls[1..])
  }

  function EnvCloseCount(calls: seq<Call>): nat {
    if calls == [] then 0 else One(calls[0].EnvClose?) + EnvCloseCount(calls[1..])
  }

  /**
    Conservation of handles: a transaction in the ledger or handed out is ended or still in the ledger; a cursor
    is closed, freed by the end of its transaction or still in the ledger; and no handle is handed out twice.
    So none is ended, closed or freed twice either.
   */
  lemma {:induction false} HandlesConserved(l: Ledger, calls: seq<Call>, h: nat)
    requires Sane(l) && Replay(l, calls).Some?
    ensures var l' := Replay(l, calls).value;
      && One(h in l.txns) + BeginCount(calls, h) == FinishCount(calls, h) + One(h in l'.txns)
      && One(h in l.cursors) + One(h in l.freed) + OpenCount(calls, h)
           == CloseCount(calls, h) + One(h in l'.freed) + One(h in l'.cursors)
    ensures BeginCount(calls, h) + OpenCount(calls, h) <= One(h > l.used)
    decreases |calls|
  {
    hide Apply;
    if calls != [] {
      CallConserves(l, calls[0], h);
      HandlesConserved(Apply(l, calls[0]).value, calls[1..], h);
    }
  }

  lemma CallConserves(l: Ledger, call: Call, h: nat)
    requires Sane(l) && Apply(l, call).Some?
    ensures var l' := Apply(l, call).value;
      && Sane(l') && l'.used >= l.used && l.freed <= l'.freed
      && One(h in l.txns) + One(call.TxnBegin? && call.txn == h) == One(Finishes(call, h)) + One(h in l'.txns)
      && One(h in l.cursors) + One(h in l.freed) + One(call.CursorOpen? && call.cursor == h)
           == One(call == CursorClose(h)) + One(h in l'.freed) + One(h in l'.cursors)
      && ((call.TxnBegin? && call.txn == h) || (call.CursorOpen? && call.cursor == h) ==> l.used < h <= l'.used)
  {
  }

  lemma {:induction false} ReplayIsSane(l: Ledger, calls: seq<Call>)
    requires Sane(l) && Replay(l, calls).Some?
    ensures Sane(Replay(l, calls).value)
    decreases |calls|
  {
    hide Apply, Sane;
    if calls != [] {
      CallConserves(l, calls[0], 0);
      ReplayIsSane(Apply(l, calls[0]).value, calls[1..]);
    }
  }

  /** A cursor that was freed is never closed by calls that keep the rules. */
  lemma {:induction false} FreedForGood(l: Ledger, calls: seq<Call>, c: nat)
    requires Sane(l) && c in l.freed
    ensures Replay(l, calls).Some? ==> CloseCount(calls, c) == 0
    decreases |calls|
  {
    hide Apply;
    if calls != [] && Apply(l, calls[0]).Some? {
      CallConserves(l, calls[0], c);
      FreedForGood(Apply(l, calls[0]).value, calls[1..], c);
    }
  }

  /** The environment is opened at most once, and closed only after that, at most once. */
  lemma {:induction false} EnvConserved(l: Ledger, calls: seq<Call>)
    requires Replay(l, calls).Some?
    ensures var l' := Replay(l, calls).value;
      && One(l.env != Created) + EnvOpenCount(calls) == One(l'.env != Created)
      && One(l.env == Closed) + EnvCloseCount(calls) == One(l'.env == Closed)
    decreases |calls|
  {
    if calls != [] {
      EnvConserved(Apply(l, calls[0]).value, calls[1..]);
    }
  }

  predicate IsOpenTxn(calls: seq<Call>, h: nat) {
    BeginCount(calls, h) == 1 && FinishCount(calls, h) == 0
  }

  /**
    What the rules demand, in terms of the calls made before: a transaction is finished, reset, renewed or given a
    cursor or a child only between its begin and its end; a cursor is closed only once; new handles are new; the
    environment is closed once, after it was opened and when every transaction begun has ended and every cursor is
    closed or freed.
   */
  lemma {:induction false} CallsUseOpenHandles(calls: seq<Call>, c: Call)
    requires Replay(NEW, calls + [c]).Some?
    ensures Replay(NEW, calls).Some?
    ensures match c
      case EnvOpen(e) => e != 0 && EnvOpenCount(calls) == 0
      case EnvClose(_) =>
        && EnvOpenCount(calls) == 1 && EnvCloseCount(calls) == 0
        && forall h :: BeginCount(calls, h) == FinishCount(calls, h)
             && OpenCount(calls, h) == CloseCount(calls, h) + One(h in Replay(NEW, calls).value.freed)
      case TxnBegin(_, p, _, h) =>
        && EnvOpenCount(calls) == 1 && EnvCloseCount(calls) == 0
        && BeginCount(calls, h) == OpenCount(calls, h) == 0 && (p == 0 || IsOpenTxn(calls, p))
      case TxnCommit(h) => IsOpenTxn(calls, h)
      case TxnAbort(h) => IsOpenTxn(calls, h)
      case TxnReset(h) => IsOpenTxn(calls, h)
      case TxnRenew(h) => IsOpenTxn(calls, h)
      case CursorOpen(h, x) => IsOpenTxn(calls, h) && BeginCount(calls, x) == OpenCount(calls, x) == 0
      case CursorClose(x) => OpenCount(calls, x) == 1 && CloseCount(calls, x) == 0
  {
    hide Replay, HasChild;
    ReplayLast(NEW, calls, c);
    var l := Replay(NEW, calls).value;
    EnvConserved(NEW, calls);
    forall h: nat
      ensures BeginCount(calls, h) == FinishCount(calls, h) + One(h in l.txns)
      ensures OpenCount(calls, h) == CloseCount(calls, h) + One(h in l.freed) + One(h in l.cursors)
      ensures BeginCount(calls, h) + OpenCount(calls, h) <= 1
    {
      HandlesConserved(NEW, calls, h);
    }
    if c.TxnBegin? || c.CursorOpen? {
      HandlesConserved(NEW, calls + [c], if c.TxnBegin? then c.txn else c.cursor);
      CountsAppend(calls, c, if c.TxnBegin? then c.txn else c.cursor);
    }
  }

  lemma {:induction false} CountsAppend(calls: seq<Call>, c: Call, h: nat)
    ensures BeginCount(calls + [c], h) == BeginCount(calls, h) + One(c.TxnBegin? && c.txn == h)
    ensures OpenCount(calls + [c], h) == OpenCount(calls, h) + One(c.CursorOpen? && c.cursor == h)
    decreases |calls|
  {
    if calls != [] {
      assert (calls + [c])[1..] == calls[1..] + [c];
      CountsAppend(calls[1..], c, h);
    } else {
      assert [c][1..] == [];
    }
  }
}
