/**
  The C++ wrappers that own a native handle: environments, transactions and cursors, movable and not copyable.

  `State` lists the wrappers of a program, the native handles made so far and the native calls; `Next` says what
  each operation does. `Owner` and `Program` are the code, in which moves swap the handles of two objects in place.
 */
module HandleOwners {
  import opened Wrappers

  datatype Kind = EnvKind | TxnKind | CursorKind

  datatype How = Closed | Committed | Aborted

  datatype Call =
    | Made(kind: Kind, number: nat)
    | Ended(how: How, kind: Kind, handle: Option<nat>)

  /** A wrapper that is not alive has been destroyed. */
  datatype Slot = Slot(kind: Kind, alive: bool, handle: Option<nat>)

  /** Handle `h` is of kind `made[h]`. */
  datatype State = State(slots: seq<Slot>, made: seq<Kind>, log: seq<Call>)

  const INIT := State([], [], [])

  datatype Op =
    | Create(kind: Kind, fails: bool)  // fails: the flags of a new environment are refused
    | MoveConstruct(from: nat)
    | MoveAssign(to: nat, from: nat)
    | Close(i: nat)
    | Abort(i: nat)
    | Commit(i: nat)
    | Destroy(i: nat)

  predicate Alive(slots: seq<Slot>, i: nat) {
    i < |slots| && slots[i].alive
  }

  predicate Enabled(s: State, op: Op) {
    match op
    case Create(kind, fails) => fails ==> kind == EnvKind
    case MoveConstruct(from) => Alive(s.slots, from)
    case MoveAssign(to, from) => Alive(s.slots, to) && Alive(s.slots, from) && s.slots[to].kind == s.slots[from].kind
    case Close(i) => Alive(s.slots, i) && s.slots[i].kind != TxnKind
    case Abort(i) => Alive(s.slots, i) && s.slots[i].kind == TxnKind
    case Commit(i) => Alive(s.slots, i) && s.slots[i].kind == TxnKind
    case Destroy(i) => Alive(s.slots, i)
  }

  /** The native call that ends what wrapper `i` owns; the wrapper is left with the null handle. */
  function Release(s: State, i: nat, how: How): State
    requires i < |s.slots|
  {
    s.(slots := s.slots[i := s.slots[i].(handle := None)],
       log := s.log + [Ended(how, s.slots[i].kind, s.slots[i].handle)])
  }

  function Next(s: State, op: Op): State
    requires Enabled(s, op)
  {
    match op
    case Create(kind, fails) =>
      var h := |s.made|;
      if fails then State(s.slots, s.made + [kind], s.log + [Made(kind, h), Ended(Closed, kind, Some(h))])
      else State(s.slots + [Slot(kind, true, Some(h))], s.made + [kind], s.log + [Made(kind, h)])
    case MoveConstruct(from) =>
      s.(slots := s.slots[from := s.slots[from].(handle := None)] + [s.slots[from]])
    case MoveAssign(to, from) =>
      s.(slots := s.slots[to := s.slots[from]][from := s.slots[to]])
    case Close(i) => if s.slots[i].handle.None? then s else Release(s, i, Closed)
    case Abort(i) => Release(s, i, Aborted)
    case Commit(i) => if s.slots[i].handle.None? then s else Release(s, i, Committed)  // a null handle: throws
    case Destroy(i) =>
      var r := if s.slots[i].handle.None? then s
        else Release(s, i, if s.slots[i].kind == TxnKind then Aborted else Closed);
      r.(slots := r.slots[i := r.slots[i].(alive := false)])
  }

  // ---------- the code ----------

  class Owner {
    const kind: Kind
    var handle: Option<nat>
    var alive: bool

    function View(): Slot
      reads this
    {
      Slot(kind, alive, handle)
    }

    constructor (kind: Kind, handle: Option<nat>)
      ensures View() == Slot(kind, true, handle)
    {
      this.kind, this.handle, alive := kind, handle, true;
    }

    /** The move constructor: the new wrapper starts with the null handle, and swaps. */
    constructor Moved(other: Owner)
      modifies other
      ensures View() == Slot(other.kind, true, old(other.handle))
      ensures other.View() == old(other.View()).(handle := None)
    {
      kind, handle, alive := other.kind, None, true;
      new;
      handle, other.handle := other.handle, handle;
    }

    method Assign(other: Owner)
      modifies this, other
      ensures handle == old(other.handle) && other.handle == old(handle)
      ensures alive == old(alive) && other.alive == old(other.alive)
    {
      if this != other {
        handle, other.handle := other.handle, handle;
      }
    }
  }

  class Program {
    var owners: seq<Owner>
    var made: seq<Kind>
    var log: seq<Call>

    ghost predicate Valid()
      reads this
    {
      forall i, j :: 0 <= i < j < |owners| ==> owners[i] != owners[j]
    }

    function Slots(): seq<Slot>
      reads this, owners
    {
      seq(|owners|, i requires 0 <= i < |owners| reads this, owners => owners[i].View())
    }

    function View(): State
      reads this, owners
    {
      State(Slots(), made, log)
    }

    constructor ()
      ensures Valid() && View() == INIT
    {
      owners, made, log := [], [], [];
    }

    /** `create`, `begin` or `open`; `threw` when the native library refuses the flags of an environment. */
    method Construct(kind: Kind, fails: bool) returns (threw: bool)
      requires Valid() && Enabled(View(), Create(kind, fails))
      modifies this
      ensures Valid() && View() == Next(old(View()), Create(kind, fails)) && threw == fails
      ensures forall o :: o in owners && o !in old(owners) ==> fresh(o)
    {
      var h := |made|;
      made, log := made + [kind], log + [Made(kind, h)];
      if fails {
        log := log + [Ended(Closed, kind, Some(h))];
        assert Slots() == old(Slots());
        return true;
      }
      var owner := new Owner(kind, Some(h));
      owners := owners + [owner];
      assert Slots() == old(Slots()) + [Slot(kind, true, Some(h))];
      return false;
    }

    method ConstructByMove(from: nat)
      requires Valid() && Enabled(View(), MoveConstruct(from))
      modifies this, owners
      ensures Valid() && View() == Next(old(View()), MoveConstruct(from))
      ensures forall o :: o in owners && o !in old(owners) ==> fresh(o)
    {
      var owner := new Owner.Moved(owners[from]);
      owners := owners + [owner];
      assert Slots() == Next(old(View()), MoveConstruct(from)).slots;
    }

    method AssignByMove(to: nat, from: nat)
      requires Valid() && Enabled(View(), MoveAssign(to, from))
      modifies owners
      ensures Valid() && View() == Next(old(View()), MoveAssign(to, from))
    {
      owners[to].Assign(owners[from]);
      assert Slots() == Next(old(View()), MoveAssign(to, from)).slots;
    }

    /** `close` of an environment or a cursor. */
    method CloseOwner(i: nat)
      requires Valid() && Enabled(View(), Op.Close(i))
      modifies this`log, owners
      ensures Valid() && View() == Next(old(View()), Op.Close(i))
    {
      var owner := owners[i];
      if owner.handle != None {
        log := log + [Ended(Closed, owner.kind, owner.handle)];
        owner.handle := None;
      }
      assert Slots() == Next(old(View()), Op.Close(i)).slots;
    }

    /** `abort` does not look whether there is a handle. */
    method AbortOwner(i: nat)
      requires Valid() && Enabled(View(), Op.Abort(i))
      modifies this`log, owners
      ensures Valid() && View() == Next(old(View()), Op.Abort(i))
    {
      var owner := owners[i];
      log := log + [Ended(Aborted, owner.kind, owner.handle)];
      owner.handle := None;
      assert Slots() == Next(old(View()), Op.Abort(i)).slots;
    }

    /** The native library refuses the null handle, and `commit` throws. */
    method CommitOwner(i: nat) returns (threw: bool)
      requires Valid() && Enabled(View(), Op.Commit(i))
      modifies this`log, owners
      ensures Valid() && View() == Next(old(View()), Op.Commit(i)) && threw == old(owners[i].handle).None?
    {
      var owner := owners[i];
      threw := owner.handle == None;
      if !threw {
        log := log + [Ended(Committed, owner.kind, owner.handle)];
        owner.handle := None;
      }
      assert Slots() == Next(old(View()), Op.Commit(i)).slots;
    }

    method DestroyOwner(i: nat)
      requires Valid() && Enabled(View(), Op.Destroy(i))
      modifies this`log, owners
      ensures Valid() && View() == Next(old(View()), Op.Destroy(i))
    {
      var owner := owners[i];
      if owner.kind == TxnKind {
        if owner.handle != None {
          AbortOwner(i);
        }
      } else {
        CloseOwner(i);
      }
      owner.alive := false;
      assert Slots() == Next(old(View()), Op.Destroy(i)).slots;
    }
  }
}
