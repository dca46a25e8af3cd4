/**
  The ownership forest of the objects, and the subscriber lists that the wrapper's events must hold:
  those of the live objects that listen, in the order of their creation.
 */
module LifetimeForest {
  import opened Wrappers
  import opened Lifetimes

  datatype Node = Node(isTxn: bool, owner: Option<nat>, live: bool)

  function NodeOf(o: Obj): Node {
    Node(o.Txn?, Owner(o), o.handle != 0)
  }

  function Forest(objs: seq<Obj>): seq<Node> {
    seq(|objs|, i requires 0 <= i < |objs| => NodeOf(objs[i]))
  }

  predicate RootedAt(f: seq<Node>, i: nat)
    requires i < |f|
  {
    if f[i].owner.None? then f[i].isTxn
    else
      && f[i].owner.value < i && f[f[i].owner.value].isTxn
      && (f[i].live ==> f[f[i].owner.value].live)
  }

  /** Owners are older transactions, and outlive what they own; a cursor has one. */
  predicate Rooted(f: seq<Node>) {
    forall i :: 0 <= i < |f| ==> RootedAt(f, i)
  }

  /** `i` is `t` or is owned, directly or not, by `t`. */
  predicate Under(f: seq<Node>, i: nat, t: nat)
    decreases i
  {
    i == t || (i < |f| && f[i].owner.Some? && f[i].owner.value < i && Under(f, f[i].owner.value, t))
  }

  /** The live objects at and under `t`. */
  function Subtree(f: seq<Node>, t: nat): set<nat> {
    set i | 0 <= i < |f| && f[i].live && Under(f, i, t)
  }

  lemma {:induction false} UnderIsYounger(f: seq<Node>, i: nat, t: nat)
    requires Under(f, i, t)
    ensures t <= i
    decreases i
  {
    if i != t {
      UnderIsYounger(f, f[i].owner.value, t);
    }
  }

  lemma {:induction false} UnderTransitive(f: seq<Node>, i: nat, c: nat, t: nat)
    requires Under(f, i, c) && Under(f, c, t)
    ensures Under(f, i, t)
    decreases i
  {
    if i != c {
      UnderTransitive(f, f[i].owner.value, c, t);
    }
  }

  lemma {:induction false} UnderFrame(f: seq<Node>, f': seq<Node>, i: nat, t: nat)
    requires |f| == |f'| && forall j :: 0 <= j < |f| ==> f[j].owner == f'[j].owner
    ensures Under(f, i, t) == Under(f', i, t)
    decreases i
  {
    if i != t && i < |f| && f[i].owner.Some? && f[i].owner.value < i {
      UnderFrame(f, f', f[i].owner.value, t);
    }
  }

  /** What is live has only live owners above it. */
  lemma {:induction false} LiveUnderLive(f: seq<Node>, i: nat, t: nat)
    requires Rooted(f) && i < |f| && f[i].live && Under(f, i, t)
    ensures t < |f| && f[t].live && (i != t ==> f[t].isTxn)
    decreases i
  {
    if i != t {
      assert RootedAt(f, i);
      LiveUnderLive(f, f[i].owner.value, t);
    }
  }

  /** Every object strictly under `t` is at or under exactly one object that `t` owns directly. */
  lemma {:induction false} UnderViaChild(f: seq<Node>, i: nat, t: nat) returns (c: nat)
    requires Rooted(f) && i < |f| && f[i].live && Under(f, i, t) && i != t
    ensures c < |f| && f[c].live && f[c].owner == Some(t) && Under(f, i, c) && t < c <= i
    decreases i
  {
    assert RootedAt(f, i);
    var p := f[i].owner.value;
    if p == t {
      c := i;
    } else {
      c := UnderViaChild(f, p, t);
    }
  }

  lemma {:induction false} SiblingsAreDisjoint(f: seq<Node>, i: nat, a: nat, b: nat, p: nat)
    requires Rooted(f) && a < |f| && b < |f| && f[a].owner == Some(p) && f[b].owner == Some(p)
    requires Under(f, i, a) && Under(f, i, b)
    ensures a == b
    decreases i
  {
    assert RootedAt(f, a) && RootedAt(f, b);
    if i == a || i == b {
      if a != b {
        UnderIsYounger(f, p, if i == a then b else a);
      }
    } else {
      SiblingsAreDisjoint(f, f[i].owner.value, a, b, p);
    }
  }

  // ---------- subscribers ----------

  datatype Event = OfEnv | DisposingOf(p: nat) | StateChangingOf(p: nat)

  predicate Listens(n: Node, e: Event) {
    match e
    case OfEnv => n.isTxn
    case DisposingOf(p) => n.owner == Some(p)
    case StateChangingOf(p) => n.isTxn && n.owner == Some(p)
  }

  /** Objects in `busy` are being disposed: they are still live, and have unsubscribed already. */
  predicate Heard(f: seq<Node>, busy: set<nat>, e: Event, i: nat) {
    i < |f| && f[i].live && i !in busy && Listens(f[i], e)
  }

  function Subscribers(f: seq<Node>, busy: set<nat>, e: Event, n: nat): seq<nat> {
    if n == 0 then []
    else Subscribers(f, busy, e, n - 1) + (if Heard(f, busy, e, n - 1) then [n - 1] else [])
  }

  predicate Increasing(s: seq<nat>) {
    forall j, k :: 0 <= j < k < |s| ==> s[j] < s[k]
  }

  lemma {:induction false} SubscribersSound(f: seq<Node>, busy: set<nat>, e: Event, n: nat)
    ensures forall k :: 0 <= k < |Subscribers(f, busy, e, n)| ==>
              Subscribers(f, busy, e, n)[k] < n && Heard(f, busy, e, Subscribers(f, busy, e, n)[k])
    ensures Increasing(Subscribers(f, busy, e, n))
  {
    if n > 0 {
      SubscribersSound(f, busy, e, n - 1);
      var s := Subscribers(f, busy, e, n - 1);
      assert Subscribers(f, busy, e, n) == if Heard(f, busy, e, n - 1) then s + [n - 1] else s;
    }
  }

  lemma {:induction false} SubscribersComplete(f: seq<Node>, busy: set<nat>, e: Event, n: nat, x: nat) returns (k: nat)
    requires x < n && Heard(f, busy, e, x)
    ensures k < |Subscribers(f, busy, e, n)| && Subscribers(f, busy, e, n)[k] == x
  {
    if x == n - 1 {
      k := |Subscribers(f, busy, e, n - 1)|;
    } else {
      k := SubscribersComplete(f, busy, e, n - 1, x);
    }
  }

  lemma {:induction false} WithoutAbsent(s: seq<nat>, x: nat)
    requires forall k :: 0 <= k < |s| ==> s[k] != x
    ensures Without(s, x) == s
  {
    if s != [] {
      WithoutAbsent(s[..|s| - 1], x);
    }
  }

  /** Objects fall silent one by one: the list loses exactly `x`. */
  lemma {:induction false} SubscribersWithout(f: seq<Node>, busy: set<nat>, f': seq<Node>, busy': set<nat>,
                                              e: Event, n: nat, x: nat)
    requires forall i :: 0 <= i < n ==> Heard(f', busy', e, i) == (Heard(f, busy, e, i) && i != x)
    ensures Subscribers(f', busy', e, n) == Without(Subscribers(f, busy, e, n), x)
  {
    if n > 0 {
      SubscribersWithout(f, busy, f', busy', e, n - 1, x);
      var s := Subscribers(f, busy, e, n - 1);
      assert Subscribers(f', busy', e, n - 1) == Without(s, x);
      if Heard(f, busy, e, n - 1) {
        assert Subscribers(f, busy, e, n) == s + [n - 1];
        assert (s + [n - 1])[..|s|] == s;
        if n - 1 == x {
          SubscribersSound(f, busy, e, n - 1);
          WithoutAbsent(s, x);
          assert Without(s + [n - 1], x) == s;
          assert !Heard(f', busy', e, n - 1);
        } else {
          assert Without(s + [n - 1], x) == Without(s, x) + [n - 1];
          assert Heard(f', busy', e, n - 1);
        }
      } else {
        assert Subscribers(f, busy, e, n) == s;
        assert !Heard(f', busy', e, n - 1);
      }
    }
  }

  lemma {:induction false} SubscribersFrame(f: seq<Node>, busy: set<nat>, f': seq<Node>, busy': set<nat>,
                                            e: Event, n: nat)
    requires forall i :: 0 <= i < n ==> Heard(f', busy', e, i) == Heard(f, busy, e, i)
    ensures Subscribers(f', busy', e, n) == Subscribers(f, busy, e, n)
  {
    if n > 0 {
      SubscribersFrame(f, busy, f', busy', e, n - 1);
    }
  }

  lemma {:induction false} SubscribersNone(f: seq<Node>, busy: set<nat>, e: Event, n: nat)
    requires forall i :: 0 <= i < n ==> !Heard(f, busy, e, i)
    ensures Subscribers(f, busy, e, n) == []
  {
    if n > 0 {
      SubscribersNone(f, busy, e, n - 1);
    }
  }

  // ---------- the order in which a subtree is finished ----------

  function Children(f: seq<Node>, txnsOnly: bool, t: nat): seq<nat> {
    Subscribers(f, {}, if txnsOnly then StateChangingOf(t) else DisposingOf(t), |f|)
  }

  predicate IsChild(f: seq<Node>, txnsOnly: bool, c: nat, t: nat) {
    t < c < |f| && f[c].live && f[c].owner == Some(t) && (txnsOnly ==> f[c].isTxn)
  }

  /** Post-order of the live objects at and under `t`, siblings in the order of their creation. */
  function PostOrder(f: seq<Node>, txnsOnly: bool, t: nat): seq<nat>
    requires Rooted(f) && t < |f|
    decreases |f| - t, 1, 0
  {
    Below(f, txnsOnly, t) + [t]
  }

  /** The part of the post-order that is strictly under `t`. */
  function Below(f: seq<Node>, txnsOnly: bool, t: nat): seq<nat>
    requires Rooted(f) && t < |f|
    decreases |f| - t, 0, 0
  {
    ChildrenAreYounger(f, txnsOnly, t);
    PostOrderEach(f, txnsOnly, Children(f, txnsOnly, t), t + 1)
  }

  function PostOrderEach(f: seq<Node>, txnsOnly: bool, ts: seq<nat>, from: nat): seq<nat>
    requires Rooted(f) && from <= |f| && forall k :: 0 <= k < |ts| ==> from <= ts[k] < |f|
    decreases |f| - from, 2, |ts|
  {
    if ts == [] then [] else PostOrder(f, txnsOnly, ts[0]) + PostOrderEach(f, txnsOnly, ts[1..], from)
  }

  lemma ChildrenAreYounger(f: seq<Node>, txnsOnly: bool, t: nat)
    requires Rooted(f)
    ensures forall k :: 0 <= k < |Children(f, txnsOnly, t)| ==> IsChild(f, txnsOnly, Children(f, txnsOnly, t)[k], t)
    ensures Increasing(Children(f, txnsOnly, t))
  {
    var e := if txnsOnly then StateChangingOf(t) else DisposingOf(t);
    SubscribersSound(f, {}, e, |f|);
    var cs := Children(f, txnsOnly, t);
    forall k | 0 <= k < |cs| ensures IsChild(f, txnsOnly, cs[k], t) {
      assert cs[k] == Subscribers(f, {}, e, |f|)[k] && Heard(f, {}, e, cs[k]);
      assert RootedAt(f, cs[k]);
    }
  }

  /** Some member of `ts` has `i` at or under it. */
  predicate Covers(f: seq<Node>, ts: seq<nat>, i: nat) {
    exists k :: 0 <= k < |ts| && Under(f, i, ts[k])
  }

  lemma CoversCons(f: seq<Node>, ts: seq<nat>, i: nat)
    requires ts != []
    ensures Covers(f, ts, i) == (Under(f, i, ts[0]) || Covers(f, ts[1..], i))
  {
    if k :| 0 <= k < |ts| && Under(f, i, ts[k]) {
      assert k > 0 ==> ts[1..][k - 1] == ts[k];
    }
    if k :| 0 <= k < |ts[1..]| && Under(f, i, ts[1..][k]) {
      assert ts[k + 1] == ts[1..][k];
    }
  }

  /** The children of `t` cover exactly what is strictly under it. */
  lemma ChildrenCover(f: seq<Node>, busy: set<nat>, t: nat, i: nat)
    requires Rooted(f) && i < |f| && f[i].live && forall b :: b in busy ==> b <= t
    ensures Covers(f, Subscribers(f, busy, DisposingOf(t), |f|), i) == (Under(f, i, t) && i != t)
  {
    var cs := Subscribers(f, busy, DisposingOf(t), |f|);
    SubscribersSound(f, busy, DisposingOf(t), |f|);
    if k :| 0 <= k < |cs| && Under(f, i, cs[k]) {
      assert RootedAt(f, cs[k]);
      UnderIsYounger(f, i, cs[k]);
      assert Under(f, cs[k], t);
      UnderTransitive(f, i, cs[k], t);
    }
    if Under(f, i, t) && i != t {
      var c := UnderViaChild(f, i, t);
      var k := SubscribersComplete(f, busy, DisposingOf(t), |f|, c);
    }
  }
}
