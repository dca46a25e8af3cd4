/** Whole runs of the registry: what every operation keeps, and exactly when an allocation goes wrong. */
module RegistryLaws {
  import opened Registry

  datatype Op =
    | CheckOp(r: Registration)
    | InsertOp(k: nat)
    | GetOp(db: string)
    | ReleaseOp(db: string)
    | PingOp(replies: seq<Reply>)

  const INIT := State([], [])

  predicate Fitting(s: State, op: Op) {
    match op
    case InsertOp(k) => k < |s.pending|
    case PingOp(replies) => |replies| == |s.nodes|
    case _ => true
  }

  function Step(s: State, op: Op): State
    requires Fitting(s, op)
  {
    match op
    case CheckOp(r) => Check(s, r)
    case InsertOp(k) => Insert(s, k)
    case GetOp(db) => s.(nodes := GetNode(s.nodes, db).0)
    case ReleaseOp(db) => s.(nodes := ReleaseNode(s.nodes, db).0)
    case PingOp(replies) => s.(nodes := Ping(s.nodes, replies))
  }

  predicate FittingRun(s: State, ops: seq<Op>)
    decreases |ops|
  {
    ops == [] || (Fitting(s, ops[0]) && FittingRun(Step(s, ops[0]), ops[1..]))
  }

  function After(s: State, ops: seq<Op>): State
    requires FittingRun(s, ops)
    decreases |ops|
  {
    if ops == [] then s else After(Step(s, ops[0]), ops[1..])
  }

  lemma RunCons(s: State, op: Op, rest: seq<Op>)
    requires Fitting(s, op) && FittingRun(Step(s, op), rest)
    ensures FittingRun(s, [op] + rest) && After(s, [op] + rest) == After(Step(s, op), rest)
  {
    hide Step, Fitting;
    assert ([op] + rest)[1..] == rest;
  }

  // ---------- identities ----------

  /** Names are pairwise distinct, and so are (server, port) pairs. */
  predicate Distinct(nodes: seq<Node>) {
    forall i, j :: 0 <= i < j < |nodes| ==>
      !Matches(nodes[i], Clash(nodes[j].server, nodes[j].port, nodes[j].name))
  }

  /**
    No step ever makes two nodes share a name or an address, except an insertion, exactly when its name or address is
    taken at that moment; the check was made before.
   */
  lemma DistinctExactly(s: State, op: Op)
    requires Distinct(s.nodes) && Fitting(s, op)
    ensures Distinct(Step(s, op).nodes) <==> !(op.InsertOp? && Clashes(s.nodes, s.pending[op.k]))
  {
    match op
    case InsertOp(k) =>
      var r, n := Step(s, op).nodes, |s.nodes|;
      var q := Clash(s.pending[k].server, s.pending[k].port, s.pending[k].name);
      var i := First(s.nodes, q, 0);
      assert i < n ==> Matches(r[i], Clash(r[n].server, r[n].port, r[n].name));
    case PingOp(replies) =>
      var i := FirstSick(replies, 0);
      if i < |s.nodes| && replies[i] == Unreachable {
        EraseKeepsDistinct(s.nodes, i);
      }
    case _ =>
  }

  lemma EraseKeepsDistinct(nodes: seq<Node>, i: nat)
    requires Distinct(nodes) && i < |nodes|
    ensures Distinct(nodes[..i] + nodes[i + 1..])
  {
    var r := nodes[..i] + nodes[i + 1..];
    forall a, b | 0 <= a < b < |r| ensures !Matches(r[a], Clash(r[b].server, r[b].port, r[b].name)) {
      var a', b' := if a < i then a else a + 1, if b < i then b else b + 1;
      assert r[a] == nodes[a'] && r[b] == nodes[b'];
    }
  }

  function IdOf(n: Node): Registration {
    Registration(n.server, n.port, n.name)
  }

  predicate SameId(a: Registration, b: Registration) {
    a.name == b.name || (a.server == b.server && a.port == b.port)
  }

  /** The identities in the list, and those that are about to enter it. */
  function Ids(s: State): seq<Registration> {
    seq(|s.nodes|, i requires 0 <= i < |s.nodes| => IdOf(s.nodes[i])) + s.pending
  }

  predicate Apart(ids: seq<Registration>) {
    forall i, j :: 0 <= i < j < |ids| ==> !SameId(ids[i], ids[j])
  }

  /** A check that passes while a clashing registration has passed and is not inserted yet. */
  predicate Races(s: State, op: Op) {
    op.CheckOp? && !Clashes(s.nodes, op.r) && exists k :: 0 <= k < |s.pending| && SameId(s.pending[k], op.r)
  }

  /**
    Identities in the list and about to enter it stay apart in every step, except exactly when two registrations
    race.
   */
  lemma ApartExactly(s: State, op: Op)
    requires Apart(Ids(s)) && Fitting(s, op)
    ensures Apart(Ids(Step(s, op))) <==> !Races(s, op)
  {
    match op
    case CheckOp(r) => CheckApart(s, r);
    case InsertOp(k) => InsertApart(s, k);
    case GetOp(db) => assert Ids(Step(s, op)) == Ids(s);
    case ReleaseOp(db) => assert Ids(Step(s, op)) == Ids(s);
    case PingOp(replies) => PingApart(s, replies);
  }

  lemma CheckApart(s: State, r: Registration)
    requires Apart(Ids(s))
    ensures Apart(Ids(Check(s, r))) <==> !Races(s, CheckOp(r))
  {
    if !Clashes(s.nodes, r) {
      var n, ids := |Ids(s)|, Ids(Check(s, r));
      assert ids == Ids(s) + [r];
      if k :| 0 <= k < |s.pending| && SameId(s.pending[k], r) {
        assert ids[|s.nodes| + k] == s.pending[k] && SameId(ids[|s.nodes| + k], ids[n]);
      } else {
        forall i | 0 <= i < n ensures !SameId(ids[i], r) {
          assert i < |s.nodes| ==> !Matches(s.nodes[i], Clash(r.server, r.port, r.name));
          assert i >= |s.nodes| ==> ids[i] == s.pending[i - |s.nodes|];
        }
      }
    }
  }

  lemma InsertApart(s: State, k: nat)
    requires Apart(Ids(s)) && k < |s.pending|
    ensures Apart(Ids(Insert(s, k)))
  {
    var m := |s.nodes|;
    var ids, was := Ids(Insert(s, k)), Ids(s);
    assert |ids| == |was|;
    forall i, j | 0 <= i < j < |ids| ensures !SameId(ids[i], ids[j]) {
      var i', j' := MovedFrom(m, k, i), MovedFrom(m, k, j);
      assert ids[i] == was[i'] && ids[j] == was[j'] && i' != j';
      assert !SameId(was[if i' < j' then i' else j'], was[if i' < j' then j' else i']);
    }
  }

  /** The k-th of the pending registrations has moved to the front of them. */
  function MovedFrom(m: nat, k: nat, i: nat): nat {
    if i < m || i > m + k then i else if i == m then m + k else i - 1
  }

  lemma PingApart(s: State, replies: seq<Reply>)
    requires Apart(Ids(s)) && |replies| == |s.nodes|
    ensures Apart(Ids(s.(nodes := Ping(s.nodes, replies))))
  {
    var e := FirstSick(replies, 0);
    var ids, was := Ids(s.(nodes := Ping(s.nodes, replies))), Ids(s);
    if e < |s.nodes| && replies[e] == Unreachable {
      forall i, j | 0 <= i < j < |ids| ensures !SameId(ids[i], ids[j]) {
        assert ids[i] == was[if i < e then i else i + 1] && ids[j] == was[if j < e then j else j + 1];
      }
    } else {
      assert ids == was;
    }
  }

  predicate NeverRaces(s: State, ops: seq<Op>)
    requires FittingRun(s, ops)
    decreases |ops|
  {
    ops == [] || (!Races(s, ops[0]) && NeverRaces(Step(s, ops[0]), ops[1..]))
  }

  /** In every run without a race, no two nodes share a name or an address: registrations, releases, pings and all. */
  lemma {:induction false} RunKeepsDistinct(s: State, ops: seq<Op>)
    requires Apart(Ids(s)) && FittingRun(s, ops) && NeverRaces(s, ops)
    ensures Apart(Ids(After(s, ops))) && Distinct(After(s, ops).nodes)
    decreases |ops|
  {
    hide Step, Races, Fitting;
    if ops != [] {
      ApartExactly(s, ops[0]);
      RunKeepsDistinct(Step(s, ops[0]), ops[1..]);
    } else {
      ApartMeansDistinct(s);
    }
  }

  lemma ApartMeansDistinct(s: State)
    requires Apart(Ids(s))
    ensures Distinct(s.nodes)
  {
    forall i, j | 0 <= i < j < |s.nodes|
      ensures !Matches(s.nodes[i], Clash(s.nodes[j].server, s.nodes[j].port, s.nodes[j].name))
    {
      assert Ids(s)[i] == IdOf(s.nodes[i]) && Ids(s)[j] == IdOf(s.nodes[j]);
    }
  }

  /** From an empty list, two registrations that both check before either inserts: both are inserted, clash or not. */
  lemma RaceFromEmpty(a: Registration, b: Registration)
    ensures FittingRun(INIT, [CheckOp(a), CheckOp(b), InsertOp(0), InsertOp(0)])
    ensures var s := After(INIT, [CheckOp(a), CheckOp(b), InsertOp(0), InsertOp(0)]);
      && s == State([NewNode(a), NewNode(b)], [])
      && (Distinct(s.nodes) <==> !SameId(a, b))
      && (Races(State([], [a]), CheckOp(b)) <==> SameId(a, b))
  {
    var s1, s2, s3, s4 := State([], [a]), State([], [a, b]), State([NewNode(a)], [b]),
      State([NewNode(a), NewNode(b)], []);
    hide Step, Fitting, Distinct;
    RaceSteps(a, b);
    RunCons(s3, InsertOp(0), []);
    RunCons(s2, InsertOp(0), [InsertOp(0)] + []);
    RunCons(s1, CheckOp(b), [InsertOp(0)] + ([InsertOp(0)] + []));
    RunCons(INIT, CheckOp(a), [CheckOp(b)] + ([InsertOp(0)] + ([InsertOp(0)] + [])));
    assert [CheckOp(a)] + ([CheckOp(b)] + ([InsertOp(0)] + ([InsertOp(0)] + [])))
        == [CheckOp(a), CheckOp(b), InsertOp(0), InsertOp(0)];
  }

  lemma RaceSteps(a: Registration, b: Registration)
    ensures var s1, s2, s3, s4 := State([], [a]), State([], [a, b]), State([NewNode(a)], [b]),
        State([NewNode(a), NewNode(b)], []);
      && Fitting(INIT, CheckOp(a)) && Step(INIT, CheckOp(a)) == s1
      && Fitting(s1, CheckOp(b)) && Step(s1, CheckOp(b)) == s2
      && Fitting(s2, InsertOp(0)) && Step(s2, InsertOp(0)) == s3
      && Fitting(s3, InsertOp(0)) && Step(s3, InsertOp(0)) == s4
      && (Distinct(s4.nodes) <==> !SameId(a, b)) && (Races(s1, CheckOp(b)) <==> SameId(a, b))
  {
    var n := [NewNode(a), NewNode(b)];
    assert Matches(n[0], Clash(n[1].server, n[1].port, n[1].name)) <==> SameId(a, b);
    assert State([], [a]).pending[0] == a;
  }

  // ---------- an active node serves a database ----------

  predicate ActiveServes(nodes: seq<Node>) {
    forall i :: 0 <= i < |nodes| ==> nodes[i].isActive ==> nodes[i].dbName != ""
  }

  /** `get-node` without a database name takes over a node that was deactivated while it served one. */
  predicate ClaimsForNothing(s: State, op: Op) {
    && op.GetOp? && op.db == ""
    && First(s.nodes, Serve(""), 0) < |s.nodes| && s.nodes[First(s.nodes, Serve(""), 0)].dbName != ""
  }

  lemma ActiveServesExactly(s: State, op: Op)
    requires ActiveServes(s.nodes) && Fitting(s, op)
    ensures ActiveServes(Step(s, op).nodes) <==> !ClaimsForNothing(s, op)
  {
    var r := Step(s, op).nodes;
    if op.GetOp? {
      var i := First(s.nodes, Serve(op.db), 0);
      if i < |s.nodes| && s.nodes[i].dbName != op.db {
        assert r[i].isActive && r[i].dbName == op.db;
      }
    }
  }

  /** In every run whose `get-node` requests name a database, releases and pings included, active nodes serve one. */
  lemma {:induction false} RunKeepsActiveServing(s: State, ops: seq<Op>)
    requires ActiveServes(s.nodes) && FittingRun(s, ops)
    requires forall k :: 0 <= k < |ops| && ops[k].GetOp? ==> ops[k].db != ""
    ensures ActiveServes(After(s, ops).nodes)
    decreases |ops|
  {
    hide Step, Fitting, ActiveServes;
    if ops != [] {
      ActiveServesExactly(s, ops[0]);
      RunKeepsActiveServing(Step(s, ops[0]), ops[1..]);
    }
  }

  ghost predicate Leads(s: State, ops: seq<Op>, t: State) {
    FittingRun(s, ops) && After(s, ops) == t
  }

  lemma LeadsCons(s: State, op: Op, m: State, ops: seq<Op>, t: State)
    requires Fitting(s, op) && Step(s, op) == m && Leads(m, ops, t)
    ensures Leads(s, [op] + ops, t)
  {
    RunCons(s, op, ops);
  }

  function Bound(r: Registration, active: bool, db: string): Node {
    Node(active, r.server, r.port, r.name, db)
  }

  /** The break is reachable: a node is bound, found unwell, and then taken by a request that names no database. */
  lemma ActiveNodeForNothing(a: Registration)
    ensures Leads(INIT, [CheckOp(a), InsertOp(0), GetOp("x"), PingOp([Unwell]), GetOp("")],
      State([Bound(a, true, "")], []))
    ensures !ActiveServes([Bound(a, true, "")])
  {
    var s1, s2, s3 := State([], [a]), State([NewNode(a)], []), State([Bound(a, true, "x")], []);
    var s4, s5 := State([Bound(a, false, "x")], []), State([Bound(a, true, "")], []);
    LeadsCons(s4, GetOp(""), s5, [], s5);
    LeadsCons(s3, PingOp([Unwell]), s4, [GetOp("")] + [], s5);
    var rest := [PingOp([Unwell])] + ([GetOp("")] + []);
    LeadsCons(s2, GetOp("x"), s3, rest, s5);
    LeadsCons(s1, InsertOp(0), s2, [GetOp("x")] + rest, s5);
    LeadsCons(INIT, CheckOp(a), s1, [InsertOp(0)] + ([GetOp("x")] + rest), s5);
    assert [CheckOp(a)] + ([InsertOp(0)] + ([GetOp("x")] + rest))
        == [CheckOp(a), InsertOp(0), GetOp("x"), PingOp([Unwell]), GetOp("")];
    assert s5.nodes[0].isActive;
  }

  // ---------- a database is served by one node ----------

  predicate UniqueBinding(nodes: seq<Node>) {
    forall i, j :: 0 <= i < j < |nodes| && nodes[i].dbName != "" ==> nodes[i].dbName != nodes[j].dbName
  }

  /** `get-node` meets an inactive node before the node that is already bound to the database. */
  predicate ClaimsHole(s: State, op: Op) {
    op.GetOp? && op.db != "" &&
    var i := First(s.nodes, Serve(op.db), 0);
    i < |s.nodes| && s.nodes[i].dbName != op.db && First(s.nodes, Serving(op.db), 0) < |s.nodes|
  }

  /** No operation ever binds a database to a second node, except `get-node` exactly when it meets a hole first. */
  lemma UniqueBindingExactly(s: State, op: Op)
    requires UniqueBinding(s.nodes) && Fitting(s, op)
    ensures UniqueBinding(Step(s, op).nodes) <==> !ClaimsHole(s, op)
  {
    var nodes, r := s.nodes, Step(s, op).nodes;
    match op
    case CheckOp(_) =>
    case InsertOp(_) =>
    case GetOp(db) =>
      var i, k := First(nodes, Serve(db), 0), First(nodes, Serving(db), 0);
      if i < |nodes| && nodes[i].dbName != db && k < |nodes| {
        assert r[i].dbName == db && r[k].dbName == db && i != k;
      }
    case ReleaseOp(_) =>
    case PingOp(replies) =>
      var i := FirstSick(replies, 0);
      if i < |nodes| && replies[i] == Unreachable {
        EraseKeepsUnique(nodes, i);
      }
  }

  lemma EraseKeepsUnique(nodes: seq<Node>, i: nat)
    requires UniqueBinding(nodes) && i < |nodes|
    ensures UniqueBinding(nodes[..i] + nodes[i + 1..])
  {
    var r := nodes[..i] + nodes[i + 1..];
    forall a, b | 0 <= a < b < |r| && r[a].dbName != "" ensures r[a].dbName != r[b].dbName {
      var a', b' := if a < i then a else a + 1, if b < i then b else b + 1;
      assert r[a] == nodes[a'] && r[b] == nodes[b'];
    }
  }

  /** The break is reachable: two databases, the first released, the second asked for again. */
  lemma SecondNodeForOneDatabase(a: Registration, b: Registration)
    requires !SameId(a, b)
    ensures Leads(INIT,
                  [CheckOp(a), InsertOp(0), CheckOp(b), InsertOp(0), GetOp("x"), GetOp("y"), ReleaseOp("x"),
                   GetOp("y")],
                  State([Bound(a, true, "y"), Bound(b, true, "y")], []))
    ensures !UniqueBinding([Bound(a, true, "y"), Bound(b, true, "y")])
  {
    var s1, s2 := State([], [a]), State([NewNode(a)], []);
    var s3, s4 := State([NewNode(a)], [b]), State([NewNode(a), NewNode(b)], []);
    var end := State([Bound(a, true, "y"), Bound(b, true, "y")], []);
    var last := [GetOp("x"), GetOp("y"), ReleaseOp("x"), GetOp("y")];
    hide Step, Leads, Fitting;
    SecondBinding(a, b);
    TwoRegistered(a, b);
    LeadsCons(s3, InsertOp(0), s4, last, end);
    LeadsCons(s2, CheckOp(b), s3, [InsertOp(0)] + last, end);
    LeadsCons(s1, InsertOp(0), s2, [CheckOp(b)] + ([InsertOp(0)] + last), end);
    LeadsCons(INIT, CheckOp(a), s1, [InsertOp(0)] + ([CheckOp(b)] + ([InsertOp(0)] + last)), end);
    assert [CheckOp(a)] + ([InsertOp(0)] + ([CheckOp(b)] + ([InsertOp(0)] + last)))
        == [CheckOp(a), InsertOp(0), CheckOp(b), InsertOp(0), GetOp("x"), GetOp("y"), ReleaseOp("x"), GetOp("y")];
    assert end.nodes[0].dbName == end.nodes[1].dbName != "";
  }

  lemma TwoRegistered(a: Registration, b: Registration)
    requires !SameId(a, b)
    ensures Fitting(INIT, CheckOp(a)) && Step(INIT, CheckOp(a)) == State([], [a])
    ensures Fitting(State([], [a]), InsertOp(0)) && Step(State([], [a]), InsertOp(0)) == State([NewNode(a)], [])
    ensures Fitting(State([NewNode(a)], []), CheckOp(b))
      && Step(State([NewNode(a)], []), CheckOp(b)) == State([NewNode(a)], [b])
    ensures Fitting(State([NewNode(a)], [b]), InsertOp(0))
    ensures Step(State([NewNode(a)], [b]), InsertOp(0)) == State([NewNode(a), NewNode(b)], [])
  {
  }

  lemma SecondBinding(a: Registration, b: Registration)
    ensures Leads(State([NewNode(a), NewNode(b)], []), [GetOp("x"), GetOp("y"), ReleaseOp("x"), GetOp("y")],
                  State([Bound(a, true, "y"), Bound(b, true, "y")], []))
  {
    var s4, s5 := State([NewNode(a), NewNode(b)], []), State([Bound(a, true, "x"), NewNode(b)], []);
    var s6, s7 := State([Bound(a, true, "x"), Bound(b, true, "y")], []), State([NewNode(a), Bound(b, true, "y")], []);
    var end := State([Bound(a, true, "y"), Bound(b, true, "y")], []);
    FirstIs(s5.nodes, Serve("y"), 1);
    LeadsCons(s7, GetOp("y"), end, [], end);
    LeadsCons(s6, ReleaseOp("x"), s7, [GetOp("y")] + [], end);
    LeadsCons(s5, GetOp("y"), s6, [ReleaseOp("x")] + ([GetOp("y")] + []), end);
    LeadsCons(s4, GetOp("x"), s5, [GetOp("y")] + ([ReleaseOp("x")] + ([GetOp("y")] + [])), end);
    assert [GetOp("x")] + ([GetOp("y")] + ([ReleaseOp("x")] + ([GetOp("y")] + [])))
        == [GetOp("x"), GetOp("y"), ReleaseOp("x"), GetOp("y")];
  }

  // ---------- runs without holes ----------

  predicate BlockAt(nodes: seq<Node>, k: nat) {
    && k <= |nodes|
    && (forall i :: 0 <= i < k ==> nodes[i].isActive && nodes[i].dbName != "")
    && (forall i :: k <= i < |nodes| ==> !nodes[i].isActive && nodes[i].dbName == "")
    && (forall i, j :: 0 <= i < j < k ==> nodes[i].dbName != nodes[j].dbName)
  }

  /** A block of active nodes that serve distinct databases, followed by the unused nodes. */
  predicate Block(nodes: seq<Node>) {
    exists k :: 0 <= k <= |nodes| && BlockAt(nodes, k)
  }

  /** Registration, `get-node` with a database name, and pings that at most erase. */
  predicate HoleFree(op: Op) {
    match op
    case CheckOp(_) => true
    case InsertOp(_) => true
    case GetOp(db) => db != ""
    case ReleaseOp(_) => false
    case PingOp(replies) => Unwell !in replies
  }

  lemma StepKeepsBlock(s: State, op: Op)
    requires Block(s.nodes) && Fitting(s, op) && HoleFree(op)
    ensures Block(Step(s, op).nodes)
  {
    var nodes, r := s.nodes, Step(s, op).nodes;
    var k :| 0 <= k <= |nodes| && BlockAt(nodes, k);
    match op
    case CheckOp(_) =>
    case InsertOp(_) =>
      assert BlockAt(r, k);
    case GetOp(db) =>
      var i := First(nodes, Serve(db), 0);
      if i < |nodes| && nodes[i].dbName != db {
        assert !nodes[i].isActive && k <= i;
        assert Matches(nodes[k], Serve(db));
        assert forall j :: 0 <= j < k ==> !Matches(nodes[j], Serve(db));
        assert BlockAt(r, k + 1);
      }
    case PingOp(replies) =>
      var i := FirstSick(replies, 0);
      if i < |nodes| {
        assert replies[i] in replies;
        EraseKeepsBlock(nodes, i, k);
      }
  }

  lemma EraseKeepsBlock(nodes: seq<Node>, i: nat, k: nat)
    requires BlockAt(nodes, k) && i < |nodes|
    ensures Block(nodes[..i] + nodes[i + 1..])
  {
    var r := nodes[..i] + nodes[i + 1..];
    var k' := if i < k then k - 1 else k;
    assert forall j :: 0 <= j < |r| ==> r[j] == nodes[if j < i then j else j + 1];
    assert BlockAt(r, k');
  }

  lemma {:induction false} RunKeepsBlock(s: State, ops: seq<Op>)
    requires Block(s.nodes) && FittingRun(s, ops) && forall op :: op in ops ==> HoleFree(op)
    ensures Block(After(s, ops).nodes)
    decreases |ops|
  {
    hide Step, Fitting, Block;
    if ops != [] {
      StepKeepsBlock(s, ops[0]);
      RunKeepsBlock(Step(s, ops[0]), ops[1..]);
    }
  }

  predicate Erases(s: State, op: Op, n: Node)
    requires Fitting(s, op)
  {
    op.PingOp? &&
    var i := FirstSick(op.replies, 0);
    i < |s.nodes| && op.replies[i] == Unreachable && s.nodes[i] == n
  }

  predicate NeverErases(s: State, ops: seq<Op>, n: Node)
    requires FittingRun(s, ops)
    decreases |ops|
  {
    ops == [] || (!Erases(s, ops[0], n) && NeverErases(Step(s, ops[0]), ops[1..], n))
  }

  lemma StepKeepsNode(s: State, op: Op, n: Node)
    requires Block(s.nodes) && Fitting(s, op) && HoleFree(op) && n in s.nodes && n.isActive && !Erases(s, op, n)
    ensures n in Step(s, op).nodes
  {
    var nodes, r := s.nodes, Step(s, op).nodes;
    var j :| 0 <= j < |nodes| && nodes[j] == n;
    match op
    case CheckOp(_) =>
    case InsertOp(_) => assert r[j] == n;
    case GetOp(db) => assert r[j] == n;
    case PingOp(replies) =>
      var i := FirstSick(replies, 0);
      if i < |nodes| {
        assert replies[i] in replies;
        assert r[if j < i then j else j - 1] == n;
      }
  }

  /** In a block, `get-node` finds the node that serves the database, and changes nothing. */
  lemma ServedByItsNode(nodes: seq<Node>, n: Node)
    requires Block(nodes) && n in nodes && n.isActive
    ensures GetNode(nodes, n.dbName).0 == nodes
    ensures GetNode(nodes, n.dbName).1.Some? && GetNode(nodes, n.dbName).1.value < |nodes|
    ensures nodes[GetNode(nodes, n.dbName).1.value] == n
  {
    var k :| 0 <= k <= |nodes| && BlockAt(nodes, k);
    var j :| 0 <= j < |nodes| && nodes[j] == n;
    FirstIs(nodes, Serve(n.dbName), j);
  }

  /**
    Until it is erased, the node bound to a database stays bound to it, and `get-node` keeps answering with it,
    whatever else is registered, allocated or erased in between.
   */
  lemma {:induction false} BindingIsStable(s: State, ops: seq<Op>, n: Node)
    requires Block(s.nodes) && FittingRun(s, ops) && forall op :: op in ops ==> HoleFree(op)
    requires n in s.nodes && n.isActive && NeverErases(s, ops, n)
    ensures var nodes := After(s, ops).nodes;
      && n in nodes && GetNode(nodes, n.dbName).0 == nodes
      && GetNode(nodes, n.dbName).1.Some? && GetNode(nodes, n.dbName).1.value < |nodes|
      && nodes[GetNode(nodes, n.dbName).1.value] == n
    decreases |ops|
  {
    hide Step, Fitting, Block, GetNode, Erases;
    if ops == [] {
      ServedByItsNode(s.nodes, n);
    } else {
      StepKeepsBlock(s, ops[0]);
      StepKeepsNode(s, ops[0], n);
      BindingIsStable(Step(s, ops[0]), ops[1..], n);
    }
  }

  // ---------- release undone by get ----------

  /**
    `release-node` followed by `get-node` for the same assigned database restores the list exactly when its node was
    active and no inactive node comes before it.
   */
  lemma ReleaseThenGet(nodes: seq<Node>, db: string)
    requires db != "" && First(nodes, Serving(db), 0) < |nodes|
    ensures GetNode(ReleaseNode(nodes, db).0, db).0 == nodes
       <==> forall j :: 0 <= j <= First(nodes, Serving(db), 0) ==> nodes[j].isActive
  {
    var i := First(nodes, Serving(db), 0);
    var m := ReleaseNode(nodes, db).0;
    var k := First(m, Serve(db), 0);
    var r := GetNode(m, db).0;
    assert Matches(m[i], Serve(db));
    assert k <= i;
    assert forall j :: 0 <= j < i ==> m[j] == nodes[j] && nodes[j].dbName != db;
    if k < i {
      assert !nodes[k].isActive && r[k].isActive;
    } else {
      assert r[i] == nodes[i].(isActive := true, dbName := db);
      assert forall j :: 0 <= j < |nodes| && j != i ==> r[j] == nodes[j];
      if nodes[i].isActive {
        assert r[i] == nodes[i];
      } else {
        assert r[i] != nodes[i];
      }
    }
  }

  /** In particular in every block-shaped list. */
  lemma ReleaseThenGetInBlock(nodes: seq<Node>, db: string)
    requires Block(nodes) && db != "" && exists n :: n in nodes && n.dbName == db
    ensures GetNode(ReleaseNode(nodes, db).0, db).0 == nodes
  {
    var n :| n in nodes && n.dbName == db;
    var j :| 0 <= j < |nodes| && nodes[j] == n;
    var k :| 0 <= k <= |nodes| && BlockAt(nodes, k);
    assert Matches(nodes[j], Serving(db));
    ReleaseThenGet(nodes, db);
  }
}
