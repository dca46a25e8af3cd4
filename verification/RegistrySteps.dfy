/** What one request or one round of pings does to the list, node by node, and what it answers. */
module RegistrySteps {
  import opened Wrappers
  import opened Registry

  /** `r` is `nodes` but for node `i`. */
  predicate OnlyAt(nodes: seq<Node>, r: seq<Node>, i: nat) {
    |r| == |nodes| && forall j :: 0 <= j < |nodes| && j != i ==> r[j] == nodes[j]
  }

  // ---------- registration ----------

  predicate Taken(n: Node, r: Registration) {
    n.name == r.name || (n.server == r.server && n.port == r.port)
  }

  /** A registration passes the check if and only if no node has its name or its address; it is then under way. */
  lemma CheckExactly(s: State, r: Registration)
    ensures Clashes(s.nodes, r) <==> exists i :: 0 <= i < |s.nodes| && Taken(s.nodes[i], r)
    ensures Check(s, r).nodes == s.nodes
    ensures Check(s, r).pending ==
      if exists i :: 0 <= i < |s.nodes| && Taken(s.nodes[i], r) then s.pending else s.pending + [r]
  {
    var q := Clash(r.server, r.port, r.name);
    var i := First(s.nodes, q, 0);
    if i < |s.nodes| {
      assert Matches(s.nodes[i], q) && Taken(s.nodes[i], r);
    } else {
      assert forall j :: 0 <= j < |s.nodes| ==> !Matches(s.nodes[j], q);
    }
  }

  /** The node is appended inactive and bound to nothing, and is no longer under way; nothing is looked at again. */
  lemma InsertExactly(s: State, before: seq<Registration>, r: Registration, after: seq<Registration>)
    requires s.pending == before + [r] + after
    ensures Insert(s, |before|) == State(s.nodes + [Node(false, r.server, r.port, r.name, "")], before + after)
  {
    assert s.pending[..|before|] == before && s.pending[|before| + 1..] == after;
  }

  // ---------- get-node ----------

  predicate Fits(n: Node, db: string) {
    n.dbName == db || !n.isActive
  }

  /**
    `get-node` answers "no node" if and only if every node is active and bound to another name. Otherwise it answers
    with the first node that is bound to the name or inactive. Afterwards that node is bound to the name; it has been
    activated if it had to be claimed, and is left as it was if it was bound already. No other node is touched.
   */
  lemma GetNodeExactly(nodes: seq<Node>, db: string)
    ensures var (r, answer) := GetNode(nodes, db);
      match answer
      case None => r == nodes && forall j :: 0 <= j < |nodes| ==> nodes[j].isActive && nodes[j].dbName != db
      case Some(i) =>
        && i < |nodes| && Fits(nodes[i], db) && (forall j :: 0 <= j < i ==> !Fits(nodes[j], db))
        && OnlyAt(nodes, r, i)
        && r[i] == if nodes[i].dbName == db then nodes[i]
                   else Node(true, nodes[i].server, nodes[i].port, nodes[i].name, db)
  {
    var i := First(nodes, Serve(db), 0);
    assert forall j :: 0 <= j < i ==> !Matches(nodes[j], Serve(db));
  }

  // ---------- release-node ----------

  /** The first node bound to the name is left inactive and bound to nothing; without one there is no answer. */
  lemma ReleaseNodeExactly(nodes: seq<Node>, db: string)
    ensures var (r, answer) := ReleaseNode(nodes, db);
      match answer
      case None => r == nodes && forall j :: 0 <= j < |nodes| ==> nodes[j].dbName != db
      case Some(i) =>
        && i < |nodes| && nodes[i].dbName == db && (forall j :: 0 <= j < i ==> nodes[j].dbName != db)
        && OnlyAt(nodes, r, i) && r[i] == Node(false, nodes[i].server, nodes[i].port, nodes[i].name, "")
  {
    var i := First(nodes, Serving(db), 0);
    assert forall j :: 0 <= j < i ==> !Matches(nodes[j], Serving(db));
  }

  // ---------- a round of pings ----------

  /**
    A round ends at the first node `i` that is not healthy: one that cannot be reached leaves the list, one that answers
    badly stays in it, inactive and bound as it was. If all are healthy (`i` is the length) nothing changes.
   */
  lemma PingExactly(nodes: seq<Node>, replies: seq<Reply>, i: nat)
    requires |replies| == |nodes| && i <= |nodes| && (forall j :: 0 <= j < i ==> replies[j] == Healthy)
    requires i < |nodes| ==> replies[i] != Healthy
    ensures var r := Ping(nodes, replies);
      if i == |nodes| then r == nodes
      else if replies[i] == Unreachable then r == nodes[..i] + nodes[i + 1..]
      else OnlyAt(nodes, r, i) && r[i] == Node(false, nodes[i].server, nodes[i].port, nodes[i].name, nodes[i].dbName)
  {
    var e := FirstSick(replies, 0);
    assert !(e < i) && !(i < e);
  }

  // ---------- two requests in a row ----------

  /**
    Asking twice for a database is asking once, and both answers name the same node: whether it was bound already or
    had to be claimed.
   */
  lemma GetTwiceIsOnce(nodes: seq<Node>, db: string)
    ensures var r := GetNode(nodes, db); GetNode(r.0, db) == r
  {
    var i := First(nodes, Serve(db), 0);
    if i < |nodes| {
      FirstIs(GetNode(nodes, db).0, Serve(db), i);
    }
  }
}
