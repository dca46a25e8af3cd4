/**
  The registry of worker nodes: an allocator of nodes to databases over a list that is scanned from the front.
  A node starts inactive and bound to no database (the empty name).
 */
module Registry {
  import opened Wrappers

  datatype Node = Node(isActive: bool, server: string, port: string, name: string, dbName: string)

  /** What a scan looks for: a node registered already, a node to serve a database, the node serving it. */
  datatype Query = Clash(server: string, port: string, name: string) | Serve(db: string) | Serving(db: string)

  predicate Matches(n: Node, q: Query) {
    match q
    case Clash(server, port, name) => n.name == name || (n.server == server && n.port == port)
    case Serve(db) => n.dbName == db || !n.isActive
    case Serving(db) => n.dbName == db
  }

  /** The first match at or after `from`, or the length of the list. */
  function First(nodes: seq<Node>, q: Query, from: nat): (i: nat)
    requires from <= |nodes|
    ensures from <= i <= |nodes|
    ensures forall j :: from <= j < i ==> !Matches(nodes[j], q)
    ensures i < |nodes| ==> Matches(nodes[i], q)
    decreases |nodes| - from
  {
    if from == |nodes| || Matches(nodes[from], q) then from else First(nodes, q, from + 1)
  }

  lemma FirstIs(nodes: seq<Node>, q: Query, i: nat)
    requires i <= |nodes| && (forall j :: 0 <= j < i ==> !Matches(nodes[j], q))
      && (i < |nodes| ==> Matches(nodes[i], q))
    ensures First(nodes, q, 0) == i
  {
  }

  /** What a node registers with. */
  datatype Registration = Registration(server: string, port: string, name: string)

  function NewNode(r: Registration): Node {
    Node(false, r.server, r.port, r.name, "")
  }

  predicate Clashes(nodes: seq<Node>, r: Registration) {
    First(nodes, Clash(r.server, r.port, r.name), 0) < |nodes|
  }

  /** The list, and the registrations that have passed the check and are not inserted yet. */
  datatype State = State(nodes: seq<Node>, pending: seq<Registration>)

  /** The first lock section of a registration: is the name or the address taken? */
  function Check(s: State, r: Registration): State {
    if Clashes(s.nodes, r) then s else s.(pending := s.pending + [r])
  }

  /** The second one: the node is inserted, without looking again. */
  function Insert(s: State, k: nat): State
    requires k < |s.pending|
  {
    State(s.nodes + [NewNode(s.pending[k])], s.pending[..k] + s.pending[k + 1..])
  }

  function GetNode(nodes: seq<Node>, db: string): (seq<Node>, Option<nat>) {
    var i := First(nodes, Serve(db), 0);
    if i == |nodes| then (nodes, None)
    else if nodes[i].dbName == db then (nodes, Some(i))
    else (nodes[i := nodes[i].(isActive := true, dbName := db)], Some(i))
  }

  function ReleaseNode(nodes: seq<Node>, db: string): (seq<Node>, Option<nat>) {
    var i := First(nodes, Serving(db), 0);
    if i == |nodes| then (nodes, None)
    else (nodes[i := nodes[i].(isActive := false, dbName := "")], Some(i))
  }

  /** The outcome of one ping: the status OK, a failed request, or an answer without data or with another status. */
  datatype Reply = Healthy | Unreachable | Unwell

  function FirstSick(replies: seq<Reply>, from: nat): (i: nat)
    requires from <= |replies|
    ensures from <= i <= |replies|
    ensures forall j :: from <= j < i ==> replies[j] == Healthy
    ensures i < |replies| ==> replies[i] != Healthy
    decreases |replies| - from
  {
    if from == |replies| || replies[from] != Healthy then from else FirstSick(replies, from + 1)
  }

  /** One round of the ping thread, which ends at the first node that is not healthy. */
  function Ping(nodes: seq<Node>, replies: seq<Reply>): seq<Node>
    requires |replies| == |nodes|
  {
    var i := FirstSick(replies, 0);
    if i == |nodes| then nodes
    else if replies[i] == Unreachable then nodes[..i] + nodes[i + 1..]
    else nodes[i := nodes[i].(isActive := false)]
  }

  // ---------- the code ----------

  class MyServer {
    var nodes: seq<Node>
    var pending: seq<Registration>

    function View(): State
      reads this
    {
      State(nodes, pending)
    }

    constructor ()
      ensures View() == State([], [])
    {
      nodes, pending := [], [];
    }

    method ExistsNode(server: string, port: string, name: string) returns (ret: bool)
      ensures ret <==> First(nodes, Clash(server, port, name), 0) < |nodes|
    {
      var i := 0;
      while i < |nodes|
        invariant 0 <= i <= |nodes|
        invariant forall j :: 0 <= j < i ==> !Matches(nodes[j], Clash(server, port, name))
      {
        if nodes[i].name == name {
          return true;
        }
        if nodes[i].server == server && nodes[i].port == port {
          return true;
        }
        i := i + 1;
      }
      return false;
    }

    method CheckNode(r: Registration) returns (found: bool)
      modifies this
      ensures View() == Check(old(View()), r) && found == Clashes(old(nodes), r)
    {
      found := ExistsNode(r.server, r.port, r.name);
      if !found {
        pending := pending + [r];
      }
    }

    method InsertNode(k: nat)
      requires k < |pending|
      modifies this
      ensures View() == Insert(old(View()), k)
    {
      nodes := nodes + [NewNode(pending[k])];
      pending := pending[..k] + pending[k + 1..];
    }

    /** The two lock sections with nothing in between. */
    method RequestVerbRegisterNode(r: Registration)
      modifies this
      ensures nodes == old(nodes) + (if Clashes(old(nodes), r) then [] else [NewNode(r)]) && pending == old(pending)
    {
      var found := CheckNode(r);
      if !found {
        InsertNode(|pending| - 1);
      }
    }

    method RequestVerbGetNode(db: string) returns (r: Option<nat>)
      modifies `nodes
      ensures (nodes, r) == GetNode(old(nodes), db)
    {
      var i := 0;
      while i < |nodes|
        invariant 0 <= i <= |nodes| && nodes == old(nodes)
        invariant forall j :: 0 <= j < i ==> !Matches(nodes[j], Serve(db))
      {
        if nodes[i].dbName == db {
          FirstIs(nodes, Serve(db), i);
          return Some(i);
        } else if nodes[i].isActive == false {
          FirstIs(nodes, Serve(db), i);
          nodes := nodes[i := nodes[i].(isActive := true, dbName := db)];
          return Some(i);
        }
        i := i + 1;
      }
      return None;
    }

    method RequestVerbReleaseNode(db: string) returns (r: Option<nat>)
      modifies `nodes
      ensures (nodes, r) == ReleaseNode(old(nodes), db)
    {
      var i := 0;
      while i < |nodes|
        invariant 0 <= i <= |nodes| && nodes == old(nodes)
        invariant forall j :: 0 <= j < i ==> !Matches(nodes[j], Serving(db))
      {
        if nodes[i].dbName == db {
          FirstIs(nodes, Serving(db), i);
          nodes := nodes[i := nodes[i].(isActive := false, dbName := "")];
          return Some(i);
        }
        i := i + 1;
      }
      return None;
    }

    method PingRound(replies: seq<Reply>)
      requires |replies| == |nodes|
      modifies `nodes
      ensures nodes == Ping(old(nodes), replies)
    {
      var i := 0;
      while i < |nodes|
        invariant 0 <= i <= |nodes| && nodes == old(nodes)
        invariant forall j :: 0 <= j < i ==> replies[j] == Healthy
      {
        if replies[i] == Unreachable {
          nodes := nodes[..i] + nodes[i + 1..];
          break;
        }
        if replies[i] == Unwell {
          nodes := nodes[i := nodes[i].(isActive := false)];
          break;
        }
        i := i + 1;
      }
    }
  }
}
