/** The packages a notices bundle must cover: what the root reaches without development edges. */
module DependencyNotices {

  type Id = string

  /** The kind of one use of a dependency; `Normal` is the null kind. */
  datatype Kind = Normal | Build | Dev

  datatype Dependency = Dependency(pkg: Id, kinds: seq<Kind>)

  datatype Node = Node(id: Id, deps: seq<Dependency>)

  datatype Outcome = Reached(packages: set<Id>) | MissingNode(id: Id)

  // ---------- the graph ----------

  /** The nodes by identifier; a repeated identifier keeps its last node. */
  function Nodes(list: seq<Node>): map<Id, seq<Dependency>> {
    if list == [] then map[]
    else var last := list[|list| - 1]; Nodes(list[..|list| - 1])[last.id := last.deps]
  }

  ghost predicate LastOf(list: seq<Node>, i: nat) {
    i < |list| && forall j :: i < j < |list| ==> list[j].id != list[i].id
  }

  lemma LastFront(list: seq<Node>)
    requires list != []
    ensures var n := |list| - 1;
      && LastOf(list, n)
      && (forall i: nat :: LastOf(list, i) ==> i <= n)
      && (forall i: nat :: LastOf(list[..n], i) ==> i < n)
      && (forall i: nat :: i < n ==> (LastOf(list, i) <==> LastOf(list[..n], i) && list[n].id != list[i].id))
  {
  }

  /** Exactly the listed identifiers have dependencies, those of their last node. */
  lemma {:induction false} NodesMeans(list: seq<Node>, id: Id)
    ensures id in Nodes(list) <==> exists i: nat :: LastOf(list, i) && list[i].id == id
    ensures forall i: nat :: LastOf(list, i) && list[i].id == id ==> Nodes(list)[id] == list[i].deps
  {
    if list != [] {
      var n := |list| - 1;
      var front := list[..n];
      NodesMeans(front, id);
      LastFront(list);
      hide LastOf;
      if id != list[n].id && id in Nodes(front) {
        var i: nat :| LastOf(front, i) && front[i].id == id;
        assert LastOf(list, i) && list[i].id == id;
      }
    }
  }

  predicate Shipped(d: Dependency): (r: bool)
    ensures r <==> Normal in d.kinds || Build in d.kinds
  {
    exists k :: k in d.kinds && k != Dev
  }

  /** The dependencies that are followed, in order. */
  function Followed(deps: seq<Dependency>): (r: seq<Id>)
    ensures forall b :: b in r <==> exists d :: d in deps && Shipped(d) && d.pkg == b
  {
    if deps == [] then [] else (if Shipped(deps[0]) then [deps[0].pkg] else []) + Followed(deps[1..])
  }

  ghost predicate Edge(nodes: map<Id, seq<Dependency>>, a: Id, b: Id) {
    a in nodes && exists d :: d in nodes[a] && d.pkg == b && (Normal in d.kinds || Build in d.kinds)
  }

  ghost predicate Path(nodes: map<Id, seq<Dependency>>, p: seq<Id>) {
    && p != []
    && forall i :: 0 <= i < |p| - 1 ==> Edge(nodes, p[i], p[i + 1])
  }

  ghost predicate Reachable(nodes: map<Id, seq<Dependency>>, root: Id, x: Id) {
    exists p :: Path(nodes, p) && p[0] == root && p[|p| - 1] == x
  }

  lemma RootReachable(nodes: map<Id, seq<Dependency>>, root: Id)
    ensures Reachable(nodes, root, root)
  {
    assert Path(nodes, [root]);
  }

  lemma EdgeReaches(nodes: map<Id, seq<Dependency>>, root: Id, a: Id, b: Id)
    requires Reachable(nodes, root, a) && Edge(nodes, a, b)
    ensures Reachable(nodes, root, b)
  {
    var p :| Path(nodes, p) && p[0] == root && p[|p| - 1] == a;
    assert Path(nodes, p + [b]);
  }

  /** A set with the root in it that no followed edge leaves. */
  ghost predicate Closed(nodes: map<Id, seq<Dependency>>, root: Id, s: set<Id>) {
    root in s && forall a, b :: a in s && Edge(nodes, a, b) ==> b in s
  }

  lemma {:induction false} PathStays(nodes: map<Id, seq<Dependency>>, root: Id, s: set<Id>, p: seq<Id>)
    requires Closed(nodes, root, s) && Path(nodes, p) && p[0] == root
    ensures p[|p| - 1] in s
    decreases |p|
  {
    if |p| > 1 {
      var q := p[..|p| - 1];
      assert Path(nodes, q) by {
        forall i | 0 <= i < |q| - 1 ensures Edge(nodes, q[i], q[i + 1]) { assert Edge(nodes, p[i], p[i + 1]); }
      }
      PathStays(nodes, root, s, q);
      assert Edge(nodes, p[|p| - 2], p[|p| - 1]);
    }
  }

  /** What is reachable is the least closed set. */
  lemma ReachableIsLeast(nodes: map<Id, seq<Dependency>>, root: Id, s: set<Id>)
    requires Closed(nodes, root, s)
    ensures forall x :: Reachable(nodes, root, x) ==> x in s
  {
    forall x | Reachable(nodes, root, x)
      ensures x in s
    {
      var p :| Path(nodes, p) && p[0] == root && p[|p| - 1] == x;
      PathStays(nodes, root, s, p);
    }
  }

  // ---------- the worklist ----------

  /** What is reached or pending is reachable, and an edge out of what is reached leads to one of the two. */
  ghost predicate Frontier(nodes: map<Id, seq<Dependency>>, root: Id, reached: set<Id>, pending: seq<Id>) {
    && reached <= nodes.Keys
    && (root in reached || root in pending)
    && (forall x :: x in reached || x in pending ==> Reachable(nodes, root, x))
    && (forall a, b :: a in reached && Edge(nodes, a, b) ==> b in reached || b in pending)
  }

  lemma Skipped(nodes: map<Id, seq<Dependency>>, root: Id, reached: set<Id>, pending: seq<Id>)
    requires pending != [] && Frontier(nodes, root, reached, pending) && pending[|pending| - 1] in reached
    ensures Frontier(nodes, root, reached, pending[..|pending| - 1])
  {
    assert pending == pending[..|pending| - 1] + [pending[|pending| - 1]];
    hide Edge, Reachable;
  }

  lemma Expanded(nodes: map<Id, seq<Dependency>>, root: Id, reached: set<Id>, pending: seq<Id>)
    requires pending != [] && Frontier(nodes, root, reached, pending) && pending[|pending| - 1] in nodes
    ensures var x := pending[|pending| - 1];
      Frontier(nodes, root, reached + {x}, pending[..|pending| - 1] + Followed(nodes[x]))
  {
    var x := pending[|pending| - 1];
    var more := Followed(nodes[x]);
    assert pending == pending[..|pending| - 1] + [x];
    assert x in pending;
    forall b
      ensures Edge(nodes, x, b) <==> b in more
      ensures b in more ==> Reachable(nodes, root, b)
    {
      if b in more { EdgeReaches(nodes, root, x, b); }
    }
    hide Edge, Reachable;
  }

  /** Ends on every graph, cycles included. It reaches exactly the reachable packages, and it fails exactly
      when one of them has no node. */
  method Notices(list: seq<Node>, root: Id) returns (out: Outcome)
    ensures var nodes := Nodes(list);
      match out
      case Reached(packages) =>
        && (forall x :: x in packages <==> Reachable(nodes, root, x))
        && (forall x :: Reachable(nodes, root, x) ==> x in nodes)
      case MissingNode(x) => Reachable(nodes, root, x) && x !in nodes
  {
    var nodes := Nodes(list);
    var reached, pending := {}, [root];
    RootReachable(nodes, root);
    while pending != []
      invariant Frontier(nodes, root, reached, pending)
      decreases |nodes.Keys - reached|, |pending|
    {
      hide Edge, Reachable;
      var name := pending[|pending| - 1];
      assert name in pending;
      if name in reached {
        Skipped(nodes, root, reached, pending);
        pending := pending[..|pending| - 1];
        continue;
      }
      if name !in nodes {
        return MissingNode(name);
      }
      Expanded(nodes, root, reached, pending);
      ghost var left := nodes.Keys - reached;
      assert nodes.Keys - (reached + {name}) == left - {name} && name in left;
      reached := reached + {name};
      pending := pending[..|pending| - 1] + Followed(nodes[name]);
    }
    assert Closed(nodes, root, reached);
    ReachableIsLeast(nodes, root, reached);
    out := Reached(reached);
  }

  // ---------- what decides the result ----------

  ghost predicate SameEdges(one: map<Id, seq<Dependency>>, two: map<Id, seq<Dependency>>) {
    forall a, b :: Edge(one, a, b) <==> Edge(two, a, b)
  }

  /** Neither the order of dependencies, nor development uses, nor how often an edge is listed matters. */
  lemma EdgesDecide(one: map<Id, seq<Dependency>>, two: map<Id, seq<Dependency>>, root: Id, x: Id)
    requires SameEdges(one, two)
    ensures Reachable(one, root, x) <==> Reachable(two, root, x)
  {
    forall p
      ensures Path(one, p) <==> Path(two, p)
    {
    }
  }

  /** Adding an edge never takes a package away. */
  lemma MoreEdgesReachMore(few: map<Id, seq<Dependency>>, many: map<Id, seq<Dependency>>, root: Id, x: Id)
    requires forall a, b :: Edge(few, a, b) ==> Edge(many, a, b)
    requires Reachable(few, root, x)
    ensures Reachable(many, root, x)
  {
    var p :| Path(few, p) && p[0] == root && p[|p| - 1] == x;
    assert Path(many, p);
  }

  /** A dependency used in development only is never followed, however it is reached otherwise. */
  lemma DevOnlyUnreached(nodes: map<Id, seq<Dependency>>, root: Id, x: Id)
    requires x != root && forall a, d :: a in nodes && d in nodes[a] && d.pkg == x ==> forall k :: k in d.kinds ==>
      k == Dev
    ensures !Reachable(nodes, root, x)
  {
    forall p | Path(nodes, p) && p[0] == root
      ensures p[|p| - 1] != x
    {
      if |p| > 1 { assert Edge(nodes, p[|p| - 2], p[|p| - 2 + 1]); }
    }
  }
}
