/**
 * The dependency structure of a query: which stored queries it builds on,
 * the graph of every query it references, the part of that graph that still
 * has to be stored before it, and the order in which that part is stored.
 */
module DependencyGraph {
  import opened Wrappers
  import opened SeqUtil
  import Fingerprint

  /**
   * A query and the queries it references (its `dependencies`). Queries are
   * identified by their md5; the tree shape makes references acyclic, and a
   * query referenced from several places appears once under each of them.
   */
  datatype QueryNode = QueryNode(md5: string, deps: seq<QueryNode>)

  /** The name of a query's node in a dependency graph: `x<md5>`. */
  function NodeName(md5: string): (r: string)
    ensures |r| == |md5| + 1 && r[0] == 'x' && r[1..] == md5
  {
    Fingerprint.TableName(md5)
  }

  lemma NodeNameInjective(a: string, b: string)
    ensures NodeName(a) == NodeName(b) <==> a == b
  {
    if NodeName(a) == NodeName(b) {
      assert a == NodeName(a)[1..];
    }
  }

  // ----- stored dependencies -----

  /**
   * The stored queries `q` builds on directly: `q` itself when it is stored
   * and not excluded, otherwise what its references reach, where the search
   * stops at the first stored query on every path.
   */
  ghost function StoredReach(q: QueryNode, excludeSelf: bool, stored: set<string>): (r: set<string>)
    ensures r <= stored
    decreases q, 1
  {
    if !excludeSelf && q.md5 in stored then {q.md5} else StoredReachAll(q, q.deps, stored)
  }

  ghost function StoredReachAll(parent: QueryNode, ds: seq<QueryNode>, stored: set<string>): (r: set<string>)
    requires forall i :: 0 <= i < |ds| ==> ds[i] in parent.deps
    ensures r <= stored
    decreases parent, 0, |ds|
  {
    if |ds| == 0 then {}
    else
      assert ds[0] in parent.deps;
      StoredReach(ds[0], false, stored) + StoredReachAll(parent, ds[1..], stored)
  }

  /** `self.dependencies - discovered_dependencies`, taken once before the loop. */
  function Undiscovered(ds: seq<QueryNode>, found: set<string>): (r: seq<QueryNode>)
    ensures forall i :: 0 <= i < |r| ==> r[i] in ds && r[i].md5 !in found
  {
    Filter(ds, (d: QueryNode) => d.md5 !in found)
  }

  /**
   * The recursive search: a stored, not excluded query is added to the set
   * found so far; any other query searches each reference not found yet.
   */
  function Discover(q: QueryNode, excludeSelf: bool, found: set<string>, stored: set<string>): (r: set<string>)
    ensures found <= r && r - found <= stored
    decreases q, 1
  {
    if !excludeSelf && q.md5 in stored then found + {q.md5}
    else DiscoverAll(q, Undiscovered(q.deps, found), found, stored)
  }

  function DiscoverAll(parent: QueryNode, ds: seq<QueryNode>, found: set<string>, stored: set<string>): (r: set<string>)
    requires forall i :: 0 <= i < |ds| ==> ds[i] in parent.deps
    ensures found <= r && r - found <= stored
    decreases parent, 0, |ds|
  {
    if |ds| == 0 then found
    else
      assert ds[0] in parent.deps;
      DiscoverAll(parent, ds[1..], Discover(ds[0], false, found, stored), stored)
  }

  /** Starting from stored queries only, the search adds exactly what `StoredReach` describes. */
  lemma {:induction false} DiscoverFindsStoredReach(q: QueryNode, excludeSelf: bool, found: set<string>, stored: set<string>)
    requires found <= stored
    ensures Discover(q, excludeSelf, found, stored) == found + StoredReach(q, excludeSelf, stored)
    decreases q, 1
  {
    if excludeSelf || q.md5 !in stored {
      DiscoverAllFindsStoredReach(q, Undiscovered(q.deps, found), found, stored);
      SkippingDiscoveredLosesNothing(q, q.deps, found, stored);
    }
  }

  lemma {:induction false} DiscoverAllFindsStoredReach(parent: QueryNode, ds: seq<QueryNode>, found: set<string>, stored: set<string>)
    requires forall i :: 0 <= i < |ds| ==> ds[i] in parent.deps
    requires found <= stored
    ensures DiscoverAll(parent, ds, found, stored) == found + StoredReachAll(parent, ds, stored)
    decreases parent, 0, |ds|
  {
    if |ds| > 0 {
      assert ds[0] in parent.deps;
      DiscoverFindsStoredReach(ds[0], false, found, stored);
      DiscoverAllFindsStoredReach(parent, ds[1..], Discover(ds[0], false, found, stored), stored);
    }
  }

  /** A reference already found is stored, so it reaches only itself and skipping it changes nothing. */
  lemma {:induction false} SkippingDiscoveredLosesNothing(parent: QueryNode, ds: seq<QueryNode>, found: set<string>, stored: set<string>)
    requires forall i :: 0 <= i < |ds| ==> ds[i] in parent.deps
    requires found <= stored
    ensures found + StoredReachAll(parent, Undiscovered(ds, found), stored) == found + StoredReachAll(parent, ds, stored)
    decreases |ds|
  {
    if |ds| > 0 {
      SkippingDiscoveredLosesNothing(parent, ds[1..], found, stored);
      var rest := Undiscovered(ds[1..], found);
      if ds[0].md5 !in found {
        var u := [ds[0]] + rest;
        assert Undiscovered(ds, found) == u;
        assert u[0] == ds[0] && u[1..] == rest;
      } else {
        assert Undiscovered(ds, found) == rest;
        assert StoredReach(ds[0], false, stored) == {ds[0].md5};
      }
    }
  }

  /**
   * `_get_stored_dependencies`: the stored queries this one builds on,
   * never the query itself.
   */
  function GetStoredDependencies(q: QueryNode, excludeSelf: bool, stored: set<string>): (r: set<string>)
    ensures r == StoredReach(q, excludeSelf, stored) - {q.md5}
    ensures r <= stored && q.md5 !in r
  {
    DiscoverFindsStoredReach(q, excludeSelf, {}, stored);
    Discover(q, excludeSelf, {}, stored) - {q.md5}
  }

  /** A stored query needs nothing else, unless it is excluded from the search. */
  lemma StoredQueryNeedsNothing(q: QueryNode, stored: set<string>)
    requires q.md5 in stored
    ensures GetStoredDependencies(q, false, stored) == {}
  {
  }

  lemma {:induction false} StoredReachAllContains(parent: QueryNode, ds: seq<QueryNode>, i: nat, stored: set<string>)
    requires forall k :: 0 <= k < |ds| ==> ds[k] in parent.deps
    requires i < |ds|
    ensures StoredReach(ds[i], false, stored) <= StoredReachAll(parent, ds, stored)
    decreases i
  {
    if i > 0 {
      StoredReachAllContains(parent, ds[1..], i - 1, stored);
    }
  }

  /** A stored direct reference is always among the stored dependencies. */
  lemma StoredReferenceIsFound(q: QueryNode, excludeSelf: bool, i: nat, stored: set<string>)
    requires i < |q.deps| && q.deps[i].md5 in stored && q.deps[i].md5 != q.md5
    requires excludeSelf || q.md5 !in stored
    ensures q.deps[i].md5 in GetStoredDependencies(q, excludeSelf, stored)
  {
    StoredReachAllContains(q, q.deps, i, stored);
  }

  /**
   * The search stops at a stored query: when `q` references the stored `a`,
   * which references the stored `b`, only `a` is reported.
   */
  lemma SearchStopsAtStoredQuery(qm: string, am: string, bm: string)
    requires qm != am && am != bm && qm != bm
    ensures var a := QueryNode(am, [QueryNode(bm, [])]);
            GetStoredDependencies(QueryNode(qm, [a]), false, {am, bm}) == {am}
  {
    var a := QueryNode(am, [QueryNode(bm, [])]);
    var q := QueryNode(qm, [a]);
    assert [a][1..] == [];
    assert StoredReachAll(q, q.deps, {am, bm}) == {am};
  }

  // ----- the full dependency graph -----

  /** What a graph node records about its query. */
  datatype NodeInfo = NodeInfo(md5: string, stored: bool)

  /** A directed graph with an edge from each query to each query it references. */
  datatype Graph = Graph(nodes: map<string, NodeInfo>, edges: set<(string, string)>)

  /** The nodes of every query `q` references, directly or not, and of `q` itself. */
  function AllNodes(q: QueryNode): (r: set<string>)
    ensures NodeName(q.md5) in r
    decreases q
  {
    {NodeName(q.md5)} + (set d, n | d in q.deps && n in AllNodes(d) :: n)
  }

  /** An edge from every query reached from `q` to each query it references. */
  function AllEdges(q: QueryNode): (r: set<(string, string)>)
    ensures forall d :: d in q.deps ==> (NodeName(q.md5), NodeName(d.md5)) in r
    decreases q
  {
    (set d | d in q.deps :: (NodeName(q.md5), NodeName(d.md5))) + (set d, e | d in q.deps && e in AllEdges(d) :: e)
  }

  /** An entry of the open list: a query and the query that referenced it (none for the root). */
  datatype Visit = Visit(parent: Option<QueryNode>, node: QueryNode)

  /** The edge from the referencing query, which the walk adds when it takes the visit. */
  function ParentEdge(v: Visit): (r: set<(string, string)>)
    ensures |r| <= 1
    ensures v.parent.None? <==> r == {}
  {
    if v.parent.Some? then {(NodeName(v.parent.value.md5), NodeName(v.node.md5))} else {}
  }

  function VisitEdges(v: Visit): (r: set<(string, string)>)
    ensures AllEdges(v.node) <= r
  {
    ParentEdge(v) + AllEdges(v.node)
  }

  ghost function OpenNodes(open: seq<Visit>): set<string> {
    set i, n | 0 <= i < |open| && n in AllNodes(open[i].node) :: n
  }

  ghost function OpenEdges(open: seq<Visit>): set<(string, string)> {
    set i, e | 0 <= i < |open| && e in VisitEdges(open[i]) :: e
  }

  /** The visits a query's references add to the open list. */
  function Children(x: QueryNode): (r: seq<Visit>)
    ensures |r| == |x.deps|
    ensures forall i :: 0 <= i < |r| ==> r[i] == Visit(Some(x), x.deps[i])
  {
    seq(|x.deps|, i requires 0 <= i < |x.deps| => Visit(Some(x), x.deps[i]))
  }

  /** The number of tree positions below and at `q`: a bound on the work left. */
  function Size(q: QueryNode): (r: nat)
    ensures r >= 1
    decreases q, 1
  {
    1 + SizeAll(q, q.deps)
  }

  function SizeAll(parent: QueryNode, ds: seq<QueryNode>): nat
    requires forall i :: 0 <= i < |ds| ==> ds[i] in parent.deps
    decreases parent, 0, |ds|
  {
    if |ds| == 0 then 0
    else
      assert ds[0] in parent.deps;
      Size(ds[0]) + SizeAll(parent, ds[1..])
  }

  function OpenSize(open: seq<Visit>): nat
    decreases |open|
  {
    if |open| == 0 then 0 else Size(open[0].node) + OpenSize(open[1..])
  }

  lemma {:induction false} OpenSizeAppend(a: seq<Visit>, b: seq<Visit>)
    ensures OpenSize(a + b) == OpenSize(a) + OpenSize(b)
    decreases |a|
  {
    if |a| == 0 {
      assert a + b == b;
    } else {
      assert (a + b)[0] == a[0] && (a + b)[1..] == a[1..] + b;
      OpenSizeAppend(a[1..], b);
    }
  }

  lemma {:induction false} OpenSizeOfReferences(parent: QueryNode, vs: seq<Visit>, ds: seq<QueryNode>)
    requires forall i :: 0 <= i < |ds| ==> ds[i] in parent.deps
    requires |vs| == |ds| && forall i :: 0 <= i < |vs| ==> vs[i].node == ds[i]
    ensures OpenSize(vs) == SizeAll(parent, ds)
    decreases |ds|
  {
    if |ds| > 0 {
      OpenSizeOfReferences(parent, vs[1..], ds[1..]);
    }
  }

  lemma OpenNodesAppend(a: seq<Visit>, b: seq<Visit>)
    ensures OpenNodes(a + b) == OpenNodes(a) + OpenNodes(b)
  {
    var ab := a + b;
    forall n | n in OpenNodes(ab) ensures n in OpenNodes(a) + OpenNodes(b) {
      var i :| 0 <= i < |ab| && n in AllNodes(ab[i].node);
      if i >= |a| {
        assert ab[i] == b[i - |a|];
      }
    }
    forall n | n in OpenNodes(b) ensures n in OpenNodes(ab) {
      var i :| 0 <= i < |b| && n in AllNodes(b[i].node);
      assert ab[i + |a|] == b[i];
    }
    forall n | n in OpenNodes(a) ensures n in OpenNodes(ab) {
      var i :| 0 <= i < |a| && n in AllNodes(a[i].node);
      assert ab[i] == a[i];
    }
  }

  lemma OpenEdgesAppend(a: seq<Visit>, b: seq<Visit>)
    ensures OpenEdges(a + b) == OpenEdges(a) + OpenEdges(b)
  {
    var ab := a + b;
    forall e | e in OpenEdges(ab) ensures e in OpenEdges(a) + OpenEdges(b) {
      var i :| 0 <= i < |ab| && e in VisitEdges(ab[i]);
      if i >= |a| {
        assert ab[i] == b[i - |a|];
      }
    }
    forall e | e in OpenEdges(b) ensures e in OpenEdges(ab) {
      var i :| 0 <= i < |b| && e in VisitEdges(b[i]);
      assert ab[i + |a|] == b[i];
    }
    forall e | e in OpenEdges(a) ensures e in OpenEdges(ab) {
      var i :| 0 <= i < |a| && e in VisitEdges(a[i]);
      assert ab[i] == a[i];
    }
  }

  /** The references' visits cover every node below `x`. */
  lemma ChildrenNodes(x: QueryNode)
    ensures AllNodes(x) == {NodeName(x.md5)} + OpenNodes(Children(x))
  {
    var c := Children(x);
    forall n | n in AllNodes(x) && n != NodeName(x.md5) ensures n in OpenNodes(c) {
      var d :| d in x.deps && n in AllNodes(d);
      var i :| 0 <= i < |x.deps| && x.deps[i] == d;
      assert c[i].node == d;
    }
    forall n | n in OpenNodes(c) ensures n in AllNodes(x) {
      var i :| 0 <= i < |c| && n in AllNodes(c[i].node);
      assert x.deps[i] in x.deps;
    }
  }

  /** The references' visits cover every edge from and below `x`. */
  lemma ChildrenEdges(x: QueryNode)
    ensures AllEdges(x) == OpenEdges(Children(x))
  {
    var c := Children(x);
    forall e | e in AllEdges(x) ensures e in OpenEdges(c) {
      if d :| d in x.deps && e == (NodeName(x.md5), NodeName(d.md5)) {
        var i :| 0 <= i < |x.deps| && x.deps[i] == d;
        assert e in VisitEdges(c[i]);
      } else {
        var d :| d in x.deps && e in AllEdges(d);
        var i :| 0 <= i < |x.deps| && x.deps[i] == d;
        assert e in VisitEdges(c[i]);
      }
    }
    forall e | e in OpenEdges(c) ensures e in AllEdges(x) {
      var i :| 0 <= i < |c| && e in VisitEdges(c[i]);
      assert x.deps[i] in x.deps;
    }
  }

  /**
   * Taking the last visit off the open list and pushing its references
   * leaves exactly the visit's node and parent edge to account for, and
   * less work.
   */
  lemma OpenStep(prefix: seq<Visit>, v: Visit)
    ensures OpenNodes(prefix + [v]) == {NodeName(v.node.md5)} + OpenNodes(prefix + Children(v.node))
    ensures OpenEdges(prefix + [v]) == ParentEdge(v) + OpenEdges(prefix + Children(v.node))
    ensures OpenSize(prefix + Children(v.node)) < OpenSize(prefix + [v])
  {
    OpenStepNodes(prefix, v);
    OpenStepEdges(prefix, v);
    OpenStepSize(prefix, v);
  }

  lemma OpenStepNodes(prefix: seq<Visit>, v: Visit)
    ensures OpenNodes(prefix + [v]) == {NodeName(v.node.md5)} + OpenNodes(prefix + Children(v.node))
  {
    OpenNodesAppend(prefix, [v]);
    SingleVisit(v);
    ChildrenNodes(v.node);
    OpenNodesAppend(prefix, Children(v.node));
  }

  lemma OpenStepEdges(prefix: seq<Visit>, v: Visit)
    ensures OpenEdges(prefix + [v]) == ParentEdge(v) + OpenEdges(prefix + Children(v.node))
  {
    OpenEdgesAppend(prefix, [v]);
    SingleVisit(v);
    ChildrenEdges(v.node);
    OpenEdgesAppend(prefix, Children(v.node));
  }

  lemma OpenStepSize(prefix: seq<Visit>, v: Visit)
    ensures OpenSize(prefix + Children(v.node)) < OpenSize(prefix + [v])
  {
    OpenSizeAppend(prefix, [v]);
    OpenSizeAppend(prefix, Children(v.node));
    OpenSizeOfReferences(v.node, Children(v.node), v.node.deps);
    SingleVisit(v);
  }

  /** An open list of one visit holds that visit's nodes, edges and size. */
  lemma SingleVisit(v: Visit)
    ensures OpenNodes([v]) == AllNodes(v.node)
    ensures OpenEdges([v]) == VisitEdges(v)
    ensures OpenSize([v]) == Size(v.node)
  {
    assert forall n :: n in AllNodes(v.node) ==> n in AllNodes([v][0].node);
    assert forall e :: e in VisitEdges(v) ==> e in VisitEdges([v][0]);
  }

  /** Every node of `g` is named after its query and records whether that query is stored. */
  ghost predicate NodesDescribeQueries(g: Graph, stored: set<string>) {
    forall n :: n in g.nodes ==> NodeName(g.nodes[n].md5) == n && (g.nodes[n].stored <==> g.nodes[n].md5 in stored)
  }

  /** Taking one visit keeps the account of what the walk has left to add. */
  lemma WalkStep(q: QueryNode, g: Graph, open: seq<Visit>, stored: set<string>)
    requires |open| > 0
    requires g.nodes.Keys + OpenNodes(open) == AllNodes(q)
    requires g.edges + OpenEdges(open) == AllEdges(q)
    requires NodesDescribeQueries(g, stored)
    ensures var v := open[|open| - 1];
            var g' := TakeVisit(g, v, stored);
            var open' := open[..|open| - 1] + Children(v.node);
            && g'.nodes.Keys + OpenNodes(open') == AllNodes(q)
            && g'.edges + OpenEdges(open') == AllEdges(q)
            && NodesDescribeQueries(g', stored)
            && OpenSize(open') < OpenSize(open)
  {
    var v, prefix := open[|open| - 1], open[..|open| - 1];
    var open' := prefix + Children(v.node);
    var g' := TakeVisit(g, v, stored);
    DropLastAppend(open);
    OpenStep(prefix, v);
    MoveToRecorded(g.nodes.Keys, {NodeName(v.node.md5)}, OpenNodes(open'), OpenNodes(open));
    MoveToRecorded(g.edges, ParentEdge(v), OpenEdges(open'), OpenEdges(open));
  }

  /** Moving `x` from what is still open to what is recorded keeps the union. */
  lemma MoveToRecorded<T>(recorded: set<T>, x: set<T>, rest: set<T>, open: set<T>)
    requires open == x + rest
    ensures (recorded + x) + rest == recorded + open
  {
  }

  /** Records a visited query as a node, and the reference that led to it as an edge. */
  function TakeVisit(g: Graph, v: Visit, stored: set<string>): (r: Graph)
    ensures r.nodes.Keys == g.nodes.Keys + {NodeName(v.node.md5)}
    ensures r.edges == g.edges + ParentEdge(v)
    ensures NodesDescribeQueries(g, stored) ==> NodesDescribeQueries(r, stored)
  {
    Graph(g.nodes[NodeName(v.node.md5) := NodeInfo(v.node.md5, v.node.md5 in stored)], g.edges + ParentEdge(v))
  }

  lemma WalkStart(q: QueryNode)
    ensures OpenNodes([Visit(None, q)]) == AllNodes(q)
    ensures OpenEdges([Visit(None, q)]) == AllEdges(q)
  {
    var open := [Visit(None, q)];
    assert forall n :: n in AllNodes(q) ==> n in AllNodes(open[0].node);
    assert forall e :: e in AllEdges(q) ==> e in VisitEdges(open[0]);
  }

  /**
   * `calculate_dependency_graph`: a depth-first walk with an open list that
   * records each query as a node and each reference as an edge.
   */
  method CalculateDependencyGraph(q: QueryNode, stored: set<string>) returns (g: Graph)
    ensures g.nodes.Keys == AllNodes(q)
    ensures g.edges == AllEdges(q)
    ensures NodesDescribeQueries(g, stored)
  {
    g := Graph(map[], {});
    var open := [Visit(None, q)];
    WalkStart(q);
    while |open| > 0
      invariant g.nodes.Keys + OpenNodes(open) == AllNodes(q)
      invariant g.edges + OpenEdges(open) == AllEdges(q)
      invariant NodesDescribeQueries(g, stored)
      decreases OpenSize(open)
    {
      WalkStep(q, g, open, stored);
      var v := open[|open| - 1];
      g := TakeVisit(g, v, stored);
      open := open[..|open| - 1] + Children(v.node);
    }
  }

  // ----- what still has to be stored -----

  /**
   * The md5s of the unstored queries `q` reaches through unstored queries
   * only: the descendants of `q` once the stored queries are removed.
   */
  function UnstoredBelow(q: QueryNode, stored: set<string>): (r: set<string>)
    ensures forall m :: m in r ==> m !in stored
    decreases q
  {
    set d, m | d in q.deps && d.md5 !in stored && m in {d.md5} + UnstoredBelow(d, stored) :: m
  }

  /** The md5s of every query strictly below `q`. */
  ghost function Below(q: QueryNode): set<string>
    decreases q
  {
    set d, m | d in q.deps && m in {d.md5} + Below(d) :: m
  }

  lemma {:induction false} UnstoredBelowIsBelow(q: QueryNode, stored: set<string>)
    ensures UnstoredBelow(q, stored) <= Below(q)
    decreases q
  {
    forall m | m in UnstoredBelow(q, stored) ensures m in Below(q) {
      var d :| d in q.deps && d.md5 !in stored && m in {d.md5} + UnstoredBelow(d, stored);
      UnstoredBelowIsBelow(d, stored);
      assert d in q.deps && m in {d.md5} + Below(d);
    }
  }

  /**
   * `unstored_dependencies_graph`: empty for a stored query; otherwise the
   * unstored queries below it, reached through unstored queries, with the
   * references among them.
   */
  function UnstoredDependenciesGraph(q: QueryNode, stored: set<string>): (r: Graph)
    ensures q.md5 in stored ==> r.nodes == map[] && r.edges == {}
    ensures q.md5 !in stored ==> forall m :: NodeName(m) in r.nodes <==> m in UnstoredBelow(q, stored)
    ensures NodesDescribeQueries(r, stored)
    ensures forall n :: n in r.nodes ==> !r.nodes[n].stored
    ensures forall e :: e in r.edges <==> e in AllEdges(q) && e.0 in r.nodes && e.1 in r.nodes
  {
    if q.md5 in stored then Graph(map[], {})
    else
      var keep := UnstoredBelow(q, stored);
      assert forall a, b :: NodeName(a) == NodeName(b) ==> a == b by {
        forall a, b ensures NodeName(a) == NodeName(b) ==> a == b {
          NodeNameInjective(a, b);
        }
      }
      var nodes := map m | m in keep :: NodeName(m) := NodeInfo(m, false);
      Graph(nodes, set e | e in AllEdges(q) && e.0 in nodes && e.1 in nodes)
  }

  /** The query itself is never among the queries to store before it. */
  lemma UnstoredGraphOmitsQuery(q: QueryNode, stored: set<string>)
    requires q.md5 !in Below(q)
    ensures NodeName(q.md5) !in UnstoredDependenciesGraph(q, stored).nodes
  {
    UnstoredBelowIsBelow(q, stored);
  }

  /** Every node still to store is one of the nodes of the full graph. */
  lemma {:induction false} UnstoredGraphIsSubgraph(q: QueryNode, stored: set<string>)
    ensures UnstoredDependenciesGraph(q, stored).nodes.Keys <= AllNodes(q)
    decreases q
  {
    if q.md5 !in stored {
      forall m | m in UnstoredBelow(q, stored) ensures NodeName(m) in AllNodes(q) {
        var d :| d in q.deps && d.md5 !in stored && m in {d.md5} + UnstoredBelow(d, stored);
        assert NodeName(m) in AllNodes(d) by {
          if m != d.md5 {
            UnstoredGraphIsSubgraph(d, stored);
            assert NodeName(m) in UnstoredDependenciesGraph(d, stored).nodes;
          }
        }
        assert d in q.deps && NodeName(m) in AllNodes(d);
      }
      var r := UnstoredDependenciesGraph(q, stored);
      forall n | n in r.nodes ensures n in AllNodes(q) {
        assert NodeName(r.nodes[n].md5) == n;
      }
    }
  }

  /**
   * The test scenario: `dummy5` references `dummy3` and `dummy4`, `dummy4`
   * references `dummy2`, `dummy3` references `dummy1` and `dummy2`; with
   * only `dummy3` stored, `dummy2` and `dummy4` remain to be stored.
   */
  lemma UnstoredExample(m1: string, m2: string, m3: string, m4: string, m5: string)
    requires m1 != m3 && m2 != m3 && m4 != m3 && m5 != m3
    ensures var d2 := QueryNode(m2, []);
            var d3 := QueryNode(m3, [QueryNode(m1, []), d2]);
            var d4 := QueryNode(m4, [d2]);
            UnstoredBelow(QueryNode(m5, [d3, d4]), {m3}) == {m2, m4}
  {
    var d2 := QueryNode(m2, []);
    var d3 := QueryNode(m3, [QueryNode(m1, []), d2]);
    var d4 := QueryNode(m4, [d2]);
    assert UnstoredBelow(d2, {m3}) == {};
    assert UnstoredBelow(QueryNode(m1, []), {m3}) == {};
    assert UnstoredBelow(d4, {m3}) == {m2} by {
      assert d2 in d4.deps && m2 in {d2.md5} + UnstoredBelow(d2, {m3});
    }
    var q := QueryNode(m5, [d3, d4]);
    assert d4 in q.deps && m4 in {d4.md5} + UnstoredBelow(d4, {m3});
    assert d4 in q.deps && m2 in {d4.md5} + UnstoredBelow(d4, {m3});
  }

  // ----- storing in dependency order -----

  /** `order` lists each node of `g` once, and a node before every node it has an edge to. */
  ghost predicate IsTopologicalOrder(g: Graph, order: seq<string>) {
    (forall i, j :: 0 <= i < j < |order| ==> order[i] != order[j]) &&
    (forall n :: n in order <==> n in g.nodes) &&
    (forall i, j :: 0 <= i < |order| && 0 <= j < |order| && (order[i], order[j]) in g.edges ==> i < j)
  }

  /** Distinct, and never a query before one it references. */
  predicate StoresAfterReferences(g: Graph, a: string, b: string) {
    a != b && (a, b) !in g.edges
  }

  /**
   * `store_queries_in_order`: walks a topological order backwards, so that
   * references come first, and stores each query; a query whose `store`
   * raises `ValueError` is skipped. The result lists the queries whose store
   * was started, in the order they were started.
   */
  function StoreQueriesInOrder(g: Graph, order: seq<string>, storeRaises: string -> bool): (r: seq<string>)
    requires IsTopologicalOrder(g, order)
    ensures forall n :: n in r <==> n in g.nodes && !storeRaises(n)
    ensures forall i, j :: 0 <= i < j < |r| ==> r[i] != r[j] && (r[i], r[j]) !in g.edges
  {
    var rev := Reverse(order);
    var rel := (a: string, b: string) => StoresAfterReferences(g, a, b);
    assert Pairwise(rev, rel) by {
      forall i, j | 0 <= i < j < |rev| ensures rel(rev[i], rev[j]) {
        assert rev[i] == order[|order| - 1 - i] && rev[j] == order[|order| - 1 - j];
      }
    }
    assert forall n :: n in rev <==> n in order by {
      forall n | n in order ensures n in rev {
        var k :| 0 <= k < |order| && order[k] == n;
        assert rev[|order| - 1 - k] == n;
      }
    }
    var r := Filter(rev, (n: string) => !storeRaises(n));
    FilterKeepsPairwise(rev, (n: string) => !storeRaises(n), rel);
    r
  }
}
