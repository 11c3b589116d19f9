/** The part of networkx's undirected `Graph` that the simulator relies on,
    as a value: nodes in insertion order, each node's neighbours in
    insertion order, and one attribute record per undirected link.

    A snapshot of the constellation is one such value; the operations
    below are the library calls the Python code makes on it (`has_node`,
    `has_edge`, `G[u][v][key] = ...`, `remove_edge`, `remove_node`,
    `remove_nodes_from`, `add_edge`, iteration over `G.edges()`). */
module Graphs {
  import opened Common

  type Node = string
  type Path = seq<Node>

  /** `(x, y)` and `(u, v)` name the same undirected link. */
  predicate SameLink(x: Node, y: Node, u: Node, v: Node) {
    (x == u && y == v) || (x == v && y == u)
  }

  /** A betweenness value: a finite real or Python's `float('inf')`. */
  datatype Centrality = Finite(value: real) | Infinite

  /** The edge attributes written anywhere in the simulator; `None` means
      the key is absent from the edge's attribute dict. */
  datatype Attrs = Attrs(
    weight: Option<real>,
    bandwidth: Option<real>,
    wavelengths: Option<seq<bool>>,
    shareDegree: Option<seq<int>>,
    bandwidthUsage: Option<int>,
    betweenness: Option<Centrality>,
    bidirectional: Option<bool>)

  const NoAttrs := Attrs(None, None, None, None, None, None, None)

  /** dict.update: every key present in `upd` overwrites the old value. */
  function Merge(prev: Attrs, upd: Attrs): (r: Attrs)
    ensures upd.weight.Some? ==> r.weight == upd.weight
    ensures upd.weight.None? ==> r.weight == prev.weight
    ensures upd.bandwidth.Some? ==> r.bandwidth == upd.bandwidth
    ensures upd.bandwidth.None? ==> r.bandwidth == prev.bandwidth
    ensures upd.wavelengths.Some? ==> r.wavelengths == upd.wavelengths
    ensures upd.wavelengths.None? ==> r.wavelengths == prev.wavelengths
    ensures upd.shareDegree.Some? ==> r.shareDegree == upd.shareDegree
    ensures upd.shareDegree.None? ==> r.shareDegree == prev.shareDegree
    ensures upd.bandwidthUsage.Some? ==> r.bandwidthUsage == upd.bandwidthUsage
    ensures upd.bandwidthUsage.None? ==> r.bandwidthUsage == prev.bandwidthUsage
    ensures upd.betweenness.Some? ==> r.betweenness == upd.betweenness
    ensures upd.betweenness.None? ==> r.betweenness == prev.betweenness
    ensures upd.bidirectional.Some? ==> r.bidirectional == upd.bidirectional
    ensures upd.bidirectional.None? ==> r.bidirectional == prev.bidirectional
    ensures upd == NoAttrs ==> r == prev
  {
    Attrs(
      if upd.weight.Some? then upd.weight else prev.weight,
      if upd.bandwidth.Some? then upd.bandwidth else prev.bandwidth,
      if upd.wavelengths.Some? then upd.wavelengths else prev.wavelengths,
      if upd.shareDegree.Some? then upd.shareDegree else prev.shareDegree,
      if upd.bandwidthUsage.Some? then upd.bandwidthUsage else prev.bandwidthUsage,
      if upd.betweenness.Some? then upd.betweenness else prev.betweenness,
      if upd.bidirectional.Some? then upd.bidirectional else prev.bidirectional)
  }

  /** `attrs` holds each link's dict under both orientations. */
  datatype Graph = Graph(nodes: seq<Node>, adj: map<Node, seq<Node>>, attrs: map<(Node, Node), Attrs>)

  const Empty := Graph([], map[], map[])

  /** `G.has_node(n)` */
  predicate HasNode(g: Graph, n: Node) {
    n in g.adj
  }

  /** `G.has_edge(u, v)` */
  predicate HasEdge(g: Graph, u: Node, v: Node) {
    u in g.adj && v in g.adj[u]
  }

  /** `G[n]`, in insertion order; empty for an absent node. */
  function Nbrs(g: Graph, n: Node): seq<Node> {
    if n in g.adj then g.adj[n] else []
  }

  /** `len(G)` */
  function Order(g: Graph): nat {
    |g.nodes|
  }

  /** The attribute dict of a link (the same dict for both orientations). */
  function Attr(g: Graph, u: Node, v: Node): Attrs {
    if (u, v) in g.attrs then g.attrs[(u, v)] else NoAttrs
  }

  /** The representation invariant of a networkx graph. */
  ghost predicate Valid(g: Graph) {
    && (forall n :: n in g.adj <==> n in g.nodes)
    && (forall u, v | HasEdge(g, u, v) :: v in g.adj && HasEdge(g, v, u))
    && (forall u, v | HasEdge(g, u, v) :: Attr(g, u, v) == Attr(g, v, u))
  }

  lemma EdgeSymmetric(g: Graph, u: Node, v: Node)
    requires Valid(g)
    ensures HasEdge(g, u, v) <==> HasEdge(g, v, u)
  {
  }

  /** `G[u][v] = a` on an existing edge: both orientations see the new dict. */
  function SetAttr(g: Graph, u: Node, v: Node, a: Attrs): (r: Graph)
    requires HasEdge(g, u, v)
    ensures r.nodes == g.nodes && r.adj == g.adj
    ensures Attr(r, u, v) == a && Attr(r, v, u) == a
    ensures forall x, y {:trigger Attr(r, x, y)} :: !SameLink(x, y, u, v) ==> Attr(r, x, y) == Attr(g, x, y)
  {
    g.(attrs := g.attrs[(u, v) := a][(v, u) := a])
  }

  lemma SetAttrValid(g: Graph, u: Node, v: Node, a: Attrs)
    requires HasEdge(g, u, v) && Valid(g)
    ensures Valid(SetAttr(g, u, v, a))
  {
    var r := SetAttr(g, u, v, a);
    assert forall x, y :: HasEdge(r, x, y) <==> HasEdge(g, x, y);
  }

  /** `G.remove_edge(u, v)` */
  function RemoveEdge(g: Graph, u: Node, v: Node): (r: Graph)
    requires HasEdge(g, u, v)
    ensures r.nodes == g.nodes && r.adj.Keys == g.adj.Keys
    ensures forall x, y {:trigger HasEdge(r, x, y)} :: HasEdge(r, x, y) ==> HasEdge(g, x, y) && !SameLink(x, y, u, v)
    ensures forall x, y {:trigger Attr(r, x, y)} :: !SameLink(x, y, u, v) ==> Attr(r, x, y) == Attr(g, x, y)
  {
    var adj := g.adj[u := Without(g.adj[u], v)];
    var adj := if v in adj then adj[v := Without(adj[v], u)] else adj;
    Graph(g.nodes, adj, g.attrs - {(u, v), (v, u)})
  }

  /** On a valid graph `remove_edge` removes exactly the one link. */
  lemma RemoveEdgeValid(g: Graph, u: Node, v: Node)
    requires HasEdge(g, u, v) && Valid(g)
    ensures Valid(RemoveEdge(g, u, v))
    ensures forall x, y {:trigger HasEdge(RemoveEdge(g, u, v), x, y)} :: HasEdge(g, x, y) && !SameLink(x, y, u, v) ==> HasEdge(RemoveEdge(g, u, v), x, y)
  {
    var r := RemoveEdge(g, u, v);
    forall x, y | HasEdge(g, x, y) && !SameLink(x, y, u, v) ensures HasEdge(r, x, y) {
    }
    forall x, y | HasEdge(r, x, y) ensures y in r.adj && HasEdge(r, y, x) && Attr(r, x, y) == Attr(r, y, x) {
      assert HasEdge(g, y, x);
    }
  }

  /** `G.remove_node(n)` on a node that is present. */
  function RemoveNode(g: Graph, n: Node): (r: Graph)
    requires HasNode(g, n)
    ensures r.nodes == Without(g.nodes, n)
    ensures forall m :: HasNode(r, m) <==> HasNode(g, m) && m != n
    ensures forall x, y {:trigger HasEdge(r, x, y)} :: HasEdge(r, x, y) <==> HasEdge(g, x, y) && x != n && y != n
    ensures forall x, y {:trigger Attr(r, x, y)} :: x != n && y != n ==> Attr(r, x, y) == Attr(g, x, y)
  {
    Graph(
      Without(g.nodes, n),
      map m | m in g.adj && m != n :: Without(g.adj[m], n),
      map k | k in g.attrs && k.0 != n && k.1 != n :: g.attrs[k])
  }

  lemma RemoveNodeValid(g: Graph, n: Node)
    requires HasNode(g, n) && Valid(g)
    ensures Valid(RemoveNode(g, n))
  {
  }

  /** `G.remove_nodes_from(ns)`: absent nodes are skipped silently. */
  function RemoveNodes(g: Graph, ns: seq<Node>): (r: Graph)
    ensures forall m :: HasNode(r, m) <==> HasNode(g, m) && m !in ns
    ensures forall x, y {:trigger HasEdge(r, x, y)} :: HasEdge(r, x, y) ==> HasEdge(g, x, y)
    ensures forall x, y {:trigger Attr(r, x, y)} :: x !in ns && y !in ns ==> Attr(r, x, y) == Attr(g, x, y)
    decreases |ns|
  {
    if ns == [] then g
    else
      var h := if HasNode(g, ns[0]) then RemoveNode(g, ns[0]) else g;
      assert forall m :: m in ns <==> m == ns[0] || m in ns[1..];
      RemoveNodes(h, ns[1..])
  }

  /** On a valid graph `remove_nodes_from` keeps every link between two
      nodes it does not remove. */
  lemma {:induction false} RemoveNodesValid(g: Graph, ns: seq<Node>)
    requires Valid(g)
    ensures Valid(RemoveNodes(g, ns))
    ensures forall x, y {:trigger HasEdge(RemoveNodes(g, ns), x, y)} :: HasEdge(g, x, y) && x !in ns && y !in ns ==> HasEdge(RemoveNodes(g, ns), x, y)
    decreases |ns|
  {
    if ns != [] {
      var h := if HasNode(g, ns[0]) then RemoveNode(g, ns[0]) else g;
      if HasNode(g, ns[0]) { RemoveNodeValid(g, ns[0]); }
      RemoveNodesValid(h, ns[1..]);
      assert forall m :: m in ns <==> m == ns[0] || m in ns[1..];
    }
  }

  /** Adds `n` as a node with no neighbours unless it is already present. */
  function AddNode(g: Graph, n: Node): (r: Graph)
    ensures HasNode(r, n)
    ensures forall m :: HasNode(r, m) <==> HasNode(g, m) || m == n
    ensures forall x, y {:trigger HasEdge(r, x, y)} :: HasEdge(r, x, y) <==> HasEdge(g, x, y)
    ensures r.attrs == g.attrs
    ensures r.nodes == if HasNode(g, n) then g.nodes else g.nodes + [n]
  {
    if n in g.adj then g else Graph(g.nodes + [n], g.adj[n := []], g.attrs)
  }

  lemma AddNodeValid(g: Graph, n: Node)
    requires Valid(g)
    ensures Valid(AddNode(g, n))
  {
  }

  /** The adjacency and attribute update of `add_edge` once both endpoints
      are nodes: a new neighbour is appended, an existing one keeps its
      place, and the link's dict is updated with `a`. */
  function Connect(g: Graph, u: Node, v: Node, a: Attrs): (r: Graph)
    requires HasNode(g, u) && HasNode(g, v)
    ensures r.nodes == g.nodes && r.adj.Keys == g.adj.Keys
    ensures forall x, y {:trigger HasEdge(r, x, y)} :: HasEdge(r, x, y) <==> HasEdge(g, x, y) || SameLink(x, y, u, v)
    ensures Attr(r, u, v) == Merge(if HasEdge(g, u, v) then Attr(g, u, v) else NoAttrs, a)
    ensures Attr(r, v, u) == Attr(r, u, v)
    ensures forall x, y {:trigger Attr(r, x, y)} :: !SameLink(x, y, u, v) ==> Attr(r, x, y) == Attr(g, x, y)
  {
    var merged := Merge(if HasEdge(g, u, v) then Attr(g, u, v) else NoAttrs, a);
    var adj := g.adj[u := if v in g.adj[u] then g.adj[u] else g.adj[u] + [v]];
    var adj := adj[v := if u in adj[v] then adj[v] else adj[v] + [u]];
    Graph(g.nodes, adj, g.attrs[(u, v) := merged][(v, u) := merged])
  }

  lemma ConnectValid(g: Graph, u: Node, v: Node, a: Attrs)
    requires HasNode(g, u) && HasNode(g, v) && Valid(g)
    ensures Valid(Connect(g, u, v, a))
  {
    var r := Connect(g, u, v, a);
    forall x, y | HasEdge(r, x, y) ensures y in r.adj && HasEdge(r, y, x) && Attr(r, x, y) == Attr(r, y, x) {
      if !SameLink(x, y, u, v) {
        assert HasEdge(g, x, y);
      }
    }
  }

  /** `G.add_edge(u, v, **a)`: missing endpoints are added (`u` first),
      then the link is created or its dict updated. */
  function AddEdge(g: Graph, u: Node, v: Node, a: Attrs): (r: Graph)
    ensures forall m :: HasNode(r, m) <==> HasNode(g, m) || m == u || m == v
    ensures forall x, y {:trigger HasEdge(r, x, y)} :: HasEdge(r, x, y) <==> HasEdge(g, x, y) || SameLink(x, y, u, v)
    ensures Attr(r, u, v) == Merge(if HasEdge(g, u, v) then Attr(g, u, v) else NoAttrs, a)
    ensures Attr(r, v, u) == Attr(r, u, v)
    ensures forall x, y {:trigger Attr(r, x, y)} :: !SameLink(x, y, u, v) ==> Attr(r, x, y) == Attr(g, x, y)
  {
    var h := AddNode(AddNode(g, u), v);
    assert HasEdge(h, u, v) == HasEdge(g, u, v);
    Connect(h, u, v, a)
  }

  lemma AddEdgeValid(g: Graph, u: Node, v: Node, a: Attrs)
    requires Valid(g)
    ensures Valid(AddEdge(g, u, v, a))
  {
    AddNodeValid(g, u);
    AddNodeValid(AddNode(g, u), v);
    ConnectValid(AddNode(AddNode(g, u), v), u, v, a);
  }

  // ----------------------------------------------------------------------
  // Edge iteration

  /** The link `(x, y)` appears in `es` in one orientation or the other. */
  predicate Covered(es: seq<(Node, Node)>, x: Node, y: Node) {
    (x, y) in es || (y, x) in es
  }

  /** One more pair of an edge list covers exactly one more link. */
  lemma CoveredStep(es: seq<(Node, Node)>, k: nat)
    requires k < |es|
    ensures forall x, y :: Covered(es[..k + 1], x, y) <==> Covered(es[..k], x, y) || SameLink(x, y, es[k].0, es[k].1)
  {
    assert es[..k + 1] == es[..k] + [es[k]];
  }

  /** The pairs `(n, m)` for each neighbour `m` of `n` not in `seen`, in
      neighbour order. */
  function FreshPairs(n: Node, nbrs: seq<Node>, seen: seq<Node>): (r: seq<(Node, Node)>)
    ensures forall e :: e in r <==> e.0 == n && e.1 in nbrs && e.1 !in seen
  {
    if nbrs == [] then []
    else
      var rest := FreshPairs(n, nbrs[1..], seen);
      assert forall m :: m in nbrs <==> m == nbrs[0] || m in nbrs[1..];
      if nbrs[0] in seen then rest else [(n, nbrs[0])] + rest
  }

  /** The edges `G.edges()` yields from position `i` of the node order on,
      given that the nodes before `i` have been visited. */
  function EdgesFrom(g: Graph, i: nat): (r: seq<(Node, Node)>)
    requires i <= |g.nodes|
    ensures forall e :: e in r ==> exists k :: i <= k < |g.nodes| && e.0 == g.nodes[k] && e.1 in Nbrs(g, e.0) && e.1 !in g.nodes[..k]
    ensures forall k, m :: i <= k < |g.nodes| && m in Nbrs(g, g.nodes[k]) && m !in g.nodes[..k] ==> (g.nodes[k], m) in r
    decreases |g.nodes| - i
  {
    if i == |g.nodes| then []
    else
      var n := g.nodes[i];
      FreshPairs(n, Nbrs(g, n), g.nodes[..i]) + EdgesFrom(g, i + 1)
  }

  /** `G.edges()`: each link once, oriented from the endpoint that comes
      first in node order, nodes visited in order and each node's
      neighbours in insertion order. */
  function Edges(g: Graph): (r: seq<(Node, Node)>)
    ensures forall e :: e in r ==> HasEdge(g, e.0, e.1)
    ensures Valid(g) ==> forall u, v :: HasEdge(g, u, v) <==> Covered(r, u, v)
    ensures Valid(g) ==> forall u, v :: (u, v) in r && (v, u) in r ==> u == v
  {
    EdgesFromFacts(g);
    EdgesFrom(g, 0)
  }

  lemma EdgesFromFacts(g: Graph)
    ensures forall e :: e in EdgesFrom(g, 0) ==> HasEdge(g, e.0, e.1)
    ensures Valid(g) ==> forall u, v :: HasEdge(g, u, v) <==> Covered(EdgesFrom(g, 0), u, v)
    ensures Valid(g) ==> forall u, v :: (u, v) in EdgesFrom(g, 0) && (v, u) in EdgesFrom(g, 0) ==> u == v
  {
    var r := EdgesFrom(g, 0);
    forall e | e in r ensures HasEdge(g, e.0, e.1) {
      var k :| 0 <= k < |g.nodes| && e.0 == g.nodes[k] && e.1 in Nbrs(g, e.0) && e.1 !in g.nodes[..k];
    }
    if Valid(g) {
      forall u, v | HasEdge(g, u, v) ensures Covered(r, u, v) {
        var i := IndexIn(g.nodes, u);
        var j := IndexIn(g.nodes, v);
        if i <= j {
          assert v !in g.nodes[..i] by { NotBeforeFirst(g.nodes, v, j, i); }
        } else {
          assert u !in g.nodes[..j] by { NotBeforeFirst(g.nodes, u, i, j); }
          assert HasEdge(g, v, u);
        }
      }
      forall u, v | (u, v) in r && (v, u) in r ensures u == v {
        var k :| 0 <= k < |g.nodes| && u == g.nodes[k] && v !in g.nodes[..k];
        var k' :| 0 <= k' < |g.nodes| && v == g.nodes[k'] && u !in g.nodes[..k'];
        PrefixMember(g.nodes, k, k');
        PrefixMember(g.nodes, k', k);
      }
    }
  }

  /** The first position of `x` in `s`. */
  function IndexIn(s: seq<Node>, x: Node): (i: nat)
    requires x in s
    ensures i < |s| && s[i] == x
    ensures forall k :: 0 <= k < i ==> s[k] != x
  {
    if s[0] == x then 0
    else
      assert x in s[1..] by {
        var k :| 0 <= k < |s| && s[k] == x;
        assert s[1..][k - 1] == x;
      }
      1 + IndexIn(s[1..], x)
  }

  lemma NotBeforeFirst(s: seq<Node>, x: Node, first: nat, i: nat)
    requires first < |s| && forall k :: 0 <= k < first ==> s[k] != x
    requires i <= first
    ensures x !in s[..i]
  {
  }

  lemma PrefixMember(s: seq<Node>, k: int, m: int)
    ensures 0 <= k < m <= |s| ==> s[k] in s[..m]
  {
    if 0 <= k < m <= |s| { assert s[..m][k] == s[k]; }
  }

  /** An attribute update that overwrites keys: it does not depend on the
      orientation in which a link is named, and applying it twice is
      applying it once. */
  ghost predicate Overwrites(f: (Node, Node, Attrs) -> Attrs) {
    && (forall x, y, a :: f(x, y, a) == f(y, x, a))
    && (forall x, y, a {:trigger f(x, y, f(x, y, a))} :: f(x, y, f(x, y, a)) == f(x, y, a))
  }

  /** The loop `for u, v in G.edges(): G[u][v][...] = ...` that rewrites
      every link's attribute dict with `f`. */
  method UpdateEdges(g: Graph, f: (Node, Node, Attrs) -> Attrs) returns (r: Graph)
    requires Valid(g) && Overwrites(f)
    ensures r.nodes == g.nodes && r.adj == g.adj && Valid(r)
    ensures forall x, y :: Attr(r, x, y) == if HasEdge(g, x, y) then f(x, y, Attr(g, x, y)) else Attr(g, x, y)
  {
    var es := Edges(g);
    r := g;
    for k := 0 to |es|
      invariant r.nodes == g.nodes && r.adj == g.adj && Valid(r)
      invariant forall x, y :: Attr(r, x, y) == if Covered(es[..k], x, y) then f(x, y, Attr(g, x, y)) else Attr(g, x, y)
    {
      var (u, v) := es[k];
      assert HasEdge(g, u, v);
      UpdateStep(g, r, es, k, f);
      SetAttrValid(r, u, v, f(u, v, Attr(r, u, v)));
      r := SetAttr(r, u, v, f(u, v, Attr(r, u, v)));
    }
    assert es[..|es|] == es;
  }

  /** One iteration of `UpdateEdges`: rewriting the `k`-th edge extends the
      covered prefix by that link. */
  lemma UpdateStep(g: Graph, r: Graph, es: seq<(Node, Node)>, k: nat, f: (Node, Node, Attrs) -> Attrs)
    requires Valid(g) && Overwrites(f) && k < |es| && HasEdge(g, es[k].0, es[k].1) && r.adj == g.adj
    requires forall x, y :: Attr(r, x, y) == if Covered(es[..k], x, y) then f(x, y, Attr(g, x, y)) else Attr(g, x, y)
    ensures var (u, v) := es[k];
      var r' := SetAttr(r, u, v, f(u, v, Attr(r, u, v)));
      forall x, y :: Attr(r', x, y) == if Covered(es[..k + 1], x, y) then f(x, y, Attr(g, x, y)) else Attr(g, x, y)
  {
    hide SetAttr;
    var (u, v) := es[k];
    assert HasEdge(r, u, v);
    var r' := SetAttr(r, u, v, f(u, v, Attr(r, u, v)));
    CoveredStep(es, k);
    forall x, y
      ensures Attr(r', x, y) == if Covered(es[..k + 1], x, y) then f(x, y, Attr(g, x, y)) else Attr(g, x, y)
    {
      if SameLink(x, y, u, v) {
        assert Attr(g, x, y) == Attr(g, u, v);
        assert f(u, v, Attr(r, u, v)) == f(u, v, Attr(g, u, v)) by {
          if Covered(es[..k], u, v) {
            assert f(u, v, f(u, v, Attr(g, u, v))) == f(u, v, Attr(g, u, v));
          }
        }
      }
    }
  }

  // ----------------------------------------------------------------------
  // Paths

  /** Every node of `p` is in `g` and consecutive nodes are adjacent. */
  predicate IsWalk(g: Graph, p: Path) {
    && (forall i :: 0 <= i < |p| ==> HasNode(g, p[i]))
    && (forall i :: 0 <= i < |p| - 1 ==> HasEdge(g, p[i], p[i + 1]))
  }

  /** What `nx.shortest_simple_paths(G, s, t)` promises of each path it
      yields: a simple path from `s` to `t` in `G`. */
  predicate IsSimplePath(g: Graph, p: Path, s: Node, t: Node) {
    |p| >= 1 && p[0] == s && p[|p| - 1] == t && NoDup(p) && IsWalk(g, p)
  }

  /** The simple-path search routine (`nx.shortest_simple_paths`) is not
      modelled: it is a parameter that lists candidate paths in the order
      the library yields them; no candidates means `NetworkXNoPath`. */
  type PathOracle = (Graph, Node, Node) -> seq<Path>

  /** The only thing the model relies on about the search routine. */
  ghost predicate SoundOracle(ksp: PathOracle) {
    forall g, s, t, p :: p in ksp(g, s, t) ==> IsSimplePath(g, p, s, t)
  }

  /** The number of hops of `path` at or after position `i` that run along
      the link `(x, y)`. */
  function HopsOn(path: Path, x: Node, y: Node, i: nat): nat
    decreases |path| - i
  {
    if i + 1 >= |path| then 0
    else (if SameLink(path[i], path[i + 1], x, y) then 1 else 0) + HopsOn(path, x, y, i + 1)
  }

  /** The total demand charged to the link `(x, y)` by the hops of `path`
      at or after position `i`. */
  function Charge(path: Path, x: Node, y: Node, i: nat, req: real): (c: real)
    decreases |path| - i
  {
    if i + 1 >= |path| then 0.0
    else (if SameLink(path[i], path[i + 1], x, y) then req else 0.0) + Charge(path, x, y, i + 1, req)
  }

  /** The charge is the demand once per hop along the link. */
  lemma {:induction false} ChargeIsHops(path: Path, x: Node, y: Node, i: nat, req: real)
    ensures Charge(path, x, y, i, req) == req * (HopsOn(path, x, y, i) as real)
    decreases |path| - i
  {
    if i + 1 < |path| {
      ChargeIsHops(path, x, y, i + 1, req);
      var h := HopsOn(path, x, y, i + 1) as real;
      assert req * (h + 1.0) == req * h + req;
    }
  }

  /** A walk in a graph is a walk in any graph having at least its nodes
      and edges. */
  lemma WalkMonotone(g: Graph, h: Graph, p: Path)
    requires IsWalk(g, p)
    requires forall n :: HasNode(g, n) ==> HasNode(h, n)
    requires forall x, y :: HasEdge(g, x, y) ==> HasEdge(h, x, y)
    ensures IsWalk(h, p)
  {
  }
}
