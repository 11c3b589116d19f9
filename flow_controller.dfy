/** Flow admission over a sequence of topology snapshots
    (src/network/flow_controller.py).

    For every flow, every snapshot in its duration window is searched for a
    primary path (other ground facilities pruned) and, when one is found,
    for a backup path that avoids the primary's links and the target
    facility; only when both exist is the flow's bandwidth subtracted along
    both paths.

    The functions in the first half of the module state what each step
    computes; the `FlowController` class performs the steps in place and
    is proved to agree with them; the lemmas at the end state what the
    steps guarantee. */
module FlowControl {
  import opened Common
  import opened Graphs
  import Counters

  /** A flow dict; a `None` field is a key the dict does not have. */
  datatype Flow = Flow(
    graphIndex: nat,
    startNode: Node,
    targetNode: Node,
    duration: Option<int>,
    bandwidth: Option<real>,
    delay: Option<real>,
    primaryPath: Option<Path>,
    backupPath: Option<Path>)

  /** `find_path`'s `path_type`, with `existing_path` for a backup. */
  datatype PathType = Primary | Backup(existing: Path)

  /** The state of the snapshot list after some processing, and the
      exception that stopped it, if any. */
  datatype Run = Run(graphs: seq<Graph>, fault: Option<Fault>)

  /** Every edge's capacity after construction, in Gbps. */
  const LinkCapacity: real := 10.0

  /** The maximum number of candidate paths examined per search. */
  const CandidateLimit: nat := 4

  /** `flow.get('bandwidth', 0)` */
  function Demand(flow: Flow): real {
    flow.bandwidth.GetOr(0.0)
  }

  /** `edge.get('bandwidth', 0)` */
  function Available(g: Graph, u: Node, v: Node): real {
    Attr(g, u, v).bandwidth.GetOr(0.0)
  }

  /** Every consecutive pair of `path` is an edge of `g` with at least
      `req` available. */
  predicate HasResource(g: Graph, path: Path, req: real) {
    forall i :: 0 <= i < |path| - 1 ==>
      HasEdge(g, path[i], path[i + 1]) && Available(g, path[i], path[i + 1]) >= req
  }

  /** Every edge carries a `bandwidth` key, as after construction. */
  ghost predicate Provisioned(g: Graph) {
    forall x, y :: HasEdge(g, x, y) ==> Attr(g, x, y).bandwidth.Some?
  }

  // ----------------------------------------------------------------------
  // Building the search graph

  /** `re.match('^Facility', n)` */
  predicate IsFacility(n: Node) {
    StartsWith(n, "Facility")
  }

  /** The nodes `remove_other_facilities` selects, in node order. */
  function OtherFacilities(nodes: seq<Node>, target: Node): (r: seq<Node>)
    ensures forall n :: n in r <==> n in nodes && IsFacility(n) && n != target
  {
    if nodes == [] then []
    else
      var rest := OtherFacilities(nodes[1..], target);
      assert forall n :: n in nodes <==> n == nodes[0] || n in nodes[1..];
      if IsFacility(nodes[0]) && nodes[0] != target then [nodes[0]] + rest else rest
  }

  /** The copy of `g` with every `Facility*` node other than `target`
      removed (`remove_other_facilities`). */
  function Pruned(g: Graph, target: Node): (r: Graph)
    ensures forall x, y {:trigger HasEdge(r, x, y)} :: HasEdge(r, x, y) ==> HasEdge(g, x, y)
  {
    RemoveNodes(g, OtherFacilities(g.nodes, target))
  }

  /** On a valid snapshot the pruned copy keeps exactly the non-facility
      nodes and the target, and every link between two of them. */
  lemma PrunedValid(g: Graph, target: Node)
    requires Valid(g)
    ensures Valid(Pruned(g, target))
    ensures forall n :: HasNode(Pruned(g, target), n) <==> HasNode(g, n) && (!IsFacility(n) || n == target)
    ensures forall x, y {:trigger HasEdge(Pruned(g, target), x, y)} :: HasEdge(g, x, y) && (!IsFacility(x) || x == target) && (!IsFacility(y) || y == target) ==>
              HasEdge(Pruned(g, target), x, y)
  {
    RemoveNodesValid(g, OtherFacilities(g.nodes, target));
  }

  /** `(x, y)` is one of the links `(p[i-1], p[i])` for `1 <= i < n`. */
  predicate OnPrefix(p: Path, n: int, x: Node, y: Node)
    requires n <= 1 || n <= |p|
    decreases n
  {
    n > 1 && (SameLink(x, y, p[n - 2], p[n - 1]) || OnPrefix(p, n - 1, x, y))
  }

  /** Every hop `(p[i-1], p[i])` with `1 <= i < n` is on the prefix, and
      nothing else is. */
  lemma {:induction false} OnPrefixHops(p: Path, n: int, x: Node, y: Node)
    requires n <= 1 || n <= |p|
    ensures OnPrefix(p, n, x, y) <==> exists i :: 1 <= i < n && SameLink(x, y, p[i - 1], p[i])
    decreases n
  {
    if n > 1 {
      OnPrefixHops(p, n - 1, x, y);
      if SameLink(x, y, p[n - 2], p[n - 1]) {
        assert 1 <= n - 1 < n && SameLink(x, y, p[n - 1 - 1], p[n - 1]);
      }
    }
  }

  /** The copy after the backup loop's edge deletions for `i` in
      `1 .. n - 1`: each link `(p[i-1], p[i])` still present is removed. */
  function CutEdges(h: Graph, p: Path, n: int): (r: Graph)
    requires n <= 1 || n <= |p|
    ensures r.nodes == h.nodes && r.adj.Keys == h.adj.Keys
    ensures forall x, y {:trigger HasEdge(r, x, y)} :: HasEdge(r, x, y) ==> HasEdge(h, x, y)
    decreases n
  {
    if n <= 1 then h
    else
      var h' := CutEdges(h, p, n - 1);
      if HasEdge(h', p[n - 2], p[n - 1]) then RemoveEdge(h', p[n - 2], p[n - 1]) else h'
  }

  /** On a valid graph the cuts remove the prefix's links and no others. */
  lemma {:induction false} CutEdgesValid(h: Graph, p: Path, n: int)
    requires n <= 1 || n <= |p|
    requires Valid(h)
    ensures Valid(CutEdges(h, p, n))
    ensures forall x, y {:trigger HasEdge(CutEdges(h, p, n), x, y)} :: HasEdge(CutEdges(h, p, n), x, y) <==> HasEdge(h, x, y) && !OnPrefix(p, n, x, y)
    decreases n
  {
    if n > 1 {
      CutEdgesValid(h, p, n - 1);
      var h' := CutEdges(h, p, n - 1);
      var (u, v) := (p[n - 2], p[n - 1]);
      if HasEdge(h', u, v) {
        RemoveEdgeValid(h', u, v);
      } else {
        assert !HasEdge(h', v, u);
      }
    }
  }

  /** The graph searched for a backup of `p`: pruned, cut along every
      primary link but the last, and without the target facility. */
  function BackupGraph(g: Graph, target: Node, p: Path): Graph {
    var h := CutEdges(Pruned(g, target), p, |p| - 1);
    if HasNode(h, target) then RemoveNode(h, target) else h
  }

  /** The graph, source and target of a search, or the `IndexError` that
      `existing_path[0]` / `existing_path[-2]` raises on a short path. */
  function SearchSetup(g: Graph, flow: Flow, mode: PathType): Outcome<(Graph, Node, Node)> {
    match mode
    case Primary => Ok((Pruned(g, flow.targetNode), flow.startNode, flow.targetNode))
    case Backup(p) =>
      if |p| < 2 then Raised(IndexError)
      else Ok((BackupGraph(g, flow.targetNode, p), p[0], p[|p| - 2]))
  }

  /** The first `k` elements (`list(islice(..., k))`). */
  function Take<T>(s: seq<T>, k: nat): (r: seq<T>)
    ensures |r| <= k && |r| <= |s|
    ensures forall i :: 0 <= i < |r| ==> r[i] == s[i]
    ensures |s| <= k ==> r == s
  {
    if |s| <= k then s else s[..k]
  }

  /** The first candidate that has the resources, if any. */
  function FirstPassing(cands: seq<Path>, g: Graph, req: real): (r: Option<Path>)
    ensures r.Some? ==> exists i :: 0 <= i < |cands| && cands[i] == r.value && HasResource(g, cands[i], req) &&
                                  forall j :: 0 <= j < i ==> !HasResource(g, cands[j], req)
    ensures r.None? ==> forall j :: 0 <= j < |cands| ==> !HasResource(g, cands[j], req)
  {
    if cands == [] then None
    else if HasResource(g, cands[0], req) then Some(cands[0])
    else
      var rest := FirstPassing(cands[1..], g, req);
      assert rest.Some? ==> exists i :: 1 <= i < |cands| && cands[i] == rest.value && HasResource(g, cands[i], req) &&
                                       forall j :: 0 <= j < i ==> !HasResource(g, cands[j], req) by {
        if rest.Some? {
          var i :| 0 <= i < |cands[1..]| && cands[1..][i] == rest.value && HasResource(g, cands[1..][i], req) &&
                   forall j :: 0 <= j < i ==> !HasResource(g, cands[1..][j], req);
          assert forall j :: 0 <= j < i + 1 ==> !HasResource(g, cands[j], req) by {
            forall j | 0 <= j < i + 1 ensures !HasResource(g, cands[j], req) {
              if j > 0 { assert cands[j] == cands[1..][j - 1]; }
            }
          }
        }
      }
      assert rest.None? ==> forall j :: 0 <= j < |cands| ==> !HasResource(g, cands[j], req) by {
        if rest.None? {
          forall j | 0 <= j < |cands| ensures !HasResource(g, cands[j], req) {
            if j > 0 { assert cands[j] == cands[1..][j - 1]; }
          }
        }
      }
      rest
  }

  /** What `find_path` returns: `None` when an endpoint is missing from the
      search graph (`NodeNotFound`) or no candidate qualifies, else the
      first of at most four candidates that passes the resource check,
      which reads the snapshot at the flow's own `graph_index`. */
  function FindPathSpec(graphs: seq<Graph>, g: Graph, flow: Flow, mode: PathType, ksp: PathOracle): Outcome<Option<Path>>
    requires flow.graphIndex < |graphs|
  {
    match SearchSetup(g, flow, mode)
    case Raised(f) => Raised(f)
    case Ok((h, s, t)) =>
      if !HasNode(h, s) || !HasNode(h, t) then Ok(None)
      else Ok(FirstPassing(Take(ksp(h, s, t), CandidateLimit), graphs[flow.graphIndex], Demand(flow)))
  }

  predicate Found(o: Outcome<Option<Path>>) {
    o.Ok? && o.value.Some?
  }

  // ----------------------------------------------------------------------
  // Allocation

  /** `allocate_resource` from hop `i` on: each hop's `bandwidth` is
      decreased by `req`; a missing edge stops with `ValueError` (and a
      missing key with `KeyError`), keeping the hops already charged. */
  function AllocFrom(g: Graph, path: Path, req: real, i: nat): (r: (Graph, Option<Fault>))
    ensures r.0.nodes == g.nodes && r.0.adj == g.adj
    decreases |path| - i
  {
    if i + 1 >= |path| then (g, None)
    else if !HasEdge(g, path[i], path[i + 1]) then (g, Some(ValueError))
    else
      var a := Attr(g, path[i], path[i + 1]);
      if a.bandwidth.None? then (g, Some(KeyError("bandwidth")))
      else AllocFrom(SetAttr(g, path[i], path[i + 1], a.(bandwidth := Some(a.bandwidth.value - req))), path, req, i + 1)
  }

  /** On a well-formed graph allocation touches only the `bandwidth` of
      the links; every other attribute of every link is kept. */
  lemma {:induction false} AllocKeepsOtherAttrs(g: Graph, path: Path, req: real, i: nat, x: Node, y: Node)
    requires Valid(g)
    ensures var h := AllocFrom(g, path, req, i).0;
      Attr(h, x, y) == Attr(g, x, y).(bandwidth := Attr(h, x, y).bandwidth)
    decreases |path| - i
  {
    if i + 1 < |path| && HasEdge(g, path[i], path[i + 1]) {
      var (u, v) := (path[i], path[i + 1]);
      var a := Attr(g, u, v);
      if a.bandwidth.Some? {
        var a' := a.(bandwidth := Some(a.bandwidth.value - req));
        var g' := SetAttr(g, u, v, a');
        SetAttrValid(g, u, v, a');
        if SameLink(x, y, u, v) { EdgeSymmetric(g, u, v); }
        hide Valid, SetAttr;
        AllocKeepsOtherAttrs(g', path, req, i + 1, x, y);
      }
    }
  }

  /** Every hop of `path` at or after position `i` is an edge carrying a
      `bandwidth` key. */
  predicate Chargeable(g: Graph, path: Path, i: nat)
    decreases |path| - i
  {
    i + 1 >= |path| ||
    (HasEdge(g, path[i], path[i + 1]) && Attr(g, path[i], path[i + 1]).bandwidth.Some? && Chargeable(g, path, i + 1))
  }

  /** `Chargeable` states its condition for every hop from `i` on. */
  lemma {:induction false} ChargeableHops(g: Graph, path: Path, i: nat)
    ensures Chargeable(g, path, i) <==>
      forall k :: i <= k < |path| - 1 ==> HasEdge(g, path[k], path[k + 1]) && Attr(g, path[k], path[k + 1]).bandwidth.Some?
    decreases |path| - i
  {
    if i + 1 < |path| {
      ChargeableHops(g, path, i + 1);
    }
  }

  // ----------------------------------------------------------------------
  // Processing

  /** One snapshot of a flow's window: search primary, then (only if found)
      backup, then (only if both found) charge both paths. */
  function SnapshotStep(graphs: seq<Graph>, i: nat, flow: Flow, ksp: PathOracle): (r: Run)
    requires i < |graphs| && flow.graphIndex < |graphs|
    ensures |r.graphs| == |graphs|
    ensures forall j :: 0 <= j < |graphs| && j != i ==> r.graphs[j] == graphs[j]
    ensures r.graphs[i].nodes == graphs[i].nodes && r.graphs[i].adj == graphs[i].adj
  {
    var g := graphs[i];
    var req := Demand(flow);
    match FindPathSpec(graphs, g, flow, Primary, ksp)
    case Raised(f) => Run(graphs, Some(f))
    case Ok(None) => Run(graphs, None)
    case Ok(Some(p)) =>
      match FindPathSpec(graphs, g, flow, Backup(p), ksp)
      case Raised(f) => Run(graphs, Some(f))
      case Ok(None) => Run(graphs, None)
      case Ok(Some(b)) =>
        var (g1, f1) := AllocFrom(g, p, req, 0);
        if f1.Some? then Run(graphs[i := g1], f1)
        else
          var (g2, f2) := AllocFrom(g1, b, req, 0);
          Run(graphs[i := g2], f2)
  }

  /** Snapshots `i .. end - 1` in order, stopping at the first exception. */
  function Window(graphs: seq<Graph>, flow: Flow, ksp: PathOracle, i: nat, end: nat): (r: Run)
    requires flow.graphIndex <= i && end <= |graphs|
    ensures |r.graphs| == |graphs|
    ensures forall j :: 0 <= j < |graphs| && !(i <= j < end) ==> r.graphs[j] == graphs[j]
    ensures forall j :: 0 <= j < |graphs| ==> r.graphs[j].nodes == graphs[j].nodes && r.graphs[j].adj == graphs[j].adj
    decreases end - i
  {
    if i >= end then Run(graphs, None)
    else
      var r := SnapshotStep(graphs, i, flow, ksp);
      if r.fault.Some? then r else Window(r.graphs, flow, ksp, i + 1, end)
  }

  /** The snapshot indices `process_flow` visits: `graph_index` up to
      `graph_index + duration`, cut off at the end of the list. */
  function WindowEnd(flow: Flow, duration: int, count: nat): (e: nat)
    ensures e <= count
    ensures 0 <= flow.graphIndex + duration <= count ==> e == flow.graphIndex + duration
    ensures flow.graphIndex + duration > count ==> e == count
    ensures flow.graphIndex + duration < 0 ==> e == 0
  {
    var e := flow.graphIndex + duration;
    if e < 0 then 0 else if e < count then e else count
  }

  /** `process_flow`: a missing `duration` key is a `KeyError`. */
  function ProcessFlowSpec(graphs: seq<Graph>, flow: Flow, ksp: PathOracle): (r: Run)
    ensures |r.graphs| == |graphs|
    ensures forall j :: 0 <= j < |graphs| ==> r.graphs[j].nodes == graphs[j].nodes && r.graphs[j].adj == graphs[j].adj
    ensures flow.duration.None? ==> r == Run(graphs, Some(KeyError("duration")))
    ensures flow.duration.Some? ==>
      forall j :: 0 <= j < |graphs| && !(flow.graphIndex <= j < flow.graphIndex + flow.duration.value) ==> r.graphs[j] == graphs[j]
  {
    match flow.duration
    case None => Run(graphs, Some(KeyError("duration")))
    case Some(d) =>
      var e := WindowEnd(flow, d, |graphs|);
      if e <= flow.graphIndex then Run(graphs, None) else Window(graphs, flow, ksp, flow.graphIndex, e)
  }

  /** `control_flow` from flow `k` on: flows in list order, stopping at the
      first exception. */
  function ControlFlowSpec(graphs: seq<Graph>, flows: seq<Flow>, ksp: PathOracle, k: nat): (r: Run)
    requires k <= |flows|
    ensures |r.graphs| == |graphs|
    ensures forall j :: 0 <= j < |graphs| ==> r.graphs[j].nodes == graphs[j].nodes && r.graphs[j].adj == graphs[j].adj
    decreases |flows| - k
  {
    if k == |flows| then Run(graphs, None)
    else
      var r := ProcessFlowSpec(graphs, flows[k], ksp);
      if r.fault.Some? then r else ControlFlowSpec(r.graphs, flows, ksp, k + 1)
  }

  // ----------------------------------------------------------------------
  // The controller

  /** Every edge's `bandwidth` set to `bw`, every other attribute kept (the
      constructor's loop over `graph.edges()`). */
  method SetBandwidthAll(g: Graph, bw: real) returns (r: Graph)
    requires Valid(g)
    ensures r.nodes == g.nodes && r.adj == g.adj
    ensures Valid(r)
    ensures forall x, y :: Attr(r, x, y) == if HasEdge(g, x, y) then Attr(g, x, y).(bandwidth := Some(bw)) else Attr(g, x, y)
  {
    r := UpdateEdges(g, (x: Node, y: Node, a: Attrs) => a.(bandwidth := Some(bw)));
  }

  /** The constructor's loop over `graph_list`: every snapshot at full
      capacity. */
  method Provision(graphList: seq<Graph>) returns (gs: seq<Graph>)
    requires forall i :: 0 <= i < |graphList| ==> Valid(graphList[i])
    ensures |gs| == |graphList|
    ensures forall i :: 0 <= i < |gs| ==> Valid(gs[i]) && gs[i].nodes == graphList[i].nodes && gs[i].adj == graphList[i].adj
    ensures forall i, x, y :: 0 <= i < |gs| ==>
              Attr(gs[i], x, y) == (if HasEdge(graphList[i], x, y) then Attr(graphList[i], x, y).(bandwidth := Some(LinkCapacity)) else Attr(graphList[i], x, y))
  {
    gs := [];
    for i := 0 to |graphList|
      invariant |gs| == i
      invariant forall j :: 0 <= j < i ==> Valid(gs[j]) && gs[j].nodes == graphList[j].nodes && gs[j].adj == graphList[j].adj
      invariant forall j, x, y :: 0 <= j < i ==>
                  Attr(gs[j], x, y) == (if HasEdge(graphList[j], x, y) then Attr(graphList[j], x, y).(bandwidth := Some(LinkCapacity)) else Attr(graphList[j], x, y))
    {
      var g := SetBandwidthAll(graphList[i], LinkCapacity);
      gs := gs + [g];
    }
  }

  /** After provisioning every edge has a `bandwidth` key holding the full
      capacity. */
  lemma ProvisionedAtCapacity(g: Graph, h: Graph)
    requires h.adj == g.adj
    requires forall x, y :: Attr(h, x, y) == if HasEdge(g, x, y) then Attr(g, x, y).(bandwidth := Some(LinkCapacity)) else Attr(g, x, y)
    ensures Provisioned(h)
    ensures forall x, y :: HasEdge(h, x, y) ==> Available(h, x, y) == LinkCapacity
  {
    assert forall x, y :: HasEdge(h, x, y) <==> HasEdge(g, x, y);
  }

  class FlowController {
    const counter: Counters.Counter
    var flows: seq<Flow>
    var graphs: seq<Graph>
    /** `nx.shortest_simple_paths`, unweighted. */
    const ksp: PathOracle

    ghost predicate Inv()
      reads this
    {
      forall i :: 0 <= i < |graphs| ==> Valid(graphs[i])
    }

    /** `FlowController(flows, graph_list)`: obtains the counter singleton,
        then sets every edge of every snapshot to the full capacity. */
    constructor (flows: seq<Flow>, graphList: seq<Graph>, cls: Counters.CounterClass, ksp: PathOracle)
      requires cls.Inv()
      requires forall i :: 0 <= i < |graphList| ==> Valid(graphList[i])
      modifies cls, cls.instance
      ensures this.flows == flows && this.ksp == ksp && Inv()
      ensures cls.Inv() && counter == cls.instance
      ensures |graphs| == |graphList|
      ensures forall i :: 0 <= i < |graphs| ==> graphs[i].nodes == graphList[i].nodes && graphs[i].adj == graphList[i].adj
      ensures forall i, x, y :: 0 <= i < |graphs| ==>
                Attr(graphs[i], x, y) == (if HasEdge(graphList[i], x, y) then Attr(graphList[i], x, y).(bandwidth := Some(LinkCapacity)) else Attr(graphList[i], x, y))
    {
      var c := cls.Call();
      var gs := Provision(graphList);
      counter := c;
      this.flows := flows;
      graphs := gs;
      this.ksp := ksp;
    }

    /** `check_resource`: always reads the snapshot at the flow's own
        `graph_index`. */
    method CheckResource(flow: Flow, path: Path) returns (ok: bool)
      requires flow.graphIndex < |graphs|
      ensures ok <==> HasResource(graphs[flow.graphIndex], path, Demand(flow))
    {
      var req := Demand(flow);
      var g := graphs[flow.graphIndex];
      for i := 0 to if |path| == 0 then 0 else |path| - 1
        invariant forall j :: 0 <= j < i ==> HasEdge(g, path[j], path[j + 1]) && Available(g, path[j], path[j + 1]) >= req
      {
        if !HasEdge(g, path[i], path[i + 1]) {
          return false;
        }
        if Available(g, path[i], path[i + 1]) < req {
          return false;
        }
      }
      return true;
    }

    /** The first part of `find_path` on snapshot `g`: the pruned copy, cut
        along the primary for a backup search, and the endpoints; `g`
        itself is never changed. */
    method SearchGraph(g: Graph, flow: Flow, mode: PathType) returns (r: Outcome<(Graph, Node, Node)>)
      ensures r == SearchSetup(g, flow, mode)
    {
      hide RemoveNodes, RemoveNode, RemoveEdge, OtherFacilities;
      var copy := RemoveNodes(g, OtherFacilities(g.nodes, flow.targetNode));
      if mode.Primary? {
        return Ok((copy, flow.startNode, flow.targetNode));
      }
      var p := mode.existing;
      var pruned := copy;
      var i := 1;
      while i < |p| - 1
        invariant 1 <= i && (i == 1 || i <= |p| - 1)
        invariant copy == CutEdges(pruned, p, i)
      {
        if HasEdge(copy, p[i - 1], p[i]) {
          copy := RemoveEdge(copy, p[i - 1], p[i]);
        }
        i := i + 1;
      }
      assert copy == CutEdges(pruned, p, |p| - 1);
      if HasNode(copy, flow.targetNode) {
        copy := RemoveNode(copy, flow.targetNode);
      }
      if |p| < 2 {
        return Raised(IndexError);
      }
      return Ok((copy, p[0], p[|p| - 2]));
    }

    /** `find_path`'s loop over at most four candidates: the first that
        passes `check_resource`. */
    method FirstFeasible(paths: seq<Path>, flow: Flow) returns (r: Option<Path>)
      requires flow.graphIndex < |graphs|
      ensures r == FirstPassing(paths, graphs[flow.graphIndex], Demand(flow))
    {
      for k := 0 to |paths|
        invariant FirstPassing(paths, graphs[flow.graphIndex], Demand(flow)) ==
                  FirstPassing(paths[k..], graphs[flow.graphIndex], Demand(flow))
      {
        assert paths[k..][1..] == paths[k + 1..];
        var ok := CheckResource(flow, paths[k]);
        if ok {
          return Some(paths[k]);
        }
      }
      return None;
    }

    /** `find_path` on snapshot `g`: a missing endpoint of the search graph
        (networkx's `NodeNotFound`) gives `None`. */
    method FindPath(g: Graph, flow: Flow, mode: PathType) returns (r: Outcome<Option<Path>>)
      requires flow.graphIndex < |graphs|
      ensures r == FindPathSpec(graphs, g, flow, mode, ksp)
    {
      hide SearchSetup, FirstPassing;
      var setup := SearchGraph(g, flow, mode);
      if setup.Raised? {
        return Raised(setup.fault);
      }
      var (copy, source, target) := setup.value;
      if !HasNode(copy, source) || !HasNode(copy, target) {
        return Ok(None);
      }
      var found := FirstFeasible(Take(ksp(copy, source, target), CandidateLimit), flow);
      return Ok(found);
    }

    /** `allocate_resource(graph_list[i], flow, path)`, in place. */
    method AllocateResource(i: nat, flow: Flow, path: Path) returns (fault: Option<Fault>)
      requires i < |graphs|
      modifies this
      ensures graphs == old(graphs)[i := AllocFrom(old(graphs)[i], path, Demand(flow), 0).0]
      ensures fault == AllocFrom(old(graphs)[i], path, Demand(flow), 0).1
      ensures flows == old(flows)
    {
      var req := Demand(flow);
      var g := graphs[i];
      var k := 0;
      while k + 1 < |path|
        invariant AllocFrom(g, path, req, k) == AllocFrom(old(graphs)[i], path, req, 0)
        decreases |path| - k
      {
        if !HasEdge(g, path[k], path[k + 1]) {
          graphs := graphs[i := g];
          return Some(ValueError);
        }
        var a := Attr(g, path[k], path[k + 1]);
        if a.bandwidth.None? {
          graphs := graphs[i := g];
          return Some(KeyError("bandwidth"));
        }
        g := SetAttr(g, path[k], path[k + 1], a.(bandwidth := Some(a.bandwidth.value - req)));
        k := k + 1;
      }
      graphs := graphs[i := g];
      return None;
    }

    /** One iteration of `process_flow`'s loop, on snapshot `i`. */
    method ProcessSnapshot(i: nat, flow: Flow) returns (fault: Option<Fault>)
      requires i < |graphs| && flow.graphIndex < |graphs|
      modifies this
      ensures graphs == SnapshotStep(old(graphs), i, flow, ksp).graphs
      ensures fault == SnapshotStep(old(graphs), i, flow, ksp).fault
      ensures flows == old(flows)
    {
      var g := graphs[i];
      var primary := FindPath(g, flow, Primary);
      if primary.Raised? {
        return Some(primary.fault);
      }
      if primary.value.None? {
        return None;
      }
      var backup := FindPath(g, flow, Backup(primary.value.value));
      if backup.Raised? {
        return Some(backup.fault);
      }
      if backup.value.None? {
        return None;
      }
      fault := AllocateResource(i, flow, primary.value.value);
      if fault.Some? {
        return;
      }
      fault := AllocateResource(i, flow, backup.value.value);
    }

    /** `process_flow(idx, flow)` */
    method ProcessFlow(flow: Flow) returns (fault: Option<Fault>)
      modifies this
      ensures graphs == ProcessFlowSpec(old(graphs), flow, ksp).graphs
      ensures fault == ProcessFlowSpec(old(graphs), flow, ksp).fault
      ensures flows == old(flows)
    {
      hide SnapshotStep;
      if flow.duration.None? {
        return Some(KeyError("duration"));
      }
      var e := WindowEnd(flow, flow.duration.value, |graphs|);
      if e <= flow.graphIndex {
        return None;
      }
      var i := flow.graphIndex;
      while i < e
        invariant flow.graphIndex <= i <= e <= |graphs| && |graphs| == |old(graphs)|
        invariant Window(graphs, flow, ksp, i, e) == Window(old(graphs), flow, ksp, flow.graphIndex, e)
        invariant flows == old(flows)
        decreases e - i
      {
        fault := ProcessSnapshot(i, flow);
        if fault.Some? {
          return;
        }
        i := i + 1;
      }
      return None;
    }

    /** `control_flow()`: records the number of flows, then processes them
        in list order. Only `total_flows` of the counter changes. */
    method ControlFlow() returns (fault: Option<Fault>)
      modifies this, counter
      ensures counter.totalFlows == |flows|
      ensures counter.blockedFlows == old(counter.blockedFlows)
      ensures counter.countSwitches == old(counter.countSwitches)
      ensures counter.nodeUsage == old(counter.nodeUsage)
      ensures flows == old(flows)
      ensures graphs == ControlFlowSpec(old(graphs), flows, ksp, 0).graphs
      ensures fault == ControlFlowSpec(old(graphs), flows, ksp, 0).fault
    {
      hide ProcessFlowSpec;
      counter.totalFlows := |flows|;
      for k := 0 to |flows|
        invariant flows == old(flows)
        invariant counter.totalFlows == |flows|
        invariant counter.blockedFlows == old(counter.blockedFlows)
        invariant counter.countSwitches == old(counter.countSwitches)
        invariant counter.nodeUsage == old(counter.nodeUsage)
        invariant ControlFlowSpec(graphs, flows, ksp, k) == ControlFlowSpec(old(graphs), flows, ksp, 0)
      {
        var f := ProcessFlow(flows[k]);
        if f.Some? {
          return f;
        }
      }
      return None;
    }
  }

  // ----------------------------------------------------------------------
  // What the steps guarantee

  /** A primary path is a simple path from the flow's start to its target
      in the snapshot, with no facility but the target, and it passed the
      resource check on the flow's own snapshot. */
  lemma PrimaryPathShape(graphs: seq<Graph>, g: Graph, flow: Flow, ksp: PathOracle)
    requires flow.graphIndex < |graphs| && Valid(g) && SoundOracle(ksp)
    requires Found(FindPathSpec(graphs, g, flow, Primary, ksp))
    ensures var p := FindPathSpec(graphs, g, flow, Primary, ksp).value.value;
      && IsSimplePath(g, p, flow.startNode, flow.targetNode)
      && (forall k :: 0 <= k < |p| && IsFacility(p[k]) ==> p[k] == flow.targetNode)
      && HasResource(graphs[flow.graphIndex], p, Demand(flow))
  {
    var h := Pruned(g, flow.targetNode);
    PrunedValid(g, flow.targetNode);
    var cands := Take(ksp(h, flow.startNode, flow.targetNode), CandidateLimit);
    var p := FindPathSpec(graphs, g, flow, Primary, ksp).value.value;
    var i :| 0 <= i < |cands| && cands[i] == p && HasResource(graphs[flow.graphIndex], cands[i], Demand(flow));
    assert p in ksp(h, flow.startNode, flow.targetNode);
    assert IsSimplePath(h, p, flow.startNode, flow.targetNode);
    WalkMonotone(h, g, p);
  }

  /** The result is the first of at most four candidates of the search that
      passes the resource check; the ones before it fail the check. */
  lemma FirstOfFour(graphs: seq<Graph>, g: Graph, flow: Flow, mode: PathType, ksp: PathOracle)
    requires flow.graphIndex < |graphs|
    requires Found(FindPathSpec(graphs, g, flow, mode, ksp))
    ensures SearchSetup(g, flow, mode).Ok?
    ensures var (h, s, t) := SearchSetup(g, flow, mode).value;
      var cands := ksp(h, s, t);
      var req := Demand(flow);
      exists i :: 0 <= i < CandidateLimit && i < |cands| &&
        cands[i] == FindPathSpec(graphs, g, flow, mode, ksp).value.value &&
        HasResource(graphs[flow.graphIndex], cands[i], req) &&
        forall j :: 0 <= j < i ==> !HasResource(graphs[flow.graphIndex], cands[j], req)
  {
    var (h, s, t) := SearchSetup(g, flow, mode).value;
    var cands := Take(ksp(h, s, t), CandidateLimit);
    var req := Demand(flow);
    var p := FindPathSpec(graphs, g, flow, mode, ksp).value.value;
    var i :| 0 <= i < |cands| && cands[i] == p && HasResource(graphs[flow.graphIndex], cands[i], req) &&
             forall j :: 0 <= j < i ==> !HasResource(graphs[flow.graphIndex], cands[j], req);
    assert forall j :: 0 <= j <= i ==> ksp(h, s, t)[j] == cands[j];
  }

  /** A backup for a primary `p` that ends at the target starts where `p`
      starts, ends at `p`'s second-to-last node, visits no facility at all,
      shares no link with `p`, and is a simple path of the snapshot. */
  lemma BackupPathShape(graphs: seq<Graph>, g: Graph, flow: Flow, p: Path, ksp: PathOracle)
    requires flow.graphIndex < |graphs| && Valid(g) && SoundOracle(ksp)
    requires |p| >= 2 && p[|p| - 1] == flow.targetNode
    requires Found(FindPathSpec(graphs, g, flow, Backup(p), ksp))
    ensures var b := FindPathSpec(graphs, g, flow, Backup(p), ksp).value.value;
      && IsSimplePath(g, b, p[0], p[|p| - 2])
      && (forall k :: 0 <= k < |b| ==> !IsFacility(b[k]))
      && (forall i, j :: 0 <= i < |b| - 1 && 0 <= j < |p| - 1 ==> !SameLink(b[i], b[i + 1], p[j], p[j + 1]))
  {
    hide RemoveNodes, RemoveNode, RemoveEdge, Pruned, CutEdges, FirstPassing, Take, HasResource, OtherFacilities;
    var t := flow.targetNode;
    var h0 := Pruned(g, t);
    PrunedValid(g, t);
    var h1 := CutEdges(h0, p, |p| - 1);
    CutEdgesValid(h0, p, |p| - 1);
    var h2 := BackupGraph(g, t, p);
    assert forall n :: HasNode(h2, n) ==> HasNode(h0, n) && n != t;
    assert forall x, y :: HasEdge(h2, x, y) ==> HasEdge(h1, x, y) && x != t && y != t;
    var cands := Take(ksp(h2, p[0], p[|p| - 2]), CandidateLimit);
    var b := FindPathSpec(graphs, g, flow, Backup(p), ksp).value.value;
    var i0 :| 0 <= i0 < |cands| && cands[i0] == b;
    assert b in ksp(h2, p[0], p[|p| - 2]);
    assert IsSimplePath(h2, b, p[0], p[|p| - 2]);
    forall k | 0 <= k < |b| ensures !IsFacility(b[k]) {
      assert HasNode(h2, b[k]);
    }
    forall i, j | 0 <= i < |b| - 1 && 0 <= j < |p| - 1 ensures !SameLink(b[i], b[i + 1], p[j], p[j + 1]) {
      assert HasEdge(h1, b[i], b[i + 1]);
      if j + 1 < |p| - 1 {
        OnPrefixHops(p, |p| - 1, b[i], b[i + 1]);
      }
    }
    WalkMonotone(h2, g, b);
  }

  /** Primary searches never raise. */
  lemma PrimaryNeverRaises(graphs: seq<Graph>, g: Graph, flow: Flow, ksp: PathOracle)
    requires flow.graphIndex < |graphs|
    ensures FindPathSpec(graphs, g, flow, Primary, ksp).Ok?
  {
  }

  /** A backup search raises exactly when the path it is given has fewer
      than two nodes. */
  lemma BackupRaisesOnShortPath(graphs: seq<Graph>, g: Graph, flow: Flow, p: Path, ksp: PathOracle)
    requires flow.graphIndex < |graphs|
    ensures FindPathSpec(graphs, g, flow, Backup(p), ksp).Raised? <==> |p| < 2
  {
  }

  /** A snapshot is charged only when both a primary and a backup path were
      found; otherwise the whole list is left as it was. */
  lemma ChargedOnlyWithBothPaths(graphs: seq<Graph>, i: nat, flow: Flow, ksp: PathOracle)
    requires i < |graphs| && flow.graphIndex < |graphs|
    requires SnapshotStep(graphs, i, flow, ksp).graphs != graphs
    ensures Found(FindPathSpec(graphs, graphs[i], flow, Primary, ksp))
    ensures Found(FindPathSpec(graphs, graphs[i], flow, Backup(FindPathSpec(graphs, graphs[i], flow, Primary, ksp).value.value), ksp))
  {
  }

  /** The allocation keeps the snapshot a valid graph. */
  lemma {:induction false} AllocValid(g: Graph, path: Path, req: real, i: nat)
    requires Valid(g)
    ensures Valid(AllocFrom(g, path, req, i).0)
    decreases |path| - i
  {
    if i + 1 < |path| && HasEdge(g, path[i], path[i + 1]) {
      var a := Attr(g, path[i], path[i + 1]);
      if a.bandwidth.Some? {
        var a' := a.(bandwidth := Some(a.bandwidth.value - req));
        SetAttrValid(g, path[i], path[i + 1], a');
        AllocValid(SetAttr(g, path[i], path[i + 1], a'), path, req, i + 1);
      }
    }
  }

  /** When every hop of `path` is an edge with a `bandwidth` key,
      allocation decreases each link by the demand once per hop along it;
      every other link keeps its value. */
  lemma AllocAvailable(g: Graph, path: Path, req: real, x: Node, y: Node)
    requires Valid(g) && Chargeable(g, path, 0)
    ensures Available(AllocFrom(g, path, req, 0).0, x, y) == Available(g, x, y) - req * (HopsOn(path, x, y, 0) as real)
  {
    hide AllocFrom, Charge, HopsOn, Valid, Available;
    AllocCharges(g, path, req, 0, x, y);
    ChargeIsHops(path, x, y, 0, req);
  }

  lemma {:induction false} AllocCharges(g: Graph, path: Path, req: real, i: nat, x: Node, y: Node)
    requires Valid(g) && Chargeable(g, path, i)
    ensures Available(AllocFrom(g, path, req, i).0, x, y) == Available(g, x, y) - Charge(path, x, y, i, req)
    decreases |path| - i
  {
    if i + 1 < |path| {
      var (u, v) := (path[i], path[i + 1]);
      var a := Attr(g, u, v);
      var a' := a.(bandwidth := Some(a.bandwidth.value - req));
      var g' := SetAttr(g, u, v, a');
      SetAttrValid(g, u, v, a');
      ChargeableStep(g, path, req, i, i + 1);
      AllocCharges(g', path, req, i + 1, x, y);
      if SameLink(u, v, x, y) {
        assert Attr(g, x, y) == a;
      }
    }
  }

  /** Charging hop `i` leaves the later hops chargeable exactly when they
      were, and the rest of the allocation starts from the charged copy. */
  lemma {:induction false} ChargeableStep(g: Graph, path: Path, req: real, i: nat, j: nat)
    requires Valid(g) && i + 1 < |path| && HasEdge(g, path[i], path[i + 1]) && Attr(g, path[i], path[i + 1]).bandwidth.Some?
    ensures var a := Attr(g, path[i], path[i + 1]);
      var g' := SetAttr(g, path[i], path[i + 1], a.(bandwidth := Some(a.bandwidth.value - req)));
      Chargeable(g', path, j) <==> Chargeable(g, path, j)
    decreases |path| - j
  {
    var (u, v) := (path[i], path[i + 1]);
    var a := Attr(g, u, v);
    var g' := SetAttr(g, u, v, a.(bandwidth := Some(a.bandwidth.value - req)));
    if j + 1 < |path| {
      ChargeableStep(g, path, req, i, j + 1);
      if SameLink(path[j], path[j + 1], u, v) {
        assert HasEdge(g, path[j], path[j + 1]) ==> Attr(g, path[j], path[j + 1]) == a;
      }
    }
  }

  /** Allocation along hops that all exist raises nothing and keeps every
      edge provisioned. */
  lemma {:induction false} AllocKeepsProvisioned(g: Graph, path: Path, req: real, i: nat)
    requires Valid(g) && Provisioned(g)
    requires forall k :: i <= k < |path| - 1 ==> HasEdge(g, path[k], path[k + 1])
    ensures AllocFrom(g, path, req, i).1 == None
    ensures Provisioned(AllocFrom(g, path, req, i).0)
    decreases |path| - i
  {
    if i + 1 < |path| {
      var (u, v) := (path[i], path[i + 1]);
      var a := Attr(g, u, v);
      var a' := a.(bandwidth := Some(a.bandwidth.value - req));
      var g' := SetAttr(g, u, v, a');
      SetAttrValid(g, u, v, a');
      assert Provisioned(g') by {
        forall x, y | HasEdge(g', x, y) ensures Attr(g', x, y).bandwidth.Some? {
          assert HasEdge(g, x, y);
        }
      }
      AllocKeepsProvisioned(g', path, req, i + 1);
    }
  }

  /** Allocation raises exactly when some hop is not an edge or carries no
      `bandwidth` key. */
  lemma {:induction false} AllocFaults(g: Graph, path: Path, req: real, i: nat)
    requires Valid(g)
    ensures AllocFrom(g, path, req, i).1 == None <==> Chargeable(g, path, i)
    decreases |path| - i
  {
    if i + 1 < |path| {
      var (u, v) := (path[i], path[i + 1]);
      if HasEdge(g, u, v) && Attr(g, u, v).bandwidth.Some? {
        var a := Attr(g, u, v);
        var a' := a.(bandwidth := Some(a.bandwidth.value - req));
        SetAttrValid(g, u, v, a');
        ChargeableStep(g, path, req, i, i + 1);
        AllocFaults(SetAttr(g, u, v, a'), path, req, i + 1);
      }
    }
  }

  /** The subtraction is not clamped: a demand above the capacity drives
      the link negative. */
  lemma AllocationNotClamped()
    ensures var a := NoAttrs.(bandwidth := Some(LinkCapacity));
      var g := Graph(["A", "B"], map["A" := ["B"], "B" := ["A"]], map[("A", "B") := a, ("B", "A") := a]);
      var r := AllocFrom(g, ["A", "B"], 15.0, 0);
      r.1 == None && Available(r.0, "A", "B") == -5.0
  {
    var a := NoAttrs.(bandwidth := Some(LinkCapacity));
    var g := Graph(["A", "B"], map["A" := ["B"], "B" := ["A"]], map[("A", "B") := a, ("B", "A") := a]);
    assert HasEdge(g, "A", "B");
    var g' := SetAttr(g, "A", "B", NoAttrs.(bandwidth := Some(-5.0)));
    assert AllocFrom(g, ["A", "B"], 15.0, 0) == AllocFrom(g', ["A", "B"], 15.0, 1);
  }

  /** Processing one snapshot keeps it a valid graph. */
  lemma SnapshotValid(graphs: seq<Graph>, i: nat, flow: Flow, ksp: PathOracle)
    requires i < |graphs| && flow.graphIndex < |graphs| && Valid(graphs[i])
    ensures Valid(SnapshotStep(graphs, i, flow, ksp).graphs[i])
  {
    hide FindPathSpec, AllocFrom;
    var g := graphs[i];
    var pr := FindPathSpec(graphs, g, flow, Primary, ksp);
    if Found(pr) {
      var br := FindPathSpec(graphs, g, flow, Backup(pr.value.value), ksp);
      if Found(br) {
        AllocValid(g, pr.value.value, Demand(flow), 0);
        AllocValid(AllocFrom(g, pr.value.value, Demand(flow), 0).0, br.value.value, Demand(flow), 0);
      }
    }
  }

  /** `control_flow` keeps every snapshot a valid graph, whatever it
      raises. */
  lemma {:induction false} WindowValid(graphs: seq<Graph>, flow: Flow, ksp: PathOracle, i: nat, end: nat)
    requires flow.graphIndex <= i && end <= |graphs|
    requires forall j :: 0 <= j < |graphs| ==> Valid(graphs[j])
    ensures forall j :: 0 <= j < |graphs| ==> Valid(Window(graphs, flow, ksp, i, end).graphs[j])
    decreases end - i
  {
    hide SnapshotStep;
    if i < end {
      SnapshotValid(graphs, i, flow, ksp);
      var r := SnapshotStep(graphs, i, flow, ksp);
      if r.fault.None? {
        WindowValid(r.graphs, flow, ksp, i + 1, end);
      }
    }
  }

  lemma {:induction false} ControlFlowValid(graphs: seq<Graph>, flows: seq<Flow>, ksp: PathOracle, k: nat)
    requires k <= |flows|
    requires forall j :: 0 <= j < |graphs| ==> Valid(graphs[j])
    ensures forall j :: 0 <= j < |graphs| ==> Valid(ControlFlowSpec(graphs, flows, ksp, k).graphs[j])
    decreases |flows| - k
  {
    if k < |flows| {
      var flow := flows[k];
      if flow.duration.Some? {
        var e := WindowEnd(flow, flow.duration.value, |graphs|);
        if e > flow.graphIndex {
          WindowValid(graphs, flow, ksp, flow.graphIndex, e);
        }
      }
      var r := ProcessFlowSpec(graphs, flow, ksp);
      if r.fault.None? {
        ControlFlowValid(r.graphs, flows, ksp, k + 1);
      }
    }
  }

  /** With a sound search and a flow whose endpoints differ, one
      snapshot's processing raises nothing and keeps every edge
      provisioned. */
  lemma SnapshotNoFault(graphs: seq<Graph>, i: nat, flow: Flow, ksp: PathOracle)
    requires i < |graphs| && flow.graphIndex < |graphs|
    requires SoundOracle(ksp) && flow.startNode != flow.targetNode
    requires Valid(graphs[i]) && Provisioned(graphs[i])
    ensures SnapshotStep(graphs, i, flow, ksp).fault == None
    ensures Provisioned(SnapshotStep(graphs, i, flow, ksp).graphs[i])
  {
    hide FindPathSpec, AllocFrom, Pruned, BackupGraph, CutEdges, RemoveNodes, RemoveNode, SearchSetup, FirstPassing, HasResource;
    var g := graphs[i];
    var req := Demand(flow);
    var pr := FindPathSpec(graphs, g, flow, Primary, ksp);
    PrimaryNeverRaises(graphs, g, flow, ksp);
    if Found(pr) {
      var p := pr.value.value;
      PrimaryPathShape(graphs, g, flow, ksp);
      assert |p| >= 2;
      var br := FindPathSpec(graphs, g, flow, Backup(p), ksp);
      BackupRaisesOnShortPath(graphs, g, flow, p, ksp);
      if Found(br) {
        var b := br.value.value;
        BackupPathShape(graphs, g, flow, p, ksp);
        AllocKeepsProvisioned(g, p, req, 0);
        AllocValid(g, p, req, 0);
        var g1 := AllocFrom(g, p, req, 0).0;
        assert forall x, y :: HasEdge(g1, x, y) <==> HasEdge(g, x, y);
        AllocKeepsProvisioned(g1, b, req, 0);
      }
    }
  }

  /** Lifted to a window. */
  lemma {:induction false} WindowNoFault(graphs: seq<Graph>, flow: Flow, ksp: PathOracle, i: nat, end: nat)
    requires flow.graphIndex <= i && end <= |graphs|
    requires SoundOracle(ksp) && flow.startNode != flow.targetNode
    requires forall j :: 0 <= j < |graphs| ==> Valid(graphs[j]) && Provisioned(graphs[j])
    ensures Window(graphs, flow, ksp, i, end).fault == None
    ensures forall j :: 0 <= j < |graphs| ==> Provisioned(Window(graphs, flow, ksp, i, end).graphs[j])
    decreases end - i
  {
    hide SnapshotStep;
    if i < end {
      SnapshotNoFault(graphs, i, flow, ksp);
      SnapshotValid(graphs, i, flow, ksp);
      var r := SnapshotStep(graphs, i, flow, ksp);
      WindowNoFault(r.graphs, flow, ksp, i + 1, end);
    }
  }

  /** With a sound path search, `control_flow` raises only for a flow
      without a `duration` key or whose start node is its target: every
      other flow's searches and allocations succeed. */
  lemma {:induction false} ControlFlowNoFault(graphs: seq<Graph>, flows: seq<Flow>, ksp: PathOracle, k: nat)
    requires k <= |flows| && SoundOracle(ksp)
    requires forall j :: k <= j < |flows| ==> flows[j].duration.Some? && flows[j].startNode != flows[j].targetNode
    requires forall j :: 0 <= j < |graphs| ==> Valid(graphs[j]) && Provisioned(graphs[j])
    ensures ControlFlowSpec(graphs, flows, ksp, k).fault == None
    decreases |flows| - k
  {
    if k < |flows| {
      var flow := flows[k];
      var e := WindowEnd(flow, flow.duration.value, |graphs|);
      if e > flow.graphIndex {
        WindowNoFault(graphs, flow, ksp, flow.graphIndex, e);
        WindowValid(graphs, flow, ksp, flow.graphIndex, e);
      }
      ControlFlowNoFault(ProcessFlowSpec(graphs, flow, ksp).graphs, flows, ksp, k + 1);
    }
  }
}
