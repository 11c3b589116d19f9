/** The flow generator of src/network/flow_generator.py: for every
    snapshot index present in `graph_dict` it appends `num_flows` fresh
    flows, each from a satellite to a ground facility of that snapshot,
    to a list that is never cleared. `random.choice` and
    `random.uniform` are nondeterministic choices. */
module FlowGen {
  import opened Common
  import opened Graphs
  import opened TimeGrid
  import opened NodeLists

  /** A `graph_dict` entry: `{'graph': ..., 'time': ...}`. */
  datatype GraphInfo = GraphInfo(graph: Graph, time: Time)

  /** A flow record as `generate_flows` builds it. */
  datatype Flow = Flow(
    graphIndex: nat,
    primaryPath: Option<Path>,
    backupPath: Option<Path>,
    startNode: Node,
    targetNode: Node,
    delay: real)

  function Repeat(x: nat, n: nat): (r: seq<nat>)
    ensures |r| == n && forall k :: 0 <= k < n ==> r[k] == x
  {
    if n == 0 then [] else Repeat(x, n - 1) + [x]
  }

  /** The snapshot index of every flow appended by visiting the indices
      `0 .. m-1` in order, `n` flows per index present in `d`. */
  function Schedule(d: map<nat, GraphInfo>, n: nat, m: nat): (r: seq<nat>)
    ensures forall i :: 0 <= i < |r| ==> r[i] < m && r[i] in d
  {
    if m == 0 then []
    else Schedule(d, n, m - 1) + (if m - 1 in d then Repeat(m - 1, n) else [])
  }

  /** How many of the indices `0 .. m-1` are keys of `d`. */
  function PresentCount(d: map<nat, GraphInfo>, m: nat): (c: nat)
    ensures c <= m
  {
    if m == 0 then 0 else PresentCount(d, m - 1) + (if m - 1 in d then 1 else 0)
  }

  /** Exactly `n` flows per present index ... */
  lemma {:induction false} ScheduleLength(d: map<nat, GraphInfo>, n: nat, m: nat)
    ensures |Schedule(d, n, m)| == n * PresentCount(d, m)
  {
    if m > 0 {
      ScheduleLength(d, n, m - 1);
      var c := PresentCount(d, m - 1);
      assert n * (c + 1) == n * c + n;
    }
  }

  /** ... every present index below `m` and nothing else (when `n > 0`) ... */
  lemma {:induction false} ScheduleMembers(d: map<nat, GraphInfo>, n: nat, m: nat)
    ensures forall k :: k in Schedule(d, n, m) <==> n > 0 && k < m && k in d
  {
    if m > 0 {
      ScheduleMembers(d, n, m - 1);
      var tail := if m - 1 in d then Repeat(m - 1, n) else [];
      assert Schedule(d, n, m) == Schedule(d, n, m - 1) + tail;
      if n > 0 && m - 1 in d { assert tail[0] == m - 1; }
    }
  }

  /** ... in ascending index order. */
  lemma {:induction false} ScheduleSorted(d: map<nat, GraphInfo>, n: nat, m: nat)
    ensures forall i, j :: 0 <= i < j < |Schedule(d, n, m)| ==> Schedule(d, n, m)[i] <= Schedule(d, n, m)[j]
  {
    if m > 0 {
      ScheduleSorted(d, n, m - 1);
    }
  }

  /** The `graph_index` of each flow. */
  function Indices(fs: seq<Flow>): (r: seq<nat>)
    ensures |r| == |fs| && forall k :: 0 <= k < |fs| ==> r[k] == fs[k].graphIndex
  {
    seq(|fs|, k requires 0 <= k < |fs| => fs[k].graphIndex)
  }

  lemma IndicesAppend(a: seq<Flow>, b: seq<Flow>)
    ensures Indices(a + b) == Indices(a) + Indices(b)
  {
  }

  /** Both node lists of a snapshot are non-empty, so both picks succeed. */
  predicate Drawable(info: GraphInfo) {
    OfKind(info.graph.nodes, SatelliteNode) != [] && OfKind(info.graph.nodes, FacilityNode) != []
  }

  /** What a new flow is made of: a present snapshot, no paths yet, a
      satellite and a facility of that snapshot, a delay in
      `[1000, 5000]`. */
  predicate FreshFlow(f: Flow, d: map<nat, GraphInfo>) {
    && f.graphIndex in d
    && f.primaryPath.None? && f.backupPath.None?
    && f.startNode in OfKind(d[f.graphIndex].graph.nodes, SatelliteNode)
    && f.targetNode in OfKind(d[f.graphIndex].graph.nodes, FacilityNode)
    && DelayRange(f.delay)
  }

  /** `round(random.uniform(1000, 5000), 2)` stays in its interval. */
  predicate DelayRange(d: real) {
    1000.0 <= d <= 5000.0
  }

  class FlowGenerator {
    var graphDict: map<nat, GraphInfo>
    var flows: seq<Flow>
    var numFlows: int
    var satellites: seq<Node>
    var facilities: seq<Node>

    /** The state `__init__` sets up; `load_graphs` (file reading) is not
        modelled, so `graph_dict` is filled by assignment. */
    constructor (numFlows: int)
      ensures graphDict == map[] && flows == [] && this.numFlows == numFlows
      ensures satellites == [] && facilities == []
    {
      graphDict := map[];
      flows := [];
      this.numFlows := numFlows;
      satellites, facilities := [], [];
    }

    /** `range(self.num_flows)` runs this often. */
    function Rounds(): nat
      reads this
    {
      if numFlows < 0 then 0 else numFlows
    }

    /** The inner loop for one snapshot. It raises `IndexError` (result
        false) at the first `random.choice` on an empty list, keeping the
        flows appended before. */
    method GenerateFor(index: nat) returns (ok: bool)
      requires index in graphDict
      modifies this
      ensures graphDict == old(graphDict) && numFlows == old(numFlows)
      ensures ok <==> Rounds() == 0 || Drawable(graphDict[index])
      ensures old(flows) <= flows
      ensures ok ==> Indices(flows[|old(flows)|..]) == Repeat(index, Rounds())
      ensures forall k :: |old(flows)| <= k < |flows| ==> FreshFlow(flows[k], graphDict)
      ensures Rounds() == 0 ==> flows == old(flows) && satellites == old(satellites) && facilities == old(facilities)
      ensures Rounds() > 0 ==> satellites == OfKind(graphDict[index].graph.nodes, SatelliteNode)
      ensures Rounds() > 0 ==> facilities == OfKind(graphDict[index].graph.nodes, FacilityNode)
    {
      var graph := graphDict[index].graph;
      var added: seq<Flow> := [];
      ghost var before := flows;
      for i := 0 to Rounds()
        invariant graphDict == old(graphDict) && numFlows == old(numFlows)
        invariant flows == before + added && |added| == i
        invariant forall k :: 0 <= k < i ==> added[k].graphIndex == index && FreshFlow(added[k], graphDict)
        invariant i == 0 ==> satellites == old(satellites) && facilities == old(facilities)
        invariant i > 0 ==> satellites == OfKind(graph.nodes, SatelliteNode) && facilities == OfKind(graph.nodes, FacilityNode)
        invariant i > 0 ==> Drawable(graphDict[index])
      {
        satellites, facilities := GenerateNodeLists(graph);
        if satellites == [] || facilities == [] {
          assert flows[|before|..] == added;
          return false;
        }
        assert satellites[0] in satellites && facilities[0] in facilities;
        var start :| start in satellites;
        var target :| target in facilities;
        assert DelayRange(1000.0);
        var delay :| DelayRange(delay);
        var flow := Flow(index, None, None, start, target, delay);
        flows := flows + [flow];
        added := added + [flow];
      }
      assert flows[|before|..] == added;
      ok := true;
    }

    /** `generate_flows()`: the visit of `range(len(self.graph_dict))`,
        skipping indices that are not keys; the list it returns is
        `self.flows` itself, which keeps the flows of earlier calls. */
    method GenerateFlows() returns (r: Outcome<seq<Flow>>)
      modifies this
      ensures graphDict == old(graphDict) && numFlows == old(numFlows)
      ensures old(flows) <= flows
      ensures r.Ok? ==> r.value == flows
      ensures r.Ok? <==> forall k :: 0 <= k < |graphDict| && k in graphDict ==> Rounds() == 0 || Drawable(graphDict[k])
      ensures r.Raised? ==> r.fault == IndexError
      ensures r.Ok? ==> Indices(flows[|old(flows)|..]) == Schedule(graphDict, Rounds(), |graphDict|)
      ensures forall k :: |old(flows)| <= k < |flows| ==> FreshFlow(flows[k], graphDict)
    {
      hide FreshFlow, Drawable, Repeat;
      ghost var before := flows;
      ghost var d := graphDict;
      ghost var n := Rounds();
      for index := 0 to |graphDict|
        invariant graphDict == d && numFlows == old(numFlows) && Rounds() == n
        invariant before <= flows
        invariant Indices(flows[|before|..]) == Schedule(d, n, index)
        invariant forall k :: |before| <= k < |flows| ==> FreshFlow(flows[k], d)
        invariant forall k :: 0 <= k < index && k in d ==> n == 0 || Drawable(d[k])
      {
        ghost var mid := flows;
        assert Schedule(d, n, index + 1) == Schedule(d, n, index) + (if index in d then Repeat(index, n) else []);
        if index in graphDict {
          var ok := GenerateFor(index);
          if !ok {
            return Raised(IndexError);
          }
          assert flows[|before|..] == mid[|before|..] + flows[|mid|..];
          IndicesAppend(mid[|before|..], flows[|mid|..]);
        }
      }
      r := Ok(flows);
    }
  }
}
