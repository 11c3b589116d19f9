/** The older per-service bandwidth engine of old_traffic_generator.py:
    a service gets a shortest primary path and a backup that keeps the
    primary's last hop, and on each snapshot of its window either keeps
    its paths (when they still fit), or is switched to fresh paths whose
    bandwidth is consumed, or is blocked. Snapshots are graph values; the
    service record is a value the operations return updated; the
    module-level counter is an object. `nx.shortest_path` is a
    parameter. */
module OldTraffic {
  import opened Common
  import opened Graphs
  import opened TimeGrid

  /** `nx.shortest_path(G, s, t)` once both endpoints are known to be in
      `G`: the path found, or `None` for `NetworkXNoPath`. */
  type PathFinder = (Graph, Node, Node) -> Option<Path>

  /** What the model relies on about the search routine: what it returns
      is a simple path between the endpoints. */
  ghost predicate SoundFinder(sp: PathFinder) {
    forall g, s, t, p :: sp(g, s, t) == Some(p) ==> IsSimplePath(g, p, s, t)
  }

  /** A service record; `None` is a path key holding `None`. */
  datatype Service = Service(
    serviceId: int,
    primaryPath: Option<Path>,
    backupPath: Option<Path>,
    startNode: Node,
    targetNode: Node,
    packageSize: real,
    delay: real)

  /** A `graph_dict` entry: the snapshot and its time. */
  datatype Snapshot = Snapshot(graph: Graph, time: Time)

  /** Python truthiness of a path value: present and non-empty. */
  predicate Truthy(p: Option<Path>) {
    p.Some? && p.value != []
  }

  // ----------------------------------------------------------------------
  // check_path_bandwidth

  /** Hop `i` of `p` is an edge holding a `bandwidth` of at least `size`. */
  predicate HopFits(g: Graph, p: Path, i: nat, size: real) {
    && i + 1 < |p|
    && HasEdge(g, p[i], p[i + 1])
    && Attr(g, p[i], p[i + 1]).bandwidth.Some?
    && Attr(g, p[i], p[i + 1]).bandwidth.value >= size
  }

  /** The path is present and every one of its hops fits; a path of 0 or
      1 nodes has no hops and fits. */
  predicate PathFits(g: Graph, path: Option<Path>, size: real) {
    path.Some? && forall i :: 0 <= i < |path.value| - 1 ==> HopFits(g, path.value, i, size)
  }

  /** `check_path_bandwidth`: the loop over `zip(path[:-1], path[1:])`. */
  method CheckPathBandwidth(g: Graph, path: Option<Path>, size: real) returns (ok: bool)
    ensures ok <==> PathFits(g, path, size)
  {
    if path.None? {
      return false;
    }
    var p := path.value;
    for i := 0 to if |p| == 0 then 0 else |p| - 1
      invariant forall j :: 0 <= j < i ==> HopFits(g, p, j, size)
    {
      if !HasEdge(g, p[i], p[i + 1]) {
        assert !HopFits(g, p, i, size);
        return false;
      }
      var a := Attr(g, p[i], p[i + 1]);
      if a.bandwidth.None? || a.bandwidth.value < size {
        assert !HopFits(g, p, i, size);
        return false;
      }
    }
    return true;
  }

  // ----------------------------------------------------------------------
  // update_bandwidth

  function Clamp(x: real): real {
    if x < 0.0 then 0.0 else x
  }

  /** One hop of `update_bandwidth`: a `bandwidth` key is decreased by
      `size` and set to 0 if that made it negative; a link without the key
      is skipped. */
  function DrainHop(g: Graph, u: Node, v: Node, size: real): (r: Graph)
    requires HasEdge(g, u, v)
    ensures r.nodes == g.nodes && r.adj == g.adj
  {
    var a := Attr(g, u, v);
    if a.bandwidth.Some? then SetAttr(g, u, v, a.(bandwidth := Some(Clamp(a.bandwidth.value - size)))) else g
  }

  /** `update_bandwidth` from hop `i` on; `graph[u][v]` on a missing edge
      raises `KeyError` (for `u` when it is not a node, else for `v`). */
  function DrainFrom(g: Graph, path: Path, size: real, i: nat): (r: Outcome<Graph>)
    ensures r.Ok? ==> r.value.nodes == g.nodes && r.value.adj == g.adj
    decreases |path| - i
  {
    if i + 1 >= |path| then Ok(g)
    else if !HasEdge(g, path[i], path[i + 1]) then Raised(KeyError(if HasNode(g, path[i]) then path[i + 1] else path[i]))
    else DrainFrom(DrainHop(g, path[i], path[i + 1], size), path, size, i + 1)
  }

  /** `update_bandwidth(graph, path, package_size)`, in place on the
      snapshot. */
  method UpdateBandwidth(g: Graph, path: Path, size: real) returns (r: Outcome<Graph>)
    ensures r == DrainFrom(g, path, size, 0)
  {
    var h := g;
    var k := 0;
    while k + 1 < |path|
      invariant DrainFrom(h, path, size, k) == DrainFrom(g, path, size, 0)
      decreases |path| - k
    {
      var u, v := path[k], path[k + 1];
      if !HasEdge(h, u, v) {
        return Raised(KeyError(if HasNode(h, u) then v else u));
      }
      var a := Attr(h, u, v);
      if a.bandwidth.Some? {
        var left := a.bandwidth.value - size;
        if left < 0.0 {
          left := 0.0;
        }
        h := SetAttr(h, u, v, a.(bandwidth := Some(left)));
      }
      k := k + 1;
    }
    r := Ok(h);
  }

  /** Hop `i` of `p` is an edge. */
  predicate HopExists(g: Graph, p: Path, i: nat) {
    i + 1 < |p| && HasEdge(g, p[i], p[i + 1])
  }

  /** The update raises exactly when some hop is not an edge. */
  lemma {:induction false} DrainOk(g: Graph, path: Path, size: real, i: nat)
    ensures DrainFrom(g, path, size, i).Ok? <==> forall k :: i <= k < |path| - 1 ==> HopExists(g, path, k)
    decreases |path| - i
  {
    hide DrainHop;
    if i + 1 < |path| {
      if HasEdge(g, path[i], path[i + 1]) {
        var h := DrainHop(g, path[i], path[i + 1], size);
        DrainOk(h, path, size, i + 1);
        assert forall k :: HopExists(h, path, k) <==> HopExists(g, path, k);
      } else {
        assert !HopExists(g, path, i);
      }
    }
  }

  lemma {:induction false} ChargeZero(path: Path, x: Node, y: Node, i: nat, size: real)
    requires HopsOn(path, x, y, i) == 0
    ensures Charge(path, x, y, i, size) == 0.0
    decreases |path| - i
  {
    if i + 1 < |path| {
      ChargeZero(path, x, y, i + 1, size);
    }
  }

  lemma {:induction false} ChargeNonNegative(path: Path, x: Node, y: Node, i: nat, size: real)
    requires size >= 0.0
    ensures Charge(path, x, y, i, size) >= 0.0
    decreases |path| - i
  {
    if i + 1 < |path| {
      ChargeNonNegative(path, x, y, i + 1, size);
    }
  }


  /** Draining keeps a graph well formed. */
  lemma {:induction false} DrainValid(g: Graph, path: Path, size: real, i: nat)
    requires Valid(g) && DrainFrom(g, path, size, i).Ok?
    ensures Valid(DrainFrom(g, path, size, i).value)
    decreases |path| - i
  {
    if i + 1 < |path| {
      var (u, v) := (path[i], path[i + 1]);
      var a := Attr(g, u, v);
      if a.bandwidth.Some? { SetAttrValid(g, u, v, a.(bandwidth := Some(Clamp(a.bandwidth.value - size)))); }
      DrainValid(DrainHop(g, u, v, size), path, size, i + 1);
    }
  }

  /** With a non-negative size, a link's bandwidth ends at the old value
      minus the size once per hop along it, but never below 0 (clamping
      after each hop is clamping once at the end); links the path does not
      use, links without the key and every other attribute are kept. */
  lemma {:induction false} DrainBandwidth(g: Graph, path: Path, size: real, i: nat, x: Node, y: Node)
    requires Valid(g) && size >= 0.0 && DrainFrom(g, path, size, i).Ok?
    ensures var a := Attr(g, x, y);
      Attr(DrainFrom(g, path, size, i).value, x, y) ==
        if HopsOn(path, x, y, i) > 0 && a.bandwidth.Some? then a.(bandwidth := Some(Clamp(a.bandwidth.value - Charge(path, x, y, i, size))))
        else a
    decreases |path| - i
  {
    if i + 1 < |path| {
      var (u, v) := (path[i], path[i + 1]);
      var h := DrainHop(g, u, v, size);
      var a := Attr(g, u, v);
      if a.bandwidth.Some? { SetAttrValid(g, u, v, a.(bandwidth := Some(Clamp(a.bandwidth.value - size)))); }
      if SameLink(u, v, x, y) { EdgeSymmetric(g, u, v); }
      DrainBandwidth(h, path, size, i + 1, x, y);
      ChargeNonNegative(path, x, y, i + 1, size);
      if HopsOn(path, x, y, i + 1) == 0 { ChargeZero(path, x, y, i + 1, size); }
    }
  }

  lemma {:induction false} HopsOnZero(path: Path, x: Node, y: Node, i: nat)
    requires forall j :: i <= j < |path| - 1 ==> !SameLink(path[j], path[j + 1], x, y)
    ensures HopsOn(path, x, y, i) == 0
    decreases |path| - i
  {
    if i + 1 < |path| {
      HopsOnZero(path, x, y, i + 1);
    }
  }

  /** A path without repeated nodes runs along each link at most once. */
  lemma {:induction false} HopsAtMostOnce(path: Path, x: Node, y: Node, i: nat)
    requires NoDup(path)
    ensures HopsOn(path, x, y, i) <= 1
    decreases |path| - i
  {
    if i + 1 < |path| {
      if SameLink(path[i], path[i + 1], x, y) {
        forall j | i + 1 <= j < |path| - 1 ensures !SameLink(path[j], path[j + 1], x, y) {
          assert path[j] != path[i];
          assert path[j + 1] != path[i + 1];
        }
        HopsOnZero(path, x, y, i + 1);
      } else {
        HopsAtMostOnce(path, x, y, i + 1);
      }
    }
  }

  /** On a simple path each link the path uses loses the size once. */
  lemma DrainSimple(g: Graph, path: Path, size: real, x: Node, y: Node)
    requires Valid(g) && size >= 0.0 && NoDup(path) && DrainFrom(g, path, size, 0).Ok?
    ensures var a := Attr(g, x, y);
      Attr(DrainFrom(g, path, size, 0).value, x, y) ==
        if HopsOn(path, x, y, 0) > 0 && a.bandwidth.Some? then a.(bandwidth := Some(Clamp(a.bandwidth.value - size)))
        else a
  {
    DrainBandwidth(g, path, size, 0, x, y);
    HopsAtMostOnce(path, x, y, 0);
    ChargeIsHops(path, x, y, 0, size);
    hide DrainFrom, HopsOn, Charge, Clamp, Valid;
    var n := HopsOn(path, x, y, 0);
    if n > 0 {
      assert n == 1;
      assert Charge(path, x, y, 0, size) == size * 1.0 == size;
    }
  }

  /** A path that passes the check can be drained without a `KeyError`. */
  lemma FitsDrains(g: Graph, path: Path, size: real)
    requires PathFits(g, Some(path), size)
    ensures DrainFrom(g, path, size, 0).Ok?
  {
    DrainOk(g, path, size, 0);
    forall k | 0 <= k < |path| - 1 ensures HopExists(g, path, k) {
      assert HopFits(g, path, k, size);
    }
  }

  /** Draining never changes which links exist, so the check of a path
      depends on the other path's drain only through bandwidth values. */
  lemma DrainKeepsEdges(g: Graph, path: Path, size: real, other: Path)
    requires DrainFrom(g, path, size, 0).Ok?
    ensures forall k :: HopExists(DrainFrom(g, path, size, 0).value, other, k) <==> HopExists(g, other, k)
  {
    var h := DrainFrom(g, path, size, 0).value;
    assert h.adj == g.adj;
    forall k ensures HopExists(h, other, k) <==> HopExists(g, other, k) {
    }
  }

  // ----------------------------------------------------------------------
  // calculate_shortest_path

  /** `calculate_shortest_path`: only `NetworkXNoPath` is caught (as
      `None`); an endpoint missing from the graph lets `NodeNotFound`
      escape. */
  function ShortestPath(g: Graph, s: Node, t: Node, finder: PathFinder): (r: Outcome<Option<Path>>)
    ensures r.Raised? <==> !HasNode(g, s) || !HasNode(g, t)
    ensures r.Raised? ==> r.fault == NodeNotFound
  {
    if !HasNode(g, s) || !HasNode(g, t) then Raised(NodeNotFound) else Ok(finder(g, s, t))
  }

  /** What is found is a simple path between the endpoints. */
  lemma ShortestSound(g: Graph, s: Node, t: Node, finder: PathFinder, p: Path)
    requires SoundFinder(finder) && ShortestPath(g, s, t, finder) == Ok(Some(p))
    ensures IsSimplePath(g, p, s, t)
  {
  }

  // ----------------------------------------------------------------------
  // calculate_backup_path

  /** `graph_copy.remove_node(n)` for each `n` in turn; removing a node
      that is no longer there raises `NetworkXError`. */
  function StripNodes(g: Graph, ns: seq<Node>): (r: Outcome<Graph>)
    ensures r.Raised? ==> r.fault == Thrown("NetworkXError")
    ensures r.Ok? ==> forall m :: HasNode(r.value, m) <==> HasNode(g, m) && m !in ns
    ensures r.Ok? ==> forall x, y {:trigger HasEdge(r.value, x, y)} :: HasEdge(r.value, x, y) <==> HasEdge(g, x, y) && x !in ns && y !in ns
    decreases |ns|
  {
    if ns == [] then Ok(g)
    else if !HasNode(g, ns[0]) then Raised(Thrown("NetworkXError"))
    else
      var rest := StripNodes(RemoveNode(g, ns[0]), ns[1..]);
      assert forall m :: m in ns <==> m == ns[0] || m in ns[1..];
      rest
  }

  /** Removal succeeds exactly when the nodes are distinct and all in the
      graph. */
  lemma {:induction false} StripOk(g: Graph, ns: seq<Node>)
    ensures StripNodes(g, ns).Ok? <==> NoDup(ns) && forall k :: 0 <= k < |ns| ==> HasNode(g, ns[k])
    decreases |ns|
  {
    if ns != [] && HasNode(g, ns[0]) {
      var h := RemoveNode(g, ns[0]);
      StripOk(h, ns[1..]);
      if NoDup(ns) && forall k :: 0 <= k < |ns| ==> HasNode(g, ns[k]) {
        assert forall k :: 0 <= k < |ns| - 1 ==> ns[1..][k] == ns[k + 1] && ns[k + 1] != ns[0];
      }
      if StripNodes(g, ns).Ok? {
        forall k | 1 <= k < |ns| ensures ns[k] != ns[0] && HasNode(g, ns[k]) {
          assert HasNode(h, ns[1..][k - 1]);
        }
        forall j, k | 0 <= j < k < |ns| ensures ns[j] != ns[k] {
          if j > 0 { assert ns[1..][j - 1] != ns[1..][k - 1]; }
        }
      }
    }
  }

  /** The nodes `calculate_backup_path` removes: `path[1:-2]`, and only
      for a path of more than 3 nodes. */
  function Interior(p: Path): (r: seq<Node>)
    ensures |p| > 3 ==> |r| == |p| - 3 && forall k :: 0 <= k < |r| ==> r[k] == p[k + 1]
    ensures |p| <= 3 ==> r == []
  {
    if |p| > 3 then p[1..|p| - 2] else []
  }

  /** `calculate_backup_path(graph, s, t, shortest_path)`. A `None`
      primary path fails at `shortest_path[-2]` with `TypeError`, a path of
      fewer than 2 nodes with `IndexError`; a missing interior node raises
      `NetworkXError` and a missing endpoint of the search `NodeNotFound`
      (neither is caught); `NetworkXNoPath` becomes `None`. */
  function BackupSpec(g: Graph, s: Node, t: Node, primary: Option<Path>, finder: PathFinder): (r: Outcome<Option<Path>>)
    ensures primary.None? ==> r == Raised(TypeError)
    ensures primary.Some? && |primary.value| < 2 ==> r == Raised(IndexError)
  {
    if primary.None? then Raised(TypeError)
    else
      var p := primary.value;
      if |p| < 2 then Raised(IndexError)
      else
        var second := p[|p| - 2];
        match StripNodes(g, Interior(p))
        case Raised(f) => Raised(f)
        case Ok(h) =>
          if !HasNode(h, s) || !HasNode(h, second) then Raised(NodeNotFound)
          else
            match finder(h, s, second)
            case None => Ok(None)
            case Some(q) => Ok(Some(q + [t]))
  }

  /** The copy the backup is searched in. */
  function BackupGraph(g: Graph, p: Path): Outcome<Graph> {
    StripNodes(g, Interior(p))
  }

  /** The method: a copy, a removal loop, the search, the append. The
      caller's graph is a value and is unchanged. */
  method CalculateBackupPath(g: Graph, s: Node, t: Node, primary: Option<Path>, finder: PathFinder) returns (r: Outcome<Option<Path>>)
    ensures r == BackupSpec(g, s, t, primary, finder)
  {
    if primary.None? {
      return Raised(TypeError);
    }
    var p := primary.value;
    if |p| < 2 {
      return Raised(IndexError);
    }
    var copy := g;
    var second := p[|p| - 2];
    var doomed := Interior(p);
    for k := 0 to |doomed|
      invariant StripNodes(copy, doomed[k..]) == StripNodes(g, doomed)
    {
      assert doomed[k..][1..] == doomed[k + 1..];
      if !HasNode(copy, doomed[k]) {
        return Raised(Thrown("NetworkXError"));
      }
      copy := RemoveNode(copy, doomed[k]);
    }
    if !HasNode(copy, s) || !HasNode(copy, second) {
      return Raised(NodeNotFound);
    }
    var found := finder(copy, s, second);
    if found.None? {
      return Ok(None);
    }
    r := Ok(Some(found.value + [t]));
  }

  /** A backup starts at the start node, keeps the primary's
      second-to-last node, ends at the target, and before that is a simple
      path of the graph avoiding every removed node. */
  lemma BackupShape(g: Graph, s: Node, t: Node, p: Path, finder: PathFinder, b: Path)
    requires SoundFinder(finder) && BackupSpec(g, s, t, Some(p), finder) == Ok(Some(b))
    ensures |p| >= 2 && |b| >= 2
    ensures b[0] == s && b[|b| - 2] == p[|p| - 2] && b[|b| - 1] == t
    ensures IsSimplePath(g, b[..|b| - 1], s, p[|p| - 2])
    ensures forall k :: 0 <= k < |b| - 1 ==> b[k] !in Interior(p)
  {
    var h := BackupGraph(g, p).value;
    var q := finder(h, s, p[|p| - 2]).value;
    assert b == q + [t];
    assert b[..|b| - 1] == q;
    assert IsSimplePath(h, q, s, p[|p| - 2]);
    forall k | 0 <= k < |q| ensures HasNode(g, q[k]) && q[k] !in Interior(p) {
      assert HasNode(h, q[k]);
    }
    forall k | 0 <= k < |q| - 1 ensures HasEdge(g, q[k], q[k + 1]) {
      assert HasEdge(h, q[k], q[k + 1]);
    }
  }

  /** When the primary path is a walk in the graph, so is the backup. */
  lemma BackupIsWalk(g: Graph, s: Node, t: Node, p: Path, finder: PathFinder, b: Path)
    requires SoundFinder(finder) && BackupSpec(g, s, t, Some(p), finder) == Ok(Some(b))
    requires IsWalk(g, p) && |p| >= 1 && p[|p| - 1] == t
    ensures IsWalk(g, b)
  {
    BackupShape(g, s, t, p, finder, b);
    var q := b[..|b| - 1];
    assert IsWalk(g, q);
    assert b == q + [t];
    assert HasEdge(g, p[|p| - 2], p[|p| - 1]);
    assert p[|p| - 1] == t;
    forall i | 0 <= i < |b| ensures HasNode(g, b[i]) {
      if i < |q| { assert b[i] == q[i]; } else { assert HasNode(g, p[|p| - 1]); }
    }
    forall i | 0 <= i < |b| - 1 ensures HasEdge(g, b[i], b[i + 1]) {
      if i + 1 < |q| { assert b[i] == q[i] && b[i + 1] == q[i + 1]; }
      else { assert b[i] == q[|q| - 1] == p[|p| - 2]; }
    }
  }

  /** For a simple primary path from `s` to `t` the backup computation
      raises nothing exactly when the path has at least 2 nodes. */
  lemma BackupOfSimple(g: Graph, s: Node, t: Node, p: Path, finder: PathFinder)
    requires IsSimplePath(g, p, s, t)
    ensures BackupSpec(g, s, t, Some(p), finder).Ok? <==> |p| >= 2
  {
    if |p| >= 2 {
      var ns := Interior(p);
      InteriorFacts(g, s, t, p);
      StripOk(g, ns);
      hide StripNodes, IsSimplePath, Interior, NoDup;
      assert HasNode(g, p[0]) && HasNode(g, p[|p| - 2]);
      var h := StripNodes(g, ns).value;
      assert HasNode(h, s) && HasNode(h, p[|p| - 2]);
    }
  }

  /** The nodes strictly between the first and the last two of a simple
      path are distinct nodes of the graph, other than `s` and the last
      but one. */
  lemma InteriorFacts(g: Graph, s: Node, t: Node, p: Path)
    requires IsSimplePath(g, p, s, t) && |p| >= 2
    ensures var ns := Interior(p);
      && NoDup(ns) && (forall k :: 0 <= k < |ns| ==> HasNode(g, ns[k]))
      && s !in ns && p[|p| - 2] !in ns
  {
    var ns := Interior(p);
    if |p| > 3 {
      assert NoDup(ns) by {
        forall j, k | 0 <= j < k < |ns| ensures ns[j] != ns[k] {
          assert ns[j] == p[j + 1] && ns[k] == p[k + 1];
        }
      }
      forall k | 0 <= k < |ns| ensures HasNode(g, ns[k]) {
        assert ns[k] == p[k + 1];
      }
      assert s !in ns by {
        forall k | 0 <= k < |ns| ensures ns[k] != s {
          assert ns[k] == p[k + 1] && p[0] == s;
        }
      }
      assert p[|p| - 2] !in ns by {
        forall k | 0 <= k < |ns| ensures ns[k] != p[|p| - 2] {
          assert ns[k] == p[k + 1];
        }
      }
    }
  }

  // ----------------------------------------------------------------------
  // calculate_paths

  /** `calculate_paths`: a truthy `existing_path` is reused as the
      primary path, else the shortest path is searched; the backup is then
      derived from the primary, whatever it is. */
  function PathsSpec(g: Graph, s: Node, t: Node, existing: Option<Path>, finder: PathFinder): (r: Outcome<(Option<Path>, Option<Path>)>)
    ensures Truthy(existing) && r.Ok? ==> r.value.0 == existing
    ensures !Truthy(existing) && ShortestPath(g, s, t, finder).Ok? && r.Ok? ==> r.value.0 == finder(g, s, t)
    ensures r.Ok? ==> BackupSpec(g, s, t, r.value.0, finder) == Ok(r.value.1)
  {
    var primary := if Truthy(existing) then Ok(existing) else ShortestPath(g, s, t, finder);
    match primary
    case Raised(f) => Raised(f)
    case Ok(p) =>
      match BackupSpec(g, s, t, p, finder)
      case Raised(f) => Raised(f)
      case Ok(b) => Ok((p, b))
  }

  method CalculatePaths(g: Graph, s: Node, t: Node, existing: Option<Path>, finder: PathFinder) returns (r: Outcome<(Option<Path>, Option<Path>)>)
    ensures r == PathsSpec(g, s, t, existing, finder)
  {
    var primary: Option<Path>;
    if Truthy(existing) {
      primary := existing;
    } else {
      var sp := ShortestPath(g, s, t, finder);
      if sp.Raised? {
        return Raised(sp.fault);
      }
      primary := sp.value;
    }
    var backup := CalculateBackupPath(g, s, t, primary, finder);
    if backup.Raised? {
      return Raised(backup.fault);
    }
    r := Ok((primary, backup.value));
  }

  /** Between two connected-to-nothing endpoints there is no shortest
      path, and the backup computation then fails on `None[-2]`. */
  lemma NoRouteRaises(g: Graph, s: Node, t: Node, existing: Option<Path>, finder: PathFinder)
    requires HasNode(g, s) && HasNode(g, t) && finder(g, s, t).None? && !Truthy(existing)
    ensures PathsSpec(g, s, t, existing, finder) == Raised(TypeError)
  {
  }

  /** With distinct endpoints in the graph and a path found, the
      computation raises nothing and the primary is a simple path of at
      least one hop. */
  lemma PathsFound(g: Graph, s: Node, t: Node, finder: PathFinder)
    requires SoundFinder(finder) && HasNode(g, s) && HasNode(g, t) && s != t && finder(g, s, t).Some?
    ensures PathsSpec(g, s, t, None, finder).Ok?
    ensures var p := PathsSpec(g, s, t, None, finder).value.0;
      p.Some? && |p.value| >= 2 && IsSimplePath(g, p.value, s, t)
  {
    var p := finder(g, s, t).value;
    assert IsSimplePath(g, p, s, t);
    assert |p| >= 2;
    BackupOfSimple(g, s, t, p, finder);
  }

  // ----------------------------------------------------------------------
  // switch_path and update_graphs_for_service

  /** The module-level statistics object of the older generator (the
      three counters it uses). */
  class ServiceCounter {
    var switches: nat
    var blockedServices: nat
    var totalServices: nat

    constructor ()
      ensures switches == 0 && blockedServices == 0 && totalServices == 0
    {
      switches, blockedServices, totalServices := 0, 0, 0;
    }

    method IncrementSwitches()
      modifies this
      ensures switches == old(switches) + 1
      ensures blockedServices == old(blockedServices) && totalServices == old(totalServices)
    {
      switches := switches + 1;
    }

    method IncrementBlockedServices()
      modifies this
      ensures blockedServices == old(blockedServices) + 1
      ensures switches == old(switches) && totalServices == old(totalServices)
    {
      blockedServices := blockedServices + 1;
    }
  }

  /** What one call leaves behind: the snapshot's graph, the service
      record, whether it counted a switch or a block, and the exception
      that escaped, if any (with the effects made before it). */
  datatype Step = Step(graph: Graph, service: Service, switched: bool, blocked: bool, fault: Option<Fault>)

  function Bump(n: nat, b: bool): nat {
    if b then n + 1 else n
  }

  /** `switch_path(graph, service)`: fresh paths; both drained and stored
      when both pass the check, else both cleared. */
  function SwitchSpec(g: Graph, sv: Service, finder: PathFinder): (r: Step)
    ensures r.switched ==> !r.blocked && r.fault.None?
    ensures !r.switched ==> r.graph == g
    ensures r.blocked ==> r.service == sv.(primaryPath := None, backupPath := None) && r.fault.None?
    ensures r.fault.Some? ==> r.service == sv && !r.blocked && !r.switched
    ensures r.switched ==> r.service == sv.(primaryPath := r.service.primaryPath, backupPath := r.service.backupPath)
    ensures r.switched ==> PathFits(g, r.service.primaryPath, sv.packageSize) && PathFits(g, r.service.backupPath, sv.packageSize)
    ensures var paths := PathsSpec(g, sv.startNode, sv.targetNode, None, finder);
      paths.Ok? ==> (r.blocked <==> !(PathFits(g, paths.value.0, sv.packageSize) && PathFits(g, paths.value.1, sv.packageSize)))
  {
    var size := sv.packageSize;
    match PathsSpec(g, sv.startNode, sv.targetNode, None, finder)
    case Raised(f) => Step(g, sv, false, false, Some(f))
    case Ok((p, b)) =>
      if PathFits(g, p, size) && PathFits(g, b, size) then
        match DrainFrom(g, p.value, size, 0)
        case Raised(f) => Step(g, sv, false, false, Some(f))
        case Ok(g1) =>
          match DrainFrom(g1, b.value, size, 0)
          case Raised(f) => Step(g, sv, false, false, Some(f))
          case Ok(g2) => Step(g2, sv.(primaryPath := p, backupPath := b), true, false, None)
      else Step(g, sv.(primaryPath := None, backupPath := None), false, true, None)
  }

  method SwitchPath(g: Graph, sv: Service, finder: PathFinder, counter: ServiceCounter) returns (r: Step)
    modifies counter
    ensures r == SwitchSpec(g, sv, finder)
    ensures counter.switches == Bump(old(counter.switches), r.switched)
    ensures counter.blockedServices == Bump(old(counter.blockedServices), r.blocked)
    ensures counter.totalServices == old(counter.totalServices)
  {
    var size := sv.packageSize;
    var paths := CalculatePaths(g, sv.startNode, sv.targetNode, None, finder);
    if paths.Raised? {
      return Step(g, sv, false, false, Some(paths.fault));
    }
    var (p, b) := paths.value;
    var fitsP := CheckPathBandwidth(g, p, size);
    var fitsB := CheckPathBandwidth(g, b, size);
    if fitsP && fitsB {
      var g1 := UpdateBandwidth(g, p.value, size);
      if g1.Raised? {
        return Step(g, sv, false, false, Some(g1.fault));
      }
      var g2 := UpdateBandwidth(g1.value, b.value, size);
      if g2.Raised? {
        return Step(g, sv, false, false, Some(g2.fault));
      }
      counter.IncrementSwitches();
      r := Step(g2.value, sv.(primaryPath := p, backupPath := b), true, false, None);
    } else {
      counter.IncrementBlockedServices();
      r := Step(g, sv.(primaryPath := None, backupPath := None), false, true, None);
    }
  }

  /** A switch raises exactly when computing the new paths raises, with
      that exception: the drains after a passed check never do. */
  lemma SwitchRaisesOnlyFromPaths(g: Graph, sv: Service, finder: PathFinder)
    ensures var paths := PathsSpec(g, sv.startNode, sv.targetNode, None, finder);
      SwitchSpec(g, sv, finder).fault == if paths.Raised? then Some(paths.fault) else None
  {
    var size := sv.packageSize;
    var paths := PathsSpec(g, sv.startNode, sv.targetNode, None, finder);
    if paths.Ok? {
      var (p, b) := paths.value;
      if PathFits(g, p, size) && PathFits(g, b, size) {
        FitsDrains(g, p.value, size);
        var g1 := DrainFrom(g, p.value, size, 0).value;
        assert g1.adj == g.adj;
        DrainOk(g1, b.value, size, 0);
        forall k | 0 <= k < |b.value| - 1 ensures HopExists(g1, b.value, k) {
          assert HopFits(g, b.value, k, size);
        }
      }
    }
  }

  /** Once both paths are found, the switch is decided by the check
      alone: it installs them exactly when both pass, and blocks the
      service exactly when one fails. */
  lemma SwitchDecision(g: Graph, sv: Service, finder: PathFinder)
    ensures var paths := PathsSpec(g, sv.startNode, sv.targetNode, None, finder);
      var fits := paths.Ok? && PathFits(g, paths.value.0, sv.packageSize) && PathFits(g, paths.value.1, sv.packageSize);
      && (SwitchSpec(g, sv, finder).switched <==> fits)
      && (paths.Ok? ==> (SwitchSpec(g, sv, finder).blocked <==> !fits))
  {
    SwitchRaisesOnlyFromPaths(g, sv, finder);
  }

  /** What a switch is made of: both fresh paths passed the check, and the
      graph is the first drain followed by the second. */
  lemma SwitchParts(g: Graph, sv: Service, finder: PathFinder)
    requires SwitchSpec(g, sv, finder).switched
    ensures var paths := PathsSpec(g, sv.startNode, sv.targetNode, None, finder);
      && paths.Ok? && paths.value.0.Some? && paths.value.1.Some?
      && DrainFrom(g, paths.value.0.value, sv.packageSize, 0).Ok?
      && var g1 := DrainFrom(g, paths.value.0.value, sv.packageSize, 0).value;
      && DrainFrom(g1, paths.value.1.value, sv.packageSize, 0).Ok?
      && SwitchSpec(g, sv, finder).graph == DrainFrom(g1, paths.value.1.value, sv.packageSize, 0).value
      && SwitchSpec(g, sv, finder).service.primaryPath == paths.value.0
      && SwitchSpec(g, sv, finder).service.backupPath == paths.value.1
  {
  }

  /** Two clamped subtractions of non-negative amounts are one. */
  lemma ClampTwice(x: real, c1: real, c2: real)
    requires c1 >= 0.0 && c2 >= 0.0
    ensures Clamp(Clamp(x - c1) - c2) == Clamp(x - (c1 + c2))
  {
  }

  /** Draining `p` and then `b`: every link loses the size once per hop of
      either path along it, never going below 0. */
  lemma TwoDrains(g: Graph, p: Path, b: Path, size: real, x: Node, y: Node)
    requires Valid(g) && size >= 0.0 && DrainFrom(g, p, size, 0).Ok?
    requires DrainFrom(DrainFrom(g, p, size, 0).value, b, size, 0).Ok?
    ensures var a := Attr(g, x, y);
      Attr(DrainFrom(DrainFrom(g, p, size, 0).value, b, size, 0).value, x, y) ==
        if HopsOn(p, x, y, 0) + HopsOn(b, x, y, 0) > 0 && a.bandwidth.Some?
        then a.(bandwidth := Some(Clamp(a.bandwidth.value - (Charge(p, x, y, 0, size) + Charge(b, x, y, 0, size)))))
        else a
  {
    hide DrainFrom, HopsOn, Charge, Clamp, Valid;
    var g1 := DrainFrom(g, p, size, 0).value;
    DrainValid(g, p, size, 0);
    DrainBandwidth(g, p, size, 0, x, y);
    DrainBandwidth(g1, b, size, 0, x, y);
    ChargeNonNegative(p, x, y, 0, size);
    ChargeNonNegative(b, x, y, 0, size);
    if HopsOn(p, x, y, 0) == 0 { ChargeZero(p, x, y, 0, size); }
    if HopsOn(b, x, y, 0) == 0 { ChargeZero(b, x, y, 0, size); }
    var a := Attr(g, x, y);
    if a.bandwidth.Some? {
      ClampTwice(a.bandwidth.value, Charge(p, x, y, 0, size), Charge(b, x, y, 0, size));
    }
  }

  /** After a switch with a non-negative size on a well-formed graph,
      every link loses the size once per hop of either path along it
      (never going below 0), so a link both paths share, such as the
      common last hop, is charged twice. */
  lemma SwitchCharges(g: Graph, sv: Service, finder: PathFinder, x: Node, y: Node)
    requires Valid(g) && sv.packageSize >= 0.0 && SwitchSpec(g, sv, finder).switched
    ensures var r := SwitchSpec(g, sv, finder);
      var p := r.service.primaryPath.value;
      var b := r.service.backupPath.value;
      var size := sv.packageSize;
      var a := Attr(g, x, y);
      Attr(r.graph, x, y) ==
        if HopsOn(p, x, y, 0) + HopsOn(b, x, y, 0) > 0 && a.bandwidth.Some?
        then a.(bandwidth := Some(Clamp(a.bandwidth.value - (Charge(p, x, y, 0, size) + Charge(b, x, y, 0, size)))))
        else a
  {
    SwitchParts(g, sv, finder);
    hide SwitchSpec, PathsSpec, DrainFrom, HopsOn, Charge, Clamp, Valid;
    var r := SwitchSpec(g, sv, finder);
    TwoDrains(g, r.service.primaryPath.value, r.service.backupPath.value, sv.packageSize, x, y);
  }

  /** The rest of one snapshot's update, once the service has paths:
      nothing when both pass the check, else a switch. */
  function Recheck(g: Graph, sv: Service, finder: PathFinder): Step {
    if PathFits(g, sv.primaryPath, sv.packageSize) && PathFits(g, sv.backupPath, sv.packageSize)
    then Step(g, sv, false, false, None)
    else SwitchSpec(g, sv, finder)
  }

  /** The body of the `for index in indices` loop for one snapshot: paths
      are (re)computed, reusing a truthy primary path, unless both are
      truthy; bandwidth is consumed only by a switch. */
  function ServeSpec(g: Graph, sv: Service, finder: PathFinder): (r: Step)
    ensures !r.switched ==> r.graph == g
    ensures r.switched ==> !r.blocked
    ensures r.service.serviceId == sv.serviceId && r.service.startNode == sv.startNode && r.service.targetNode == sv.targetNode
    ensures r.service.packageSize == sv.packageSize && r.service.delay == sv.delay
  {
    if !(Truthy(sv.primaryPath) && Truthy(sv.backupPath)) then
      match PathsSpec(g, sv.startNode, sv.targetNode, sv.primaryPath, finder)
      case Raised(f) => Step(g, sv, false, false, Some(f))
      case Ok((p, b)) => Recheck(g, sv.(primaryPath := p, backupPath := b), finder)
    else Recheck(g, sv, finder)
  }

  method ServeSnapshot(g: Graph, sv: Service, finder: PathFinder, counter: ServiceCounter) returns (r: Step)
    modifies counter
    ensures r == ServeSpec(g, sv, finder)
    ensures counter.switches == Bump(old(counter.switches), r.switched)
    ensures counter.blockedServices == Bump(old(counter.blockedServices), r.blocked)
    ensures counter.totalServices == old(counter.totalServices)
  {
    var cur := sv;
    if !(Truthy(cur.primaryPath) && Truthy(cur.backupPath)) {
      var paths := CalculatePaths(g, cur.startNode, cur.targetNode, cur.primaryPath, finder);
      if paths.Raised? {
        return Step(g, sv, false, false, Some(paths.fault));
      }
      cur := cur.(primaryPath := paths.value.0, backupPath := paths.value.1);
    }
    var fitsP := CheckPathBandwidth(g, cur.primaryPath, cur.packageSize);
    var fitsB := CheckPathBandwidth(g, cur.backupPath, cur.packageSize);
    if fitsP && fitsB {
      r := Step(g, cur, false, false, None);
    } else {
      r := SwitchPath(g, cur, finder, counter);
    }
  }

  /** Paths that are present and pass the check are kept and consume
      nothing. */
  lemma FittingServiceUntouched(g: Graph, sv: Service, finder: PathFinder)
    requires Truthy(sv.primaryPath) && Truthy(sv.backupPath)
    requires PathFits(g, sv.primaryPath, sv.packageSize) && PathFits(g, sv.backupPath, sv.packageSize)
    ensures ServeSpec(g, sv, finder) == Step(g, sv, false, false, None)
  {
  }

  /** The state of `update_graphs_for_service` as it runs: the snapshots
      (indexed by their `graph_dict` key), the service record, the
      switches and blocks counted, and the exception that stopped it. */
  datatype Run = Run(snaps: seq<Snapshot>, service: Service, switches: nat, blocked: nat, fault: Option<Fault>)

  /** One visited snapshot: its graph is updated in place. */
  function ServeAt(run: Run, k: nat, finder: PathFinder): (r: Run)
    requires k < |run.snaps|
    ensures |r.snaps| == |run.snaps|
    ensures forall j :: 0 <= j < |run.snaps| && j != k ==> r.snaps[j] == run.snaps[j]
    ensures r.snaps[k].time == run.snaps[k].time
  {
    var st := ServeSpec(run.snaps[k].graph, run.service, finder);
    Run(run.snaps[k := Snapshot(st.graph, run.snaps[k].time)], st.service,
        Bump(run.switches, st.switched), Bump(run.blocked, st.blocked), st.fault)
  }

  /** The loop over the window's indices, stopped by the first exception. */
  function ServeAll(run: Run, idx: seq<nat>, finder: PathFinder): (r: Run)
    requires forall k :: 0 <= k < |idx| ==> idx[k] < |run.snaps|
    ensures |r.snaps| == |run.snaps|
    ensures forall j :: 0 <= j < |run.snaps| ==> r.snaps[j].time == run.snaps[j].time
    ensures forall j :: 0 <= j < |run.snaps| && j !in idx ==> r.snaps[j] == run.snaps[j]
    ensures run.fault.Some? ==> r == run
    ensures r.switches >= run.switches && r.blocked >= run.blocked
    ensures r.switches + r.blocked <= run.switches + run.blocked + |idx|
    decreases |idx|
  {
    if run.fault.Some? || idx == [] then run
    else
      var next := ServeAt(run, idx[0], finder);
      var r := ServeAll(next, idx[1..], finder);
      assert forall j :: j in idx <==> j == idx[0] || j in idx[1..];
      r
  }

  /** The times of the snapshots, in key order (`time_list`). */
  function Times(snaps: seq<Snapshot>): (ts: seq<Time>)
    ensures |ts| == |snaps| && forall k :: 0 <= k < |snaps| ==> ts[k] == snaps[k].time
  {
    seq(|snaps|, k requires 0 <= k < |snaps| => snaps[k].time)
  }

  /** `update_graphs_for_service(index, service, graph_dict)`: the window
      starts at the service's own snapshot and lasts its `delay` seconds;
      every snapshot in it is served in turn. A key missing from
      `graph_dict` raises `KeyError`. */
  function UpdateSpec(index: nat, sv: Service, snaps: seq<Snapshot>, finder: PathFinder): (r: Run)
    ensures index >= |snaps| ==> r == Run(snaps, sv, 0, 0, Some(KeyError(Decimal(index))))
    ensures |r.snaps| == |snaps|
    ensures forall j :: 0 <= j < |snaps| ==> r.snaps[j].time == snaps[j].time
    ensures index < |snaps| ==> forall j :: 0 <= j < |snaps| && !InWindow(snaps[j].time, snaps[index].time, sv.delay) ==> r.snaps[j] == snaps[j]
  {
    if index >= |snaps| then Run(snaps, sv, 0, 0, Some(KeyError(Decimal(index))))
    else ServeAll(Run(snaps, sv, 0, 0, None), Window(Times(snaps), snaps[index].time, sv.delay), finder)
  }

  method UpdateGraphsForService(index: nat, sv: Service, snaps: seq<Snapshot>, finder: PathFinder, counter: ServiceCounter) returns (r: Run)
    modifies counter
    ensures r == UpdateSpec(index, sv, snaps, finder)
    ensures counter.switches == old(counter.switches) + r.switches
    ensures counter.blockedServices == old(counter.blockedServices) + r.blocked
    ensures counter.totalServices == old(counter.totalServices)
  {
    if index >= |snaps| {
      return Run(snaps, sv, 0, 0, Some(KeyError(Decimal(index))));
    }
    var timeList := Times(snaps);
    var indices := WindowIndices(timeList, snaps[index].time, sv.delay);
    var init := Run(snaps, sv, 0, 0, None);
    r := init;
    for k := 0 to |indices|
      invariant |r.snaps| == |snaps| && r.fault.None?
      invariant ServeAll(r, indices[k..], finder) == ServeAll(init, indices, finder)
      invariant counter.switches == old(counter.switches) + r.switches
      invariant counter.blockedServices == old(counter.blockedServices) + r.blocked
      invariant counter.totalServices == old(counter.totalServices)
    {
      var at := indices[k];
      assert indices[k..][1..] == indices[k + 1..];
      var st := ServeSnapshot(r.snaps[at].graph, r.service, finder, counter);
      r := Run(r.snaps[at := Snapshot(st.graph, r.snaps[at].time)], st.service,
               Bump(r.switches, st.switched), Bump(r.blocked, st.blocked), st.fault);
      if st.fault.Some? {
        return;
      }
    }
  }
}
