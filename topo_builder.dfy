/** Building one snapshot's topology: the satellite links read from the
    inter-satellite distance table, the facility links read from the chain
    files whose times snap to the snapshot, and the initial edge attributes.
    Both `TopoBuilder` classes are covered (src/network/topo_builder.py and
    the older topo_builder.py at the repository root); they differ in the
    attributes they initialise and in the `break` of the facility loop,
    which is the `firstOnly` flag here. The CSV files are inputs: a table
    is a sequence of rows, a directory a sequence of named files. */
module TopoBuilder {
  import opened Common
  import opened Graphs
  import opened TimeGrid

  // ----------------------------------------------------------------------
  // _add_bandwidth_to_edges

  /** Number of wavelength slots per link. */
  const SlotCount := 10

  /** The spectrum bookkeeping of src/network/topo_builder.py: every slot
      free, nothing used, no slot shared. */
  function WithSpectrum(a: Attrs): (r: Attrs)
    ensures r.wavelengths == Some(seq(SlotCount, _ => false))
    ensures r.shareDegree == Some(seq(SlotCount, _ => 0))
    ensures r.bandwidthUsage == Some(0)
    ensures r.weight == a.weight && r.bandwidth == a.bandwidth && r.betweenness == a.betweenness && r.bidirectional == a.bidirectional
  {
    a.(wavelengths := Some(seq(SlotCount, _ => false)), bandwidthUsage := Some(0), shareDegree := Some(seq(SlotCount, _ => 0)))
  }

  /** `_add_bandwidth_to_edges` of src/network/topo_builder.py: a graph
      without nodes or without edges is left as it is; otherwise every
      link gets the initial spectrum and nothing else changes. */
  method InitSpectrum(g: Graph) returns (r: Graph)
    requires Valid(g)
    ensures g.nodes == [] || Edges(g) == [] ==> r == g
    ensures r.nodes == g.nodes && r.adj == g.adj && Valid(r)
    ensures forall x, y :: Attr(r, x, y) == if HasEdge(g, x, y) then WithSpectrum(Attr(g, x, y)) else Attr(g, x, y)
  {
    if g.nodes == [] || Edges(g) == [] {
      return g;
    }
    r := UpdateEdges(g, (x: Node, y: Node, a: Attrs) => WithSpectrum(a));
  }

  /** The capacity the older builder writes on each link: `1024 * 10`. */
  const InitialBandwidth: real := 10240.0

  /** `_add_bandwidth_to_edges` of the root topo_builder.py: in a non-empty
      graph every link's bandwidth becomes 10240. */
  method InitBandwidth(g: Graph) returns (r: Graph)
    requires Valid(g)
    ensures g.nodes == [] ==> r == g
    ensures r.nodes == g.nodes && r.adj == g.adj && Valid(r)
    ensures forall x, y :: Attr(r, x, y) == if HasEdge(g, x, y) then Attr(g, x, y).(bandwidth := Some(InitialBandwidth)) else Attr(g, x, y)
  {
    if g.nodes == [] {
      return g;
    }
    r := UpdateEdges(g, (x: Node, y: Node, a: Attrs) => a.(bandwidth := Some(InitialBandwidth)));
  }

  // ----------------------------------------------------------------------
  // Names of the form "<a><sep><b>"

  /** `a, b = s.split(sep)`: the two pieces, or `None` for the `ValueError`
      that unpacking any other number of pieces raises. */
  function Unpack2(s: string, sep: string): (r: Option<(string, string)>)
    requires |sep| > 0
    ensures r.Some? ==> r.value.0 + sep + r.value.1 == s
  {
    var parts := Split(s, sep);
    if |parts| == 2 then
      SplitJoin(s, sep);
      assert Join(parts, sep) == parts[0] + sep + parts[1];
      Some((parts[0], parts[1]))
    else None
  }

  /** Neither unpacked piece contains the separator. */
  lemma UnpackPiecesFree(s: string, sep: string)
    requires |sep| > 0 && Unpack2(s, sep).Some?
    ensures !Contains(Unpack2(s, sep).value.0, sep) && !Contains(Unpack2(s, sep).value.1, sep)
  {
    SplitPiecesFree(s, sep);
    assert Split(s, sep)[0] == Unpack2(s, sep).value.0;
    assert Split(s, sep)[1] == Unpack2(s, sep).value.1;
  }

  // ----------------------------------------------------------------------
  // _add_sat_to_topo

  /** One row of the inter-satellite distance table:
      `SatellitePair` ("SatA to SatB") and `Distance`. */
  datatype SatRow = SatRow(pair: string, distance: real)

  const SatSeparator := " to "

  /** The attributes `add_edge(node1, node2, weight=distance)` writes. */
  function SatLinkAttrs(distance: real): (a: Attrs)
    ensures a.weight == Some(distance)
    ensures a == NoAttrs.(weight := Some(distance))
  {
    NoAttrs.(weight := Some(distance))
  }

  /** The distinct `SatellitePair` labels (`unique()`). */
  function Labels(rows: seq<SatRow>): (r: set<string>)
    ensures |r| <= |rows|
    ensures |rows| > 0 ==> |r| >= 1
    ensures forall l :: l in r <==> exists k :: 0 <= k < |rows| && rows[k].pair == l
    decreases |rows|
  {
    if rows == [] then {}
    else
      var init := rows[..|rows| - 1];
      var rest := Labels(init);
      assert forall k :: 0 <= k < |init| ==> init[k] == rows[k];
      assert |rest + {rows[|rows| - 1].pair}| <= |rest| + 1;
      rest + {rows[|rows| - 1].pair}
  }

  /** The rows `range(i, n, ts)`. */
  function Stride(i: nat, n: nat, ts: nat): (r: seq<nat>)
    requires ts > 0
    ensures forall k :: 0 <= k < |r| ==> i <= r[k] < n
    decreases n - i
  {
    if i >= n then [] else [i] + Stride(i + ts, n, ts)
  }

  /** The row order of the nested loop: `range(i, n, ts)` for `i` from
      `from` up to `ts - 1`. */
  function Visits(n: nat, ts: nat, from: nat): (r: seq<nat>)
    requires ts > 0
    ensures forall k :: 0 <= k < |r| ==> r[k] < n
    decreases ts - from
  {
    if from >= ts then [] else Stride(from, n, ts) + Visits(n, ts, from + 1)
  }

  /** The stride through `i` reaches every later row a whole number of
      steps away. */
  lemma {:induction false} StrideReaches(i: nat, n: nat, ts: nat, q: nat)
    requires ts > 0 && i + q * ts < n
    ensures i + q * ts in Stride(i, n, ts)
    decreases q
  {
    if q > 0 {
      assert i + q * ts == (i + ts) + (q - 1) * ts;
      StrideReaches(i + ts, n, ts, q - 1);
    }
  }

  /** Each stride from `from` on is part of the visiting order. */
  lemma {:induction false} VisitsHasStride(n: nat, ts: nat, from: nat, i: nat, x: nat)
    requires ts > 0 && from <= i < ts && x in Stride(i, n, ts)
    ensures x in Visits(n, ts, from)
    decreases i - from
  {
    if from < i {
      VisitsHasStride(n, ts, from + 1, i, x);
    }
  }

  /** The nested loop visits every row. */
  lemma VisitsAll(n: nat, ts: nat, x: nat)
    requires ts > 0 && x < n
    ensures x in Visits(n, ts, 0)
  {
    var i, q := x % ts, x / ts;
    assert x == i + q * ts;
    StrideReaches(i, n, ts, q);
    VisitsHasStride(n, ts, 0, i, x);
  }

  /** Adding the links of the rows in `order`, one `add_edge` each; a
      label that does not unpack raises `ValueError`. */
  function ApplyRows(g: Graph, rows: seq<SatRow>, order: seq<nat>): Outcome<Graph>
    requires forall k :: 0 <= k < |order| ==> order[k] < |rows|
    decreases |order|
  {
    if order == [] then Ok(g)
    else
      match Unpack2(rows[order[0]].pair, SatSeparator)
      case None => Raised(ValueError)
      case Some((a, b)) => ApplyRows(AddEdge(g, a, b, SatLinkAttrs(rows[order[0]].distance)), rows, order[1..])
  }

  /** Two orders in sequence: the second runs on the graph the first left,
      unless the first raised. */
  lemma {:induction false} ApplyRowsAppend(g: Graph, rows: seq<SatRow>, A: seq<nat>, B: seq<nat>)
    requires forall k :: 0 <= k < |A| ==> A[k] < |rows|
    requires forall k :: 0 <= k < |B| ==> B[k] < |rows|
    ensures forall k :: 0 <= k < |A + B| ==> (A + B)[k] < |rows|
    ensures ApplyRows(g, rows, A + B) == match ApplyRows(g, rows, A) case Ok(h) => ApplyRows(h, rows, B) case Raised(e) => Raised(e)
    decreases |A|
  {
    assert forall k :: 0 <= k < |A + B| ==> (A + B)[k] < |rows| by {
      forall k | 0 <= k < |A + B| ensures (A + B)[k] < |rows| {
        if k >= |A| { assert (A + B)[k] == B[k - |A|]; }
      }
    }
    if A != [] {
      assert (A + B)[0] == A[0] && (A + B)[1..] == A[1..] + B;
      match Unpack2(rows[A[0]].pair, SatSeparator)
      case None =>
      case Some((a, b)) =>
        ApplyRowsAppend(AddEdge(g, a, b, SatLinkAttrs(rows[A[0]].distance)), rows, A[1..], B);
    } else {
      assert A + B == B;
    }
  }

  /** The link `(x, y)` is the one a row names. */
  predicate RowNames(row: SatRow, x: Node, y: Node) {
    Unpack2(row.pair, SatSeparator).Some? &&
    SameLink(x, y, Unpack2(row.pair, SatSeparator).value.0, Unpack2(row.pair, SatSeparator).value.1)
  }

  /** Applying rows succeeds exactly when every label unpacks. */
  lemma {:induction false} ApplyRowsOk(g: Graph, rows: seq<SatRow>, order: seq<nat>)
    requires forall k :: 0 <= k < |order| ==> order[k] < |rows|
    ensures ApplyRows(g, rows, order).Ok? <==> forall k :: 0 <= k < |order| ==> Unpack2(rows[order[k]].pair, SatSeparator).Some?
    decreases |order|
  {
    hide Unpack2, AddEdge;
    if order != [] {
      var tail := order[1..];
      assert forall k :: 0 <= k < |tail| ==> tail[k] == order[k + 1];
      match Unpack2(rows[order[0]].pair, SatSeparator)
      case None =>
      case Some((a, b)) =>
        ApplyRowsOk(AddEdge(g, a, b, SatLinkAttrs(rows[order[0]].distance)), rows, tail);
    }
  }

  /** After applying rows the graph has the links it had plus the links
      the rows name, and no others. */
  lemma {:induction false} ApplyRowsLinks(g: Graph, rows: seq<SatRow>, order: seq<nat>, x: Node, y: Node)
    requires forall k :: 0 <= k < |order| ==> order[k] < |rows|
    requires ApplyRows(g, rows, order).Ok?
    ensures HasEdge(ApplyRows(g, rows, order).value, x, y) <==>
              HasEdge(g, x, y) || exists k :: 0 <= k < |order| && RowNames(rows[order[k]], x, y)
    decreases |order|
  {
    hide Unpack2, AddEdge;
    if order != [] {
      var tail := order[1..];
      var (a, b) := Unpack2(rows[order[0]].pair, SatSeparator).value;
      var h := AddEdge(g, a, b, SatLinkAttrs(rows[order[0]].distance));
      assert ApplyRows(g, rows, order) == ApplyRows(h, rows, tail);
      ApplyRowsLinks(h, rows, tail, x, y);
      assert HasEdge(h, x, y) <==> HasEdge(g, x, y) || RowNames(rows[order[0]], x, y);
      if exists k :: 0 <= k < |order| && RowNames(rows[order[k]], x, y) {
        var k :| 0 <= k < |order| && RowNames(rows[order[k]], x, y);
        if k > 0 { assert tail[k - 1] == order[k]; }
      }
      if exists k :: 0 <= k < |tail| && RowNames(rows[tail[k]], x, y) {
        var k :| 0 <= k < |tail| && RowNames(rows[tail[k]], x, y);
        assert order[k + 1] == tail[k];
      }
    }
  }

  /** Applying rows keeps the graph a well-formed networkx graph. */
  lemma {:induction false} ApplyRowsValid(g: Graph, rows: seq<SatRow>, order: seq<nat>)
    requires forall k :: 0 <= k < |order| ==> order[k] < |rows|
    requires ApplyRows(g, rows, order).Ok? && Valid(g)
    ensures Valid(ApplyRows(g, rows, order).value)
    decreases |order|
  {
    hide Unpack2, AddEdge;
    if order != [] {
      var (a, b) := Unpack2(rows[order[0]].pair, SatSeparator).value;
      AddEdgeValid(g, a, b, SatLinkAttrs(rows[order[0]].distance));
      ApplyRowsValid(AddEdge(g, a, b, SatLinkAttrs(rows[order[0]].distance)), rows, order[1..]);
    }
  }

  /** `time_steps = len(sat_df) // len(unique pairs)`; an empty table
      raises `ZeroDivisionError`. */
  function TimeSteps(rows: seq<SatRow>): (r: Option<nat>)
    ensures r.None? <==> rows == []
    ensures r.Some? ==> r.value >= 1
  {
    if rows == [] then None
    else
      DivAtLeastOne(|rows|, |Labels(rows)|);
      Some(|rows| / |Labels(rows)|)
  }

  lemma DivAtLeastOne(n: nat, u: nat)
    requires 1 <= u <= n
    ensures n / u >= 1
  {
  }

  /** The satellite links of a snapshot. The snapshot index is not an
      argument: `_add_sat_to_topo` never reads it, so every snapshot gets
      the same links. */
  function SatTopo(g: Graph, rows: seq<SatRow>): Outcome<Graph>
  {
    match TimeSteps(rows)
    case None => Raised(ZeroDivisionError)
    case Some(ts) => ApplyRows(g, rows, Visits(|rows|, ts, 0))
  }

  /** Building the satellite links fails exactly on an empty table
      (`ZeroDivisionError`) or when some label does not split in two
      (`ValueError`). */
  lemma SatTopoOutcome(g: Graph, rows: seq<SatRow>)
    ensures SatTopo(g, rows).Ok? <==> rows != [] && forall k :: 0 <= k < |rows| ==> Unpack2(rows[k].pair, SatSeparator).Some?
    ensures rows == [] ==> SatTopo(g, rows) == Raised(ZeroDivisionError)
    ensures SatTopo(g, rows).Raised? && rows != [] ==> SatTopo(g, rows) == Raised(ValueError)
  {
    hide Unpack2, AddEdge, ApplyRows;
    if rows != [] {
      var ts := TimeSteps(rows).value;
      var order := Visits(|rows|, ts, 0);
      ApplyRowsOk(g, rows, order);
      ApplyRowsRaises(g, rows, order);
      if forall m :: 0 <= m < |order| ==> Unpack2(rows[order[m]].pair, SatSeparator).Some? {
        forall k | 0 <= k < |rows| ensures Unpack2(rows[k].pair, SatSeparator).Some? {
          VisitsAll(|rows|, ts, k);
          var m :| 0 <= m < |order| && order[m] == k;
        }
      }
    }
  }

  /** The nested loop reaches every row, so the links added are exactly
      those the table names, whatever its row order, and the graph stays
      well formed. */
  lemma SatTopoLinks(g: Graph, rows: seq<SatRow>, x: Node, y: Node)
    requires SatTopo(g, rows).Ok?
    ensures HasEdge(SatTopo(g, rows).value, x, y) <==> HasEdge(g, x, y) || exists k :: 0 <= k < |rows| && RowNames(rows[k], x, y)
    ensures Valid(g) ==> Valid(SatTopo(g, rows).value)
  {
    hide Unpack2, AddEdge, ApplyRows;
    var ts := TimeSteps(rows).value;
    var order := Visits(|rows|, ts, 0);
    ApplyRowsLinks(g, rows, order, x, y);
    if Valid(g) { ApplyRowsValid(g, rows, order); }
    if exists k :: 0 <= k < |rows| && RowNames(rows[k], x, y) {
      var k :| 0 <= k < |rows| && RowNames(rows[k], x, y);
      VisitsAll(|rows|, ts, k);
      var m :| 0 <= m < |order| && order[m] == k;
      assert RowNames(rows[order[m]], x, y);
    }
  }

  /** The only exception a row can raise is `ValueError`. */
  lemma {:induction false} ApplyRowsRaises(g: Graph, rows: seq<SatRow>, order: seq<nat>)
    requires forall k :: 0 <= k < |order| ==> order[k] < |rows|
    ensures ApplyRows(g, rows, order).Raised? ==> ApplyRows(g, rows, order) == Raised(ValueError)
    decreases |order|
  {
    if order != [] {
      match Unpack2(rows[order[0]].pair, SatSeparator)
      case None =>
      case Some((a, b)) =>
        ApplyRowsRaises(AddEdge(g, a, b, SatLinkAttrs(rows[order[0]].distance)), rows, order[1..]);
    }
  }

  /** The inner loop `for j in range(i, len(sat_df), time_steps)`. */
  method AddStride(h: Graph, rows: seq<SatRow>, i: nat, ts: nat) returns (r: Outcome<Graph>)
    requires ts > 0
    ensures r == ApplyRows(h, rows, Stride(i, |rows|, ts))
  {
    hide Unpack2, AddEdge;
    var cur := h;
    var j := i;
    while j < |rows|
      invariant ApplyRows(cur, rows, Stride(j, |rows|, ts)) == ApplyRows(h, rows, Stride(i, |rows|, ts))
      decreases |rows| - j
    {
      assert Stride(j, |rows|, ts)[0] == j && Stride(j, |rows|, ts)[1..] == Stride(j + ts, |rows|, ts);
      match Unpack2(rows[j].pair, SatSeparator)
      case None =>
        return Raised(ValueError);
      case Some((node1, node2)) =>
        cur := AddEdge(cur, node1, node2, SatLinkAttrs(rows[j].distance));
      j := j + ts;
    }
    r := Ok(cur);
  }

  /** `_add_sat_to_topo(graph, index)` on the rows of the table. */
  method AddSatToTopo(g: Graph, rows: seq<SatRow>, index: nat) returns (r: Outcome<Graph>)
    ensures r == SatTopo(g, rows)
  {
    hide Unpack2, AddEdge;
    if rows == [] {
      return Raised(ZeroDivisionError);
    }
    var ts := |rows| / |Labels(rows)|;
    assert TimeSteps(rows) == Some(ts);
    var h := g;
    for i := 0 to ts
      invariant ApplyRows(h, rows, Visits(|rows|, ts, i)) == SatTopo(g, rows)
    {
      ApplyRowsAppend(h, rows, Stride(i, |rows|, ts), Visits(|rows|, ts, i + 1));
      var step := AddStride(h, rows, i, ts);
      if step.Raised? {
        return step;
      }
      h := step.value;
    }
    r := Ok(h);
  }

  // ----------------------------------------------------------------------
  // _add_fac_to_topo

  /** One row of a chain file: `Time` (already parsed) and `Distance`. */
  datatype ChainRow = ChainRow(time: Time, distance: real)

  /** A file of the chain directory: its name ("A To B.csv") and rows. */
  datatype ChainFile = ChainFile(name: string, rows: seq<ChainRow>)

  const ChainSeparator := " To "

  /** The attributes `add_edge(a, b, weight=distance, bidirectional=True)`
      writes. */
  function FacLinkAttrs(distance: real): (a: Attrs)
    ensures a.weight == Some(distance) && a.bidirectional == Some(true)
    ensures a == NoAttrs.(weight := Some(distance), bidirectional := Some(true))
  {
    NoAttrs.(weight := Some(distance), bidirectional := Some(true))
  }

  /** `filename.endswith(".csv")` */
  predicate IsCsv(f: ChainFile) {
    EndsWith(f.name, ".csv")
  }

  /** `filename[:-4].split(' To ')` unpacked into the two endpoints. */
  function FileEnds(f: ChainFile): Option<(Node, Node)>
    requires IsCsv(f)
  {
    Unpack2(f.name[..|f.name| - 4], ChainSeparator)
  }

  /** The row's time snaps (nearest grid time) to snapshot `index`; the
      `idx is not None` test always passes, nearest matching never gives
      `None`. */
  predicate Snaps(timeList: seq<Time>, row: ChainRow, index: nat) {
    NearestIndex(timeList, row.time) == index
  }

  /** The row loop of one chain file: each snapping row adds the link with
      its distance; with `firstOnly` (the `break` of
      src/network/topo_builder.py) the loop stops after the first one.
      `add_edge` adds missing endpoints itself, `a` first, which is what
      the `has_node` / `add_node` guards before it do. */
  function ApplyChain(g: Graph, a: Node, b: Node, rows: seq<ChainRow>, timeList: seq<Time>, index: nat, firstOnly: bool): Graph
    decreases |rows|
  {
    if rows == [] then g
    else if Snaps(timeList, rows[0], index) then
      var h := AddEdge(g, a, b, FacLinkAttrs(rows[0].distance));
      if firstOnly then h else ApplyChain(h, a, b, rows[1..], timeList, index, firstOnly)
    else ApplyChain(g, a, b, rows[1..], timeList, index, firstOnly)
  }

  /** The first row that snaps to `index`. */
  function FirstSnap(rows: seq<ChainRow>, timeList: seq<Time>, index: nat): (r: Option<nat>)
    ensures r.None? <==> forall k :: 0 <= k < |rows| ==> !Snaps(timeList, rows[k], index)
    ensures r.Some? ==> r.value < |rows| && Snaps(timeList, rows[r.value], index)
    ensures r.Some? ==> forall k :: 0 <= k < r.value ==> !Snaps(timeList, rows[k], index)
  {
    hide Snaps;
    if rows == [] then None
    else if Snaps(timeList, rows[0], index) then Some(0)
    else
      var rest := FirstSnap(rows[1..], timeList, index);
      assert forall k :: 0 < k < |rows| ==> rows[k] == rows[1..][k - 1];
      if rest.None? then None else Some(rest.value + 1)
  }

  /** The last row that snaps to `index`. */
  function LastSnap(rows: seq<ChainRow>, timeList: seq<Time>, index: nat): (r: Option<nat>)
    ensures r.None? <==> forall k :: 0 <= k < |rows| ==> !Snaps(timeList, rows[k], index)
    ensures r.Some? ==> r.value < |rows| && Snaps(timeList, rows[r.value], index)
    ensures r.Some? ==> forall k :: r.value < k < |rows| ==> !Snaps(timeList, rows[k], index)
  {
    hide Snaps;
    if rows == [] then None
    else
      var rest := LastSnap(rows[1..], timeList, index);
      assert forall k :: 0 < k < |rows| ==> rows[k] == rows[1..][k - 1];
      if rest.Some? then Some(rest.value + 1)
      else if Snaps(timeList, rows[0], index) then Some(0)
      else None
  }

  /** With the `break`, a chain file adds at most one link: the one of its
      first snapping row. */
  lemma {:induction false} ChainFirstOnly(g: Graph, a: Node, b: Node, rows: seq<ChainRow>, timeList: seq<Time>, index: nat)
    ensures ApplyChain(g, a, b, rows, timeList, index, true) ==
              match FirstSnap(rows, timeList, index)
              case None => g
              case Some(k) => AddEdge(g, a, b, FacLinkAttrs(rows[k].distance))
    decreases |rows|
  {
    hide AddEdge;
    if rows != [] && !Snaps(timeList, rows[0], index) {
      ChainFirstOnly(g, a, b, rows[1..], timeList, index);
    }
  }

  /** Without the `break`, every snapping row writes the link, so the last
      one's distance is the weight that stays; no other link changes. */
  lemma {:induction false} ChainEveryRow(g: Graph, a: Node, b: Node, rows: seq<ChainRow>, timeList: seq<Time>, index: nat)
    ensures LastSnap(rows, timeList, index).None? ==> ApplyChain(g, a, b, rows, timeList, index, false) == g
    ensures LastSnap(rows, timeList, index).Some? ==>
              var r := ApplyChain(g, a, b, rows, timeList, index, false);
              && HasEdge(r, a, b)
              && Attr(r, a, b).weight == Some(rows[LastSnap(rows, timeList, index).value].distance)
              && Attr(r, a, b).bidirectional == Some(true)
    ensures forall x, y :: !SameLink(x, y, a, b) ==>
              Attr(ApplyChain(g, a, b, rows, timeList, index, false), x, y) == Attr(g, x, y)
    decreases |rows|
  {
    hide AddEdge;
    if rows != [] {
      var tail := rows[1..];
      assert forall k :: 0 < k < |rows| ==> rows[k] == tail[k - 1];
      if Snaps(timeList, rows[0], index) {
        var h := AddEdge(g, a, b, FacLinkAttrs(rows[0].distance));
        ChainEveryRow(h, a, b, tail, timeList, index);
      } else {
        ChainEveryRow(g, a, b, tail, timeList, index);
      }
    }
  }

  /** Either way a chain file adds its link exactly when one of its rows
      snaps, adds no other link, and keeps the graph well formed. */
  lemma {:induction false} ChainLinks(g: Graph, a: Node, b: Node, rows: seq<ChainRow>, timeList: seq<Time>, index: nat, firstOnly: bool, x: Node, y: Node)
    ensures HasEdge(ApplyChain(g, a, b, rows, timeList, index, firstOnly), x, y) <==>
              HasEdge(g, x, y) || (SameLink(x, y, a, b) && exists k :: 0 <= k < |rows| && Snaps(timeList, rows[k], index))
    ensures Valid(g) ==> Valid(ApplyChain(g, a, b, rows, timeList, index, firstOnly))
    decreases |rows|
  {
    hide AddEdge;
    if rows != [] {
      var tail := rows[1..];
      assert forall k :: 0 < k < |rows| ==> rows[k] == tail[k - 1];
      if Snaps(timeList, rows[0], index) {
        var h := AddEdge(g, a, b, FacLinkAttrs(rows[0].distance));
        if Valid(g) { AddEdgeValid(g, a, b, FacLinkAttrs(rows[0].distance)); }
        ChainLinks(h, a, b, tail, timeList, index, firstOnly, x, y);
      } else {
        ChainLinks(g, a, b, tail, timeList, index, firstOnly, x, y);
        if exists k :: 0 <= k < |rows| && Snaps(timeList, rows[k], index) {
          var k :| 0 <= k < |rows| && Snaps(timeList, rows[k], index);
          assert Snaps(timeList, tail[k - 1], index);
        }
      }
    }
  }

  /** The file loop of `_add_fac_to_topo`: files not ending in `.csv` are
      skipped; a `.csv` name that does not split in two around " To "
      raises `ValueError`. */
  function FacTopo(g: Graph, files: seq<ChainFile>, timeList: seq<Time>, index: nat, firstOnly: bool): Outcome<Graph>
    decreases |files|
  {
    if files == [] then Ok(g)
    else if !IsCsv(files[0]) then FacTopo(g, files[1..], timeList, index, firstOnly)
    else
      match FileEnds(files[0])
      case None => Raised(ValueError)
      case Some((a, b)) => FacTopo(ApplyChain(g, a, b, files[0].rows, timeList, index, firstOnly), files[1..], timeList, index, firstOnly)
  }

  /** File `f` is a chain file naming the link `(x, y)` with a row that
      snaps to `index`. */
  predicate FileLinks(f: ChainFile, timeList: seq<Time>, index: nat, x: Node, y: Node) {
    && IsCsv(f)
    && FileEnds(f).Some?
    && SameLink(x, y, FileEnds(f).value.0, FileEnds(f).value.1)
    && exists k :: 0 <= k < |f.rows| && Snaps(timeList, f.rows[k], index)
  }

  /** Adding the facility links fails, with `ValueError`, exactly when a
      `.csv` name does not split in two. */
  lemma {:induction false} FacTopoOutcome(g: Graph, files: seq<ChainFile>, timeList: seq<Time>, index: nat, firstOnly: bool)
    ensures FacTopo(g, files, timeList, index, firstOnly).Ok? <==> forall k :: 0 <= k < |files| && IsCsv(files[k]) ==> FileEnds(files[k]).Some?
    ensures FacTopo(g, files, timeList, index, firstOnly).Raised? ==> FacTopo(g, files, timeList, index, firstOnly) == Raised(ValueError)
    decreases |files|
  {
    hide ApplyChain, FileEnds;
    if files != [] {
      var tail := files[1..];
      assert forall k :: 0 < k < |files| ==> files[k] == tail[k - 1];
      if !IsCsv(files[0]) {
        FacTopoOutcome(g, tail, timeList, index, firstOnly);
      } else if FileEnds(files[0]).Some? {
        var (a, b) := FileEnds(files[0]).value;
        FacTopoOutcome(ApplyChain(g, a, b, files[0].rows, timeList, index, firstOnly), tail, timeList, index, firstOnly);
      }
    }
  }

  /** The links added are exactly those of the chain files with a snapping
      row, with or without the `break`. */
  lemma {:induction false} FacTopoLinks(g: Graph, files: seq<ChainFile>, timeList: seq<Time>, index: nat, firstOnly: bool, x: Node, y: Node)
    requires FacTopo(g, files, timeList, index, firstOnly).Ok?
    ensures HasEdge(FacTopo(g, files, timeList, index, firstOnly).value, x, y) <==>
              HasEdge(g, x, y) || exists k :: 0 <= k < |files| && FileLinks(files[k], timeList, index, x, y)
    ensures Valid(g) ==> Valid(FacTopo(g, files, timeList, index, firstOnly).value)
    decreases |files|
  {
    hide ApplyChain, FileEnds;
    if files != [] {
      var tail := files[1..];
      var h := g;
      if IsCsv(files[0]) {
        var (a, b) := FileEnds(files[0]).value;
        h := ApplyChain(g, a, b, files[0].rows, timeList, index, firstOnly);
        ChainLinks(g, a, b, files[0].rows, timeList, index, firstOnly, x, y);
        assert HasEdge(h, x, y) <==> HasEdge(g, x, y) || FileLinks(files[0], timeList, index, x, y);
      } else {
        assert !FileLinks(files[0], timeList, index, x, y);
      }
      assert FacTopo(g, files, timeList, index, firstOnly) == FacTopo(h, tail, timeList, index, firstOnly);
      FacTopoLinks(h, tail, timeList, index, firstOnly, x, y);
      if exists k :: 0 <= k < |files| && FileLinks(files[k], timeList, index, x, y) {
        var k :| 0 <= k < |files| && FileLinks(files[k], timeList, index, x, y);
        if k > 0 { assert FileLinks(tail[k - 1], timeList, index, x, y); }
      }
      if exists k :: 0 <= k < |tail| && FileLinks(tail[k], timeList, index, x, y) {
        var k :| 0 <= k < |tail| && FileLinks(tail[k], timeList, index, x, y);
        assert FileLinks(files[k + 1], timeList, index, x, y);
      }
    }
  }

  /** The row loop of one chain file, with or without the `break`. */
  method AddChainRows(g: Graph, a: Node, b: Node, rows: seq<ChainRow>, timeList: seq<Time>, index: nat, firstOnly: bool) returns (r: Graph)
    ensures r == ApplyChain(g, a, b, rows, timeList, index, firstOnly)
  {
    hide AddEdge;
    r := g;
    for i := 0 to |rows|
      invariant ApplyChain(r, a, b, rows[i..], timeList, index, firstOnly) == ApplyChain(g, a, b, rows, timeList, index, firstOnly)
    {
      assert rows[i..][0] == rows[i] && rows[i..][1..] == rows[i + 1..];
      var idx := NearestIndex(timeList, rows[i].time);
      if idx == index {
        r := AddEdge(r, a, b, FacLinkAttrs(rows[i].distance));
        if firstOnly {
          return;
        }
      }
    }
  }

  /** `_add_fac_to_topo(graph, index)` over the files of the chain
      directory; `firstOnly` selects the `break` of
      src/network/topo_builder.py, its absence the root topo_builder.py
      loop (with `find_time_index` called as the two-argument function its
      body is). */
  method AddFacToTopo(g: Graph, files: seq<ChainFile>, timeList: seq<Time>, index: nat, firstOnly: bool) returns (r: Outcome<Graph>)
    ensures r == FacTopo(g, files, timeList, index, firstOnly)
  {
    hide ApplyChain;
    var h := g;
    for i := 0 to |files|
      invariant FacTopo(h, files[i..], timeList, index, firstOnly) == FacTopo(g, files, timeList, index, firstOnly)
    {
      var f := files[i];
      assert files[i..][0] == f && files[i..][1..] == files[i + 1..];
      if EndsWith(f.name, ".csv") {
        match Unpack2(f.name[..|f.name| - 4], ChainSeparator)
        case None =>
          return Raised(ValueError);
        case Some((nodeA, nodeB)) =>
          h := AddChainRows(h, nodeA, nodeB, f.rows, timeList, index, firstOnly);
      }
    }
    r := Ok(h);
  }

  // ----------------------------------------------------------------------
  // The root topo_builder.py as written

  /** `_add_fac_to_topo` of the root topo_builder.py as written: its
      `find_time_index` is a `staticmethod` that still declares `self`, so
      the call `self.find_time_index(time_list, chain_time)` binds the two
      arguments to `self` and `time_list` and raises `TypeError` for the
      missing `target_time` at the first row of the first chain file. */
  function FacTopoAsWritten(g: Graph, files: seq<ChainFile>): (r: Outcome<Graph>)
    ensures r.Ok? ==> r.value == g
    ensures r.Ok? <==> forall k :: 0 <= k < |files| && IsCsv(files[k]) ==> FileEnds(files[k]).Some? && files[k].rows == []
    decreases |files|
  {
    if files == [] then Ok(g)
    else
      var rest := FacTopoAsWritten(g, files[1..]);
      assert forall k :: 0 < k < |files| ==> files[k] == files[1..][k - 1];
      if !IsCsv(files[0]) then rest
      else
        match FileEnds(files[0])
        case None => Raised(ValueError)
        case Some(_) => if files[0].rows != [] then Raised(TypeError) else rest
  }

  /** The name of the single chain file of `RootChainRowRaises`. */
  lemma SampleFileEnds()
    ensures Unpack2("F To S", ChainSeparator) == Some(("F", "S"))
  {
    var stem := "F To S";
    assert FindSub(stem[1..][4..], ChainSeparator) == None;
    assert stem[1..][..4] == ChainSeparator;
    assert FindSub(stem[1..], ChainSeparator) == Some(0);
    assert stem[..4] != ChainSeparator by { assert stem[..4][0] != ChainSeparator[0]; }
    assert FindSub(stem, ChainSeparator) == Some(1);
    assert stem[..1] == "F" && stem[1 + 4..] == "S";
    assert FindSub("S", ChainSeparator) == None;
    assert Split(stem, ChainSeparator) == ["F", "S"];
  }

  /** One chain file with one row at the only snapshot time: the code as
      written raises `TypeError`, the intended two-argument lookup links
      the facility to the satellite. */
  lemma RootChainRowRaises()
    ensures var files := [ChainFile("F To S.csv", [ChainRow(0, 500.0)])];
      && FacTopoAsWritten(Empty, files) == Raised(TypeError)
      && FacTopo(Empty, files, [0], 0, false).Ok?
      && HasEdge(FacTopo(Empty, files, [0], 0, false).value, "F", "S")
  {
    hide Unpack2, ApplyChain;
    var files := [ChainFile("F To S.csv", [ChainRow(0, 500.0)])];
    assert files[0].name[..|files[0].name| - 4] == "F To S";
    SampleFileEnds();
    assert FileEnds(files[0]) == Some(("F", "S"));
    assert Snaps([0], files[0].rows[0], 0);
    ChainLinks(Empty, "F", "S", files[0].rows, [0], 0, false, "F", "S");
    assert FacTopo(Empty, files, [0], 0, false) == FacTopo(ApplyChain(Empty, "F", "S", files[0].rows, [0], 0, false), [], [0], 0, false);
  }
}
