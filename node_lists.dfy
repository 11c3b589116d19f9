/** Sorting a snapshot's nodes into satellites and ground facilities by
    name, as `generate_node_lists` (old_traffic_generator.py) and
    `FlowGenerator._generate_node_lists` do: a name containing `Sat` is a
    satellite, else one containing `Fac` is a facility, else it is dropped. */
module NodeLists {
  import opened Common
  import opened Graphs

  datatype Kind = SatelliteNode | FacilityNode | OtherNode

  /** `'Sat' in node` is tested before `'Fac' in node`. */
  function KindOf(name: Node): (k: Kind)
    ensures k == SatelliteNode <==> Contains(name, "Sat")
    ensures k == FacilityNode <==> !Contains(name, "Sat") && Contains(name, "Fac")
  {
    if Contains(name, "Sat") then SatelliteNode
    else if Contains(name, "Fac") then FacilityNode
    else OtherNode
  }

  /** The nodes of kind `k`, in the order given. */
  function OfKind(nodes: seq<Node>, k: Kind): (r: seq<Node>)
    ensures |r| <= |nodes|
    ensures forall i :: 0 <= i < |r| ==> KindOf(r[i]) == k
  {
    if nodes == [] then []
    else (if KindOf(nodes[0]) == k then [nodes[0]] else []) + OfKind(nodes[1..], k)
  }

  /** A node is listed exactly when it is in the graph and of that kind. */
  lemma {:induction false} OfKindMembers(nodes: seq<Node>, k: Kind)
    ensures forall x :: x in OfKind(nodes, k) <==> x in nodes && KindOf(x) == k
  {
    if nodes != [] {
      OfKindMembers(nodes[1..], k);
      assert forall x :: x in nodes <==> x == nodes[0] || x in nodes[1..];
    }
  }

  /** Two nodes of the same kind keep their relative order. */
  lemma {:induction false} OfKindOrder(nodes: seq<Node>, k: Kind, i: nat, j: nat)
    requires i < j < |nodes| && KindOf(nodes[i]) == k && KindOf(nodes[j]) == k
    ensures exists a, b :: 0 <= a < b < |OfKind(nodes, k)| && OfKind(nodes, k)[a] == nodes[i] && OfKind(nodes, k)[b] == nodes[j]
  {
    var r := OfKind(nodes, k);
    var rest := OfKind(nodes[1..], k);
    var head := if KindOf(nodes[0]) == k then [nodes[0]] else [];
    assert r == head + rest;
    if i == 0 {
      OfKindMembers(nodes[1..], k);
      assert nodes[j] == nodes[1..][j - 1];
      assert nodes[j] in rest;
      var b' :| 0 <= b' < |rest| && rest[b'] == nodes[j];
      assert r[0] == nodes[0] && r[b' + 1] == nodes[j];
    } else {
      OfKindOrder(nodes[1..], k, i - 1, j - 1);
      var a', b' :| 0 <= a' < b' < |rest| && rest[a'] == nodes[1..][i - 1] && rest[b'] == nodes[1..][j - 1];
      assert r[a' + |head|] == nodes[i] && r[b' + |head|] == nodes[j];
    }
  }

  /** No node is both a satellite and a facility. */
  lemma KindsDisjoint(nodes: seq<Node>)
    ensures forall x :: x in OfKind(nodes, SatelliteNode) ==> x !in OfKind(nodes, FacilityNode)
  {
    OfKindMembers(nodes, SatelliteNode);
    OfKindMembers(nodes, FacilityNode);
  }

  /** Appending a node extends the list of its kind, and only that one. */
  lemma {:induction false} OfKindAppend(nodes: seq<Node>, x: Node, k: Kind)
    ensures OfKind(nodes + [x], k) == OfKind(nodes, k) + (if KindOf(x) == k then [x] else [])
  {
    hide KindOf;
    if nodes != [] {
      assert (nodes + [x])[0] == nodes[0];
      assert (nodes + [x])[1..] == nodes[1..] + [x];
      OfKindAppend(nodes[1..], x, k);
    } else {
      assert OfKind([x][1..], k) == [];
    }
  }

  /** The append loop over `graph.nodes()`. */
  method GenerateNodeLists(g: Graph) returns (satellites: seq<Node>, facilities: seq<Node>)
    ensures satellites == OfKind(g.nodes, SatelliteNode)
    ensures facilities == OfKind(g.nodes, FacilityNode)
  {
    satellites, facilities := [], [];
    for i := 0 to |g.nodes|
      invariant satellites == OfKind(g.nodes[..i], SatelliteNode)
      invariant facilities == OfKind(g.nodes[..i], FacilityNode)
    {
      var node := g.nodes[i];
      assert g.nodes[..i + 1] == g.nodes[..i] + [node];
      OfKindAppend(g.nodes[..i], node, SatelliteNode);
      OfKindAppend(g.nodes[..i], node, FacilityNode);
      if Contains(node, "Sat") {
        satellites := satellites + [node];
      } else if Contains(node, "Fac") {
        facilities := facilities + [node];
      }
    }
    assert g.nodes[..|g.nodes|] == g.nodes;
  }
}
