/** `find_free_wavelengths` of test.py: the wavelength table of one link,
    filtered down to the entries whose status is `"free"`. The table is
    a dict of dicts on the link, separate from the boolean wavelength
    lists the topology builder writes. */
module Wavelengths {
  import opened Common

  /** A value inside a wavelength's details dict (`id` or `status`). */
  datatype Value = IntValue(i: int) | TextValue(s: string)

  type Details = map<string, Value>
  type Table = map<string, Details>

  /** An undirected graph reduced to what the function reads: for each
      link (stored under one orientation) its `wavelengths` attribute, or
      `None` when the link has no such key. */
  datatype WlGraph = WlGraph(links: map<(string, string), Option<Table>>)

  /** `graph.has_edge(u, v)` on an undirected graph. */
  predicate HasLink(g: WlGraph, u: string, v: string) {
    (u, v) in g.links || (v, u) in g.links
  }

  /** `graph[u][v].get('wavelengths', {})`. */
  function TableOf(g: WlGraph, u: string, v: string): Table
    requires HasLink(g, u, v)
  {
    var stored := if (u, v) in g.links then g.links[(u, v)] else g.links[(v, u)];
    if stored.Some? then stored.value else map[]
  }

  /** `details['status'] == 'free'`. */
  predicate IsFree(d: Details)
    requires "status" in d
  {
    d["status"] == TextValue("free")
  }

  /** The comprehension over the table: a `KeyError('status')` on any
      entry without a status, otherwise the free entries, unchanged. */
  function FreeEntries(t: Table): (r: Outcome<Table>)
    ensures r.Raised? <==> exists w :: w in t && "status" !in t[w]
    ensures r.Raised? ==> r.fault == KeyError("status")
    ensures r.Ok? ==> forall w :: w in r.value <==> w in t && IsFree(t[w])
    ensures r.Ok? ==> forall w :: w in r.value ==> r.value[w] == t[w]
  {
    if exists w :: w in t && "status" !in t[w] then Raised(KeyError("status"))
    else Ok(map w | w in t && IsFree(t[w]) :: t[w])
  }

  /** `find_free_wavelengths(graph, node1, node2)`: `None` (after the
      message, not modelled) when there is no link, the free part of its
      table otherwise; a link without a table has no free wavelengths. */
  function FindFreeWavelengths(g: WlGraph, u: string, v: string): (r: Outcome<Option<Table>>)
    ensures !HasLink(g, u, v) ==> r == Ok(None)
    ensures HasLink(g, u, v) ==> r.Raised? || r.value.Some?
    ensures HasLink(g, u, v) && r.Ok? ==> Ok(r.value.value) == FreeEntries(TableOf(g, u, v))
  {
    if !HasLink(g, u, v) then Ok(None)
    else
      var free := FreeEntries(TableOf(g, u, v));
      if free.Raised? then Raised(free.fault) else Ok(Some(free.value))
  }

  /** The search treats both orientations alike. */
  lemma FindSymmetric(g: WlGraph, u: string, v: string)
    requires (u, v) !in g.links || (v, u) !in g.links || g.links[(u, v)] == g.links[(v, u)]
    ensures FindFreeWavelengths(g, u, v) == FindFreeWavelengths(g, v, u)
  {
  }

  /** Filtering is idempotent: the free part of a free part is itself. */
  lemma FreeIdempotent(t: Table)
    requires FreeEntries(t).Ok?
    ensures FreeEntries(FreeEntries(t).value) == FreeEntries(t)
  {
    var f := FreeEntries(t).value;
    assert forall w :: w in f ==> "status" in f[w] && IsFree(f[w]);
    assert (map w | w in f && IsFree(f[w]) :: f[w]) == f;
  }

  /** A link without a `wavelengths` key yields an empty dict, which the
      caller's `if free_wavelengths:` treats like a missing link. */
  lemma NoTableNoneFree(g: WlGraph, u: string, v: string)
    requires (u, v) in g.links && g.links[(u, v)].None?
    ensures FindFreeWavelengths(g, u, v) == Ok(Some(map[]))
  {
  }

  function Entry(id: int, free: bool): Details {
    map["id" := IntValue(id), "status" := TextValue(if free then "free" else "busy")]
  }

  /** The link of the script: wavelengths 1..10, the even ones free. */
  function SampleTable(): Table {
    map["wavelength_1" := Entry(1, false), "wavelength_2" := Entry(2, true),
        "wavelength_3" := Entry(3, false), "wavelength_4" := Entry(4, true),
        "wavelength_5" := Entry(5, false), "wavelength_6" := Entry(6, true),
        "wavelength_7" := Entry(7, false), "wavelength_8" := Entry(8, true),
        "wavelength_9" := Entry(9, false), "wavelength_10" := Entry(10, true)]
  }

  /** On the script's graph the free wavelengths are exactly the five even ones. */
  lemma SampleFree()
    ensures var r := FindFreeWavelengths(WlGraph(map[("Node1", "Node2") := Some(SampleTable())]), "Node1", "Node2");
      r.Ok? && r.value.Some? && r.value.value.Keys == EvenNames()
  {
    var t := SampleTable();
    assert t.Keys == EvenNames() + OddNames();
    forall w | w in t ensures "status" in t[w] && (IsFree(t[w]) <==> w in EvenNames()) {
      EntryStatus(w, t);
    }
  }

  function EvenNames(): set<string> {
    {"wavelength_2", "wavelength_4", "wavelength_6", "wavelength_8", "wavelength_10"}
  }

  function OddNames(): set<string> {
    {"wavelength_1", "wavelength_3", "wavelength_5", "wavelength_7", "wavelength_9"}
  }

  lemma EntryStatus(w: string, t: Table)
    requires t == SampleTable() && w in t
    ensures "status" in t[w] && (IsFree(t[w]) <==> w in EvenNames())
  {
  }
}
