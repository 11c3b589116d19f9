/** Restricted edge betweenness (src/network/edge_weight_calculator.py),
    after U. Brandes, "A faster algorithm for betweenness centrality"
    (2001), edge variant: a breadth-first search from each source counts
    shortest paths, the dependencies are propagated back along the
    predecessor lists, the sums are rescaled, and every link ending at a
    facility is pinned to +infinity. Values are exact reals. */
module Betweenness {
  import opened Common
  import opened Graphs

  // ----------------------------------------------------------------------
  // Breadth-first search

  /** The entry of `v` in a real-valued node map, 0 when absent. */
  function ValueAt(m: map<Node, real>, v: Node): real {
    if v in m then m[v] else 0.0
  }

  /** The sum of `sigma` over the nodes of `vs`. */
  function SumOver(sigma: map<Node, real>, vs: seq<Node>): real
    decreases |vs|
  {
    if vs == [] then 0.0 else SumOver(sigma, vs[..|vs| - 1]) + ValueAt(sigma, vs[|vs| - 1])
  }

  lemma SumOverAppend(sigma: map<Node, real>, vs: seq<Node>, v: Node)
    ensures SumOver(sigma, vs + [v]) == SumOver(sigma, vs) + ValueAt(sigma, v)
  {
    assert (vs + [v])[..|vs|] == vs;
  }

  /** The sum only reads the entries of the nodes it adds up. */
  lemma {:induction false} SumOverFrame(sigma: map<Node, real>, sigma': map<Node, real>, vs: seq<Node>)
    requires forall x :: x in vs ==> ValueAt(sigma, x) == ValueAt(sigma', x)
    ensures SumOver(sigma, vs) == SumOver(sigma', vs)
    decreases |vs|
  {
    if vs != [] {
      var init := vs[..|vs| - 1];
      assert forall x :: x in init ==> x in vs;
      SumOverFrame(sigma, sigma', init);
    }
  }

  /** A sum of at least one term, each at least 1, is at least 1. */
  lemma {:induction false} SumOverAtLeastOne(sigma: map<Node, real>, vs: seq<Node>)
    requires |vs| > 0
    requires forall x :: x in vs ==> ValueAt(sigma, x) >= 1.0
    ensures SumOver(sigma, vs) >= 1.0
    decreases |vs|
  {
    var init := vs[..|vs| - 1];
    assert vs[|vs| - 1] in vs;
    if |init| > 0 {
      assert forall x :: x in init ==> x in vs;
      SumOverAtLeastOne(sigma, init);
    } else {
      assert SumOver(sigma, init) == 0.0;
    }
  }

  /** The search's distances do not decrease along `L`. */
  ghost predicate Ordered(L: seq<Node>, D: map<Node, nat>) {
    && (forall i :: 0 <= i < |L| ==> L[i] in D)
    && (forall i, j :: 0 <= i < j < |L| ==> D[L[i]] <= D[L[j]])
  }

  /** `L` lists the reached nodes, each once, by distance: as many
      distinct nodes as `D` has keys, all of them keys of `D`. */
  ghost predicate Queue(L: seq<Node>, D: map<Node, nat>) {
    NoDup(L) && Ordered(L, D) && |D| == |L|
  }

  /** No reached node is more than `d` away. */
  ghost predicate Bounded(D: map<Node, nat>, d: nat) {
    forall x :: x in D ==> D[x] <= d
  }

  /** Every node of `L` is reached and at most `d` away. */
  ghost predicate Below(L: seq<Node>, D: map<Node, nat>, d: nat) {
    forall x :: x in L ==> x in D && D[x] <= d
  }

  /** Every node of `ws`, a neighbour of `v` at distance `d`, is reached,
      at most one layer further, and lists `v` as a predecessor when it is
      exactly one layer further. */
  ghost predicate Covers(ws: seq<Node>, v: Node, P: map<Node, seq<Node>>, D: map<Node, nat>, d: nat) {
    forall w :: w in ws ==> w in D && w in P && D[w] <= d + 1 && (D[w] == d + 1 ==> v in P[w])
  }

  /** `D'` keeps every distance of `D`. */
  ghost predicate Extends(D: map<Node, nat>, D': map<Node, nat>) {
    forall x :: x in D ==> x in D' && D'[x] == D[x]
  }

  /** `P'` keeps every predecessor recorded in `P`. */
  ghost predicate Grows(P: map<Node, seq<Node>>, P': map<Node, seq<Node>>) {
    && (forall x :: x in P ==> x in P')
    && (forall x, y :: x in P && y in P[x] ==> y in P'[x])
  }

  /** Every recorded predecessor `v` of `w` is a reached neighbour one
      layer closer to the source. */
  ghost predicate PredsSound(g: Graph, P: map<Node, seq<Node>>, D: map<Node, nat>) {
    forall w, v :: w in P && v in P[w] ==> HasEdge(g, v, w) && w in D && v in D && D[w] == D[v] + 1
  }

  /** `sigma[w]` is the source's 1 (for `w == s`) plus the sum of `sigma`
      over the predecessors of `w`. */
  ghost predicate SigmaSums(sigma: map<Node, real>, P: map<Node, seq<Node>>, s: Node) {
    forall w :: w in sigma ==> w in P && sigma[w] == (if w == s then 1.0 else 0.0) + SumOver(sigma, P[w])
  }

  /** Every neighbour of a visited node is discovered, at most one layer
      further, and the visited node is recorded as its predecessor when it
      is exactly one layer closer. */
  ghost predicate Closed(g: Graph, S: seq<Node>, P: map<Node, seq<Node>>, D: map<Node, nat>) {
    forall v, w :: v in S && HasEdge(g, v, w) ==>
      w in D && w in P && v in D && D[w] <= D[v] + 1 && (D[w] == D[v] + 1 ==> v in P[w])
  }

  /** Nodes the search has not reached keep `sigma == 0` and no
      predecessors. */
  ghost predicate Unreached(g: Graph, P: map<Node, seq<Node>>, sigma: map<Node, real>, D: map<Node, nat>) {
    forall w :: w in g.adj && w !in D ==> w in P && w in sigma && sigma[w] == 0.0 && P[w] == []
  }

  /** Every reached node but the source has a predecessor. */
  ghost predicate HasPred(P: map<Node, seq<Node>>, D: map<Node, nat>, s: Node) {
    forall w :: w in D && w != s ==> w in P && |P[w]| > 0
  }

  /** The keys of `P` and `sigma` are the graph's nodes. */
  ghost predicate NodeKeyed(g: Graph, P: map<Node, seq<Node>>, sigma: map<Node, real>, D: map<Node, nat>) {
    && (forall x :: x in P <==> x in g.adj)
    && (forall x :: x in sigma <==> x in g.adj)
    && (forall x :: x in D ==> x in g.adj)
  }

  lemma OrderedAppend(L: seq<Node>, D: map<Node, nat>, w: Node, d: nat)
    requires Ordered(L, D) && w !in D
    requires |L| > 0 ==> D[L[|L| - 1]] <= d
    ensures Ordered(L + [w], D[w := d])
  {
    var L', D' := L + [w], D[w := d];
    forall i | 0 <= i < |L| ensures L[i] != w && D'[L[i]] == D[L[i]] {
    }
    forall i, j | 0 <= i < j < |L'| ensures D'[L'[i]] <= D'[L'[j]] {
      if j == |L| && i < |L| - 1 {
        assert D[L[i]] <= D[L[|L| - 1]];
      }
    }
  }

  /** An earlier element of an ordered sequence is no further away. */
  lemma OrderedBefore(A: seq<Node>, B: seq<Node>, D: map<Node, nat>)
    requires Ordered(A + B, D) && |B| > 0
    ensures B[0] in D
    ensures Below(A, D, D[B[0]])
  {
    forall x | x in A ensures x in D && D[x] <= D[B[0]] {
      var i :| 0 <= i < |A| && A[i] == x;
      assert (A + B)[i] == x && (A + B)[|A|] == B[0];
    }
    assert (A + B)[|A|] == B[0];
  }

  lemma QueueAppend(L: seq<Node>, D: map<Node, nat>, w: Node, d: nat)
    requires Queue(L, D) && w !in D && Bounded(D, d)
    ensures Queue(L + [w], D[w := d]) && Bounded(D[w := d], d)
  {
    if |L| > 0 {
      assert L[|L| - 1] in D;
    }
    OrderedAppend(L, D, w, d);
    var L' := L + [w];
    forall i, j | 0 <= i < j < |L'| ensures L'[i] != L'[j] {
      if j == |L| {
        assert L[i] in D;
      }
    }
  }

  /** `|L|` distinct nodes make a set of `|L|` elements. */
  lemma {:induction false} DistinctCard(L: seq<Node>)
    requires NoDup(L)
    ensures |(set x | x in L)| == |L|
    decreases |L|
  {
    if L != [] {
      var init, last := L[..|L| - 1], L[|L| - 1];
      assert NoDup(init);
      DistinctCard(init);
      assert last !in init;
      assert (set x | x in L) == (set x | x in init) + {last};
    }
  }

  /** A queue lists every reached node. */
  lemma AllListed(L: seq<Node>, D: map<Node, nat>)
    requires Queue(L, D)
    ensures forall x :: x in D <==> x in L
  {
    DistinctCard(L);
    var Ls := set x | x in L;
    forall x | x in L ensures x in D {
      var i :| 0 <= i < |L| && L[i] == x;
    }
    assert Ls <= D.Keys;
    forall x | x in D ensures x in L {
      if x !in L {
        SubsetMissing(Ls, D.Keys, x);
        assert false;
      }
    }
  }

  lemma BelowExtends(L: seq<Node>, D: map<Node, nat>, D': map<Node, nat>, d: nat)
    requires Below(L, D, d) && Extends(D, D')
    ensures Below(L, D', d)
  {
  }

  lemma ClosedGrow(g: Graph, S: seq<Node>, P: map<Node, seq<Node>>, D: map<Node, nat>,
                   P': map<Node, seq<Node>>, D': map<Node, nat>)
    requires Closed(g, S, P, D) && Extends(D, D') && Grows(P, P')
    ensures Closed(g, S, P', D')
  {
  }

  /** A visited node whose neighbours are all covered may join `S`. */
  lemma ClosedAdd(g: Graph, S: seq<Node>, v: Node, P: map<Node, seq<Node>>, D: map<Node, nat>)
    requires Closed(g, S, P, D) && v in D && v in g.adj && Covers(g.adj[v], v, P, D, D[v])
    ensures Closed(g, S + [v], P, D)
  {
  }

  lemma CoversStep(ws: seq<Node>, w: Node, v: Node, P: map<Node, seq<Node>>, D: map<Node, nat>,
                   P': map<Node, seq<Node>>, D': map<Node, nat>, d: nat)
    requires Covers(ws, v, P, D, d) && Extends(D, D') && Grows(P, P')
    requires w in D' && w in P' && D'[w] <= d + 1 && (D'[w] == d + 1 ==> v in P'[w])
    ensures Covers(ws + [w], v, P', D', d)
  {
  }

  /** A newly reached node was nobody's predecessor. */
  lemma PredsExtend(g: Graph, P: map<Node, seq<Node>>, D: map<Node, nat>, w: Node, d: nat)
    requires PredsSound(g, P, D) && w !in D
    ensures PredsSound(g, P, D[w := d])
    ensures forall x :: x in P ==> w !in P[x]
  {
  }

  lemma PredsAdd(g: Graph, P: map<Node, seq<Node>>, D: map<Node, nat>, v: Node, w: Node)
    requires PredsSound(g, P, D) && HasEdge(g, v, w) && v in D && w in D && D[w] == D[v] + 1 && w in P
    ensures PredsSound(g, P[w := P[w] + [v]], D)
  {
  }

  /** A node at the furthest distance reached is nobody's predecessor. */
  lemma NotAPred(g: Graph, P: map<Node, seq<Node>>, D: map<Node, nat>, w: Node)
    requires PredsSound(g, P, D) && w in D && Bounded(D, D[w])
    ensures forall x :: x in P ==> w !in P[x]
  {
  }

  /** Recording `v` as a predecessor of a node `w` that is not itself a
      predecessor anywhere keeps the path counts consistent. */
  lemma SigmaStep(sigma: map<Node, real>, P: map<Node, seq<Node>>, s: Node, v: Node, w: Node)
    requires SigmaSums(sigma, P, s) && w in sigma && w in P && w != s && v != w
    requires forall x :: x in P ==> w !in P[x]
    ensures SigmaSums(sigma[w := sigma[w] + ValueAt(sigma, v)], P[w := P[w] + [v]], s)
  {
    var sigma', P' := sigma[w := sigma[w] + ValueAt(sigma, v)], P[w := P[w] + [v]];
    forall x | x in sigma'
      ensures x in P' && sigma'[x] == (if x == s then 1.0 else 0.0) + SumOver(sigma', P'[x])
    {
      SumOverFrame(sigma, sigma', P[x]);
      if x == w {
        SumOverAppend(sigma', P[w], v);
      }
    }
  }

  lemma UnreachedUpdate(g: Graph, P: map<Node, seq<Node>>, sigma: map<Node, real>, D: map<Node, nat>,
                        D': map<Node, nat>, w: Node, p: seq<Node>, c: real)
    requires Unreached(g, P, sigma, D)
    requires forall x :: x in D' <==> x in D || x == w
    ensures Unreached(g, P[w := p], sigma[w := c], D')
  {
  }

  lemma HasPredUpdate(P: map<Node, seq<Node>>, D: map<Node, nat>, s: Node,
                      D': map<Node, nat>, w: Node, v: Node)
    requires HasPred(P, D, s) && w in P
    requires forall x :: x in D' <==> x in D || x == w
    ensures HasPred(P[w := P[w] + [v]], D', s)
  {
  }

  lemma Unshrunk(A: set<Node>, B: set<Node>, B': set<Node>)
    requires B <= B'
    ensures |A - B'| <= |A - B|
  {
    SubsetCard(A - B', A - B);
  }

  lemma ShrinkUnreached(A: set<Node>, B: set<Node>, B': set<Node>)
    requires B <= B' <= A && B != B'
    ensures |A - B'| < |A - B|
  {
    var x :| x in B' && x !in B;
    SubsetMissing(A - B', A - B, x);
  }

  /** The state at the head of the search loop: `S` visited, `Q` queued. */
  ghost predicate Searching(g: Graph, s: Node, S: seq<Node>, Q: seq<Node>,
                            P: map<Node, seq<Node>>, sigma: map<Node, real>, D: map<Node, nat>) {
    && NodeKeyed(g, P, sigma, D) && Queue(S + Q, D)
    && |S + Q| > 0 && (S + Q)[0] == s && s in D && D[s] == 0
    && (|Q| > 0 ==> Q[0] in D && Bounded(D, D[Q[0]] + 1))
    && PredsSound(g, P, D) && SigmaSums(sigma, P, s)
    && Closed(g, S, P, D) && Unreached(g, P, sigma, D) && HasPred(P, D, s)
  }

  /** The state inside the scan of the neighbours `nb` of the node `v`
      just visited, after the first `j` of them. */
  ghost predicate Scanning(g: Graph, s: Node, S: seq<Node>, Q: seq<Node>,
                           P: map<Node, seq<Node>>, sigma: map<Node, real>, D: map<Node, nat>,
                           v: Node, nb: seq<Node>, j: nat) {
    && NodeKeyed(g, P, sigma, D) && Queue(S + Q, D)
    && |S| > 0 && S[0] == s && s in D && D[s] == 0
    && S[|S| - 1] == v && v in D && v in sigma && v in g.adj && nb == g.adj[v] && j <= |nb|
    && Below(S, D, D[v]) && Bounded(D, D[v] + 1)
    && PredsSound(g, P, D) && SigmaSums(sigma, P, s)
    && Closed(g, S[..|S| - 1], P, D) && Unreached(g, P, sigma, D) && HasPred(P, D, s)
    && Covers(nb[..j], v, P, D, D[v])
  }

  /** What the search leaves behind: `S` lists the reached nodes by
      distance, and `P`, `sigma` and `D` are the predecessor lists, the
      shortest-path counts and the distances. */
  ghost predicate SearchResult(g: Graph, s: Node, S: seq<Node>,
                               P: map<Node, seq<Node>>, sigma: map<Node, real>, D: map<Node, nat>) {
    && NodeKeyed(g, P, sigma, D) && Queue(S, D) && (forall x :: x in S <==> x in D)
    && |S| > 0 && S[0] == s && s in D && D[s] == 0
    && s in sigma && sigma[s] == 1.0 && s in P && P[s] == []
    && PredsSound(g, P, D) && SigmaSums(sigma, P, s)
    && Closed(g, S, P, D) && Unreached(g, P, sigma, D) && HasPred(P, D, s)
  }

  lemma NodeListed(g: Graph, s: Node)
    requires Valid(g) && HasNode(g, s)
    ensures s in g.nodes
  {
  }

  lemma NeighbourIsNode(g: Graph, v: Node, w: Node)
    requires Valid(g) && HasEdge(g, v, w)
    ensures w in g.adj
  {
  }

  /** The state once `P` and `sigma` are initialised and `s` is queued. */
  lemma StartSearch(g: Graph, s: Node, P: map<Node, seq<Node>>, sigma: map<Node, real>)
    requires Valid(g) && HasNode(g, s)
    requires forall x :: x in P <==> x in g.nodes
    requires forall x :: x in P ==> P[x] == []
    requires forall x :: x in sigma <==> x in g.nodes
    requires sigma[s] == 1.0 && forall x :: x in sigma && x != s ==> sigma[x] == 0.0
    ensures Searching(g, s, [], [s], P, sigma, map[s := 0])
  {
    assert [] + [s] == [s];
    forall w | w in sigma ensures w in P && sigma[w] == (if w == s then 1.0 else 0.0) + SumOver(sigma, P[w]) {
    }
  }

  /** Popping the head `v` of the queue starts the scan of its
      neighbours. */
  lemma StartScan(g: Graph, s: Node, S: seq<Node>, Q: seq<Node>,
                  P: map<Node, seq<Node>>, sigma: map<Node, real>, D: map<Node, nat>)
    requires Searching(g, s, S, Q, P, sigma, D) && |Q| > 0
    ensures Q[0] in D && Q[0] in sigma && Q[0] in g.adj
    ensures Scanning(g, s, S + [Q[0]], Q[1..], P, sigma, D, Q[0], g.adj[Q[0]], 0)
  {
    hide PredsSound, SigmaSums, Closed, Unreached, HasPred;
    var v := Q[0];
    OrderedBefore(S, Q, D);
    assert S + Q == (S + [v]) + Q[1..];
    var S' := S + [v];
    assert S'[..|S'| - 1] == S;
    assert g.adj[v][..0] == [];
  }

  /** The next neighbour `nb[j]` of `v` is a node of the graph. */
  lemma ScanReady(g: Graph, s: Node, S: seq<Node>, Q: seq<Node>,
                  P: map<Node, seq<Node>>, sigma: map<Node, real>, D: map<Node, nat>,
                  v: Node, nb: seq<Node>, j: nat)
    requires Valid(g) && Scanning(g, s, S, Q, P, sigma, D, v, nb, j) && j < |nb|
    ensures nb[j] in g.adj && nb[j] in P && nb[j] in sigma && v in D && v in sigma
  {
    hide Valid, Queue, Below, Bounded, Covers, PredsSound, SigmaSums, Closed, Unreached, HasPred;
    assert HasEdge(g, v, nb[j]);
    NeighbourIsNode(g, v, nb[j]);
  }

  /** A neighbour `w = nb[j]` not reached yet is queued one layer further
      than `v`, with `v` as its first predecessor. */
  lemma ScanNew(g: Graph, s: Node, S: seq<Node>, Q: seq<Node>,
                P: map<Node, seq<Node>>, sigma: map<Node, real>, D: map<Node, nat>,
                v: Node, nb: seq<Node>, j: nat,
                Q': seq<Node>, P': map<Node, seq<Node>>, sigma': map<Node, real>, D': map<Node, nat>)
    requires Scanning(g, s, S, Q, P, sigma, D, v, nb, j) && j < |nb|
    requires nb[j] in g.adj && nb[j] !in D
    requires Q' == Q + [nb[j]] && D' == D[nb[j] := D[v] + 1]
    requires P' == P[nb[j] := P[nb[j]] + [v]] && sigma' == sigma[nb[j] := sigma[nb[j]] + sigma[v]]
    ensures Scanning(g, s, S, Q', P', sigma', D', v, nb, j + 1)
  {
    hide Queue, Below, Covers, PredsSound, SigmaSums, Closed, Unreached, HasPred;
    var w := nb[j];
    assert HasEdge(g, v, w);
    QueueAppend(S + Q, D, w, D[v] + 1);
    assert (S + Q) + [w] == S + (Q + [w]);
    PredsExtend(g, P, D, w, D[v] + 1);
    SigmaStep(sigma, P, s, v, w);
    PredsAdd(g, P, D', v, w);
    UnreachedUpdate(g, P, sigma, D, D', w, P[w] + [v], sigma[w] + sigma[v]);
    HasPredUpdate(P, D, s, D', w, v);
    BelowExtends(S, D, D', D[v]);
    ClosedGrow(g, S[..|S| - 1], P, D, P', D');
    CoversStep(nb[..j], w, v, P, D, P', D', D[v]);
    assert nb[..j + 1] == nb[..j] + [w];
  }

  /** A reached neighbour `w = nb[j]` one layer further than `v` records
      `v` as one more predecessor and adds its path count. */
  lemma ScanRecord(g: Graph, s: Node, S: seq<Node>, Q: seq<Node>,
                   P: map<Node, seq<Node>>, sigma: map<Node, real>, D: map<Node, nat>,
                   v: Node, nb: seq<Node>, j: nat,
                   P': map<Node, seq<Node>>, sigma': map<Node, real>)
    requires Scanning(g, s, S, Q, P, sigma, D, v, nb, j) && j < |nb|
    requires nb[j] in g.adj && nb[j] in D && D[nb[j]] == D[v] + 1
    requires P' == P[nb[j] := P[nb[j]] + [v]] && sigma' == sigma[nb[j] := sigma[nb[j]] + sigma[v]]
    ensures Scanning(g, s, S, Q, P', sigma', D, v, nb, j + 1)
  {
    hide Queue, Below, Covers, PredsSound, SigmaSums, Closed, Unreached, HasPred;
    var w := nb[j];
    assert HasEdge(g, v, w);
    NotAPred(g, P, D, w);
    SigmaStep(sigma, P, s, v, w);
    PredsAdd(g, P, D, v, w);
    UnreachedUpdate(g, P, sigma, D, D, w, P[w] + [v], sigma[w] + sigma[v]);
    HasPredUpdate(P, D, s, D, w, v);
    ClosedGrow(g, S[..|S| - 1], P, D, P', D);
    CoversStep(nb[..j], w, v, P, D, P', D, D[v]);
    assert nb[..j + 1] == nb[..j] + [w];
  }

  /** Any other reached neighbour changes nothing. */
  lemma ScanSkip(g: Graph, s: Node, S: seq<Node>, Q: seq<Node>,
                 P: map<Node, seq<Node>>, sigma: map<Node, real>, D: map<Node, nat>,
                 v: Node, nb: seq<Node>, j: nat)
    requires Scanning(g, s, S, Q, P, sigma, D, v, nb, j) && j < |nb|
    requires nb[j] in g.adj && nb[j] in D && D[nb[j]] != D[v] + 1
    ensures Scanning(g, s, S, Q, P, sigma, D, v, nb, j + 1)
  {
    hide Queue, Below, Covers, PredsSound, SigmaSums, Closed, Unreached, HasPred;
    var w := nb[j];
    CoversStep(nb[..j], w, v, P, D, P, D, D[v]);
    assert nb[..j + 1] == nb[..j] + [w];
  }

  /** The scan over, the loop's state holds again with `v` visited. */
  lemma EndScan(g: Graph, s: Node, S: seq<Node>, Q: seq<Node>,
                P: map<Node, seq<Node>>, sigma: map<Node, real>, D: map<Node, nat>,
                v: Node, nb: seq<Node>)
    requires Scanning(g, s, S, Q, P, sigma, D, v, nb, |nb|)
    ensures Searching(g, s, S, Q, P, sigma, D)
  {
    hide PredsSound, SigmaSums, Unreached, HasPred;
    assert nb[..|nb|] == nb;
    ClosedAdd(g, S[..|S| - 1], v, P, D);
    assert S[..|S| - 1] + [v] == S;
    if |Q| > 0 {
      OrderedBefore(S, Q, D);
      assert S[|S| - 1] in S;
    }
  }

  /** The state the search leaves behind once the queue is empty. */
  lemma FinishSearch(g: Graph, s: Node, S: seq<Node>,
                     P: map<Node, seq<Node>>, sigma: map<Node, real>, D: map<Node, nat>)
    requires Searching(g, s, S, [], P, sigma, D)
    ensures SearchResult(g, s, S, P, sigma, D)
  {
    hide Closed, Unreached, HasPred;
    assert S + [] == S;
    AllListed(S, D);
    SourceNoPred(g, P, D, s);
  }

  lemma FirstIsMember(t: seq<Node>)
    requires |t| > 0
    ensures t[0] in t
  {
  }

  lemma PredOf(g: Graph, P: map<Node, seq<Node>>, D: map<Node, nat>, w: Node, v: Node)
    requires PredsSound(g, P, D) && w in P && v in P[w]
    ensures v in D && w in D && D[w] == D[v] + 1
  {
  }

  /** The source, at distance 0, has no predecessor. */
  lemma SourceNoPred(g: Graph, P: map<Node, seq<Node>>, D: map<Node, nat>, s: Node)
    requires PredsSound(g, P, D) && s in D && D[s] == 0 && s in P
    ensures P[s] == []
  {
    if |P[s]| > 0 {
      FirstIsMember(P[s]);
      PredOf(g, P, D, s, P[s][0]);
      assert false;
    }
  }

  lemma ScanKeys(g: Graph, s: Node, S: seq<Node>, Q: seq<Node>,
                 P: map<Node, seq<Node>>, sigma: map<Node, real>, D: map<Node, nat>,
                 v: Node, nb: seq<Node>, j: nat)
    requires Scanning(g, s, S, Q, P, sigma, D, v, nb, j) && j < |nb| && nb[j] in g.adj
    ensures nb[j] in P && nb[j] in sigma && v in D && v in sigma
  {
    hide Queue, Below, Bounded, Covers, PredsSound, SigmaSums, Closed, Unreached, HasPred;
  }

  /** No adjacency list repeats a neighbour, as in a networkx graph. */
  ghost predicate SimpleAdj(g: Graph) {
    forall x :: x in g.adj ==> NoDup(g.adj[x])
  }

  /** No predecessor list repeats a node. */
  ghost predicate PredsDistinct(P: map<Node, seq<Node>>) {
    forall w :: w in P ==> NoDup(P[w])
  }

  /** Every recorded predecessor has been visited. */
  ghost predicate PredsVisited(P: map<Node, seq<Node>>, S: seq<Node>) {
    forall w, x :: w in P && x in P[w] ==> x in S
  }

  /** During the scan of `v`, `v` has been recorded only under the first
      `j` neighbours. */
  ghost predicate ScanFresh(P: map<Node, seq<Node>>, v: Node, nb: seq<Node>, j: nat)
    requires j <= |nb|
  {
    forall w :: w in P && v in P[w] ==> w in nb[..j]
  }

  lemma NoPredsYet(P: map<Node, seq<Node>>)
    requires forall x :: x in P ==> P[x] == []
    ensures PredsVisited(P, []) && PredsDistinct(P)
  {
  }

  /** The head of the queue is not yet visited, so it is nobody's
      predecessor and the scan of it starts fresh. */
  lemma StartFresh(g: Graph, s: Node, S: seq<Node>, Q: seq<Node>,
                   P: map<Node, seq<Node>>, sigma: map<Node, real>, D: map<Node, nat>)
    requires Searching(g, s, S, Q, P, sigma, D) && |Q| > 0 && PredsVisited(P, S)
    ensures PredsVisited(P, S + [Q[0]])
    ensures forall nb :: ScanFresh(P, Q[0], nb, 0)
  {
    hide Ordered, PredsSound, SigmaSums, Closed, Unreached, HasPred;
    var v := Q[0];
    forall i | 0 <= i < |S| ensures S[i] != v {
      assert (S + Q)[i] == S[i] && (S + Q)[|S|] == v;
    }
    assert v !in S;
  }

  /** Recording `v` under the next neighbour `nb[j]` keeps every
      predecessor visited and, in a duplicate-free adjacency list, keeps
      every predecessor list duplicate-free. */
  lemma RecordFresh(P: map<Node, seq<Node>>, S: seq<Node>, v: Node, nb: seq<Node>, j: nat)
    requires j < |nb| && nb[j] in P && v in S
    requires PredsVisited(P, S) && ScanFresh(P, v, nb, j)
    ensures PredsVisited(P[nb[j] := P[nb[j]] + [v]], S)
    ensures ScanFresh(P[nb[j] := P[nb[j]] + [v]], v, nb, j + 1)
    ensures NoDup(nb) && PredsDistinct(P) ==> PredsDistinct(P[nb[j] := P[nb[j]] + [v]])
  {
    var w := nb[j];
    assert nb[..j + 1] == nb[..j] + [w];
    if NoDup(nb) {
      forall i | 0 <= i < j ensures nb[..j][i] != w {
        assert nb[..j][i] == nb[i];
      }
      assert v !in P[w];
    }
  }

  lemma SkipFresh(P: map<Node, seq<Node>>, v: Node, nb: seq<Node>, j: nat)
    requires j < |nb| && ScanFresh(P, v, nb, j)
    ensures ScanFresh(P, v, nb, j + 1)
  {
    assert nb[..j + 1] == nb[..j] + [nb[j]];
  }

  /** One neighbour `w` of the node `v` being expanded: a node not seen
      before is queued one level below `v`, and a node on that level (new
      or not) gains `v` as a predecessor and `v`'s path count. */
  method RelaxEdge(g: Graph, s: Node, S: seq<Node>, Q: seq<Node>,
                   P: map<Node, seq<Node>>, sigma: map<Node, real>, D: map<Node, nat>,
                   v: Node, nb: seq<Node>, j: nat)
    returns (Q': seq<Node>, P': map<Node, seq<Node>>, sigma': map<Node, real>, D': map<Node, nat>)
    requires Scanning(g, s, S, Q, P, sigma, D, v, nb, j) && j < |nb| && nb[j] in g.adj
    ensures Scanning(g, s, S, Q', P', sigma', D', v, nb, j + 1)
    ensures nb[j] !in D ==> Q' == Q + [nb[j]] && D' == D[nb[j] := D[v] + 1]
    ensures nb[j] in D ==> Q' == Q && D' == D
    ensures nb[j] !in D || D[nb[j]] == D[v] + 1 ==>
              P' == P[nb[j] := P[nb[j]] + [v]] && sigma' == sigma[nb[j] := sigma[nb[j]] + sigma[v]]
    ensures nb[j] in D && D[nb[j]] != D[v] + 1 ==> P' == P && sigma' == sigma
  {
    hide Scanning;
    ScanKeys(g, s, S, Q, P, sigma, D, v, nb, j);
    var w := nb[j];
    Q', P', sigma', D' := Q, P, sigma, D;
    // The source's two consecutive tests (`w` unseen, then `w` one level
    // below `v`), with the second one taken whenever the first is.
    if w !in D {
      Q' := Q + [w];
      D' := D[w := D[v] + 1];
      P' := P[w := P[w] + [v]];
      sigma' := sigma[w := sigma[w] + sigma[v]];
      ScanNew(g, s, S, Q, P, sigma, D, v, nb, j, Q', P', sigma', D');
    } else if D[w] == D[v] + 1 {
      P' := P[w := P[w] + [v]];
      sigma' := sigma[w := sigma[w] + sigma[v]];
      ScanRecord(g, s, S, Q, P, sigma, D, v, nb, j, P', sigma');
    } else {
      ScanSkip(g, s, S, Q, P, sigma, D, v, nb, j);
    }
  }

  /** The scan of all neighbours of `v`, in adjacency order. It only adds
      distances, and it queues nothing unless it adds one. */
  method ScanNeighbours(g: Graph, s: Node, S: seq<Node>, Q: seq<Node>,
                        P: map<Node, seq<Node>>, sigma: map<Node, real>, D: map<Node, nat>,
                        v: Node, nb: seq<Node>)
    returns (Q': seq<Node>, P': map<Node, seq<Node>>, sigma': map<Node, real>, D': map<Node, nat>)
    requires Valid(g) && Scanning(g, s, S, Q, P, sigma, D, v, nb, 0)
    requires D.Keys <= g.adj.Keys
    requires v in S && PredsVisited(P, S) && ScanFresh(P, v, nb, 0)
    ensures Scanning(g, s, S, Q', P', sigma', D', v, nb, |nb|)
    ensures D.Keys <= D'.Keys <= g.adj.Keys
    ensures D'.Keys == D.Keys ==> Q' == Q
    ensures PredsVisited(P', S)
    ensures NoDup(nb) && PredsDistinct(P) ==> PredsDistinct(P')
  {
    hide Valid, Scanning, PredsVisited, PredsDistinct, ScanFresh;
    Q', P', sigma', D' := Q, P, sigma, D;
    for j := 0 to |nb|
      invariant Scanning(g, s, S, Q', P', sigma', D', v, nb, j)
      invariant D.Keys <= D'.Keys <= g.adj.Keys
      invariant D'.Keys == D.Keys ==> Q' == Q
      invariant PredsVisited(P', S) && ScanFresh(P', v, nb, j)
      invariant NoDup(nb) && PredsDistinct(P) ==> PredsDistinct(P')
    {
      ScanReady(g, s, S, Q', P', sigma', D', v, nb, j);
      ghost var D1, P1 := D', P';
      Q', P', sigma', D' := RelaxEdge(g, s, S, Q', P', sigma', D', v, nb, j);
      if nb[j] !in D1 {
        assert nb[j] in D'.Keys - D.Keys;
      }
      if P' == P1 {
        SkipFresh(P1, v, nb, j);
      } else {
        RecordFresh(P1, S, v, nb, j);
      }
    }
  }

  /** `_single_source_shortest_path_basic(G, s, g)`: breadth-first search
      from `s` recording the visiting order `S`, the predecessor lists `P`,
      the shortest-path counts `sigma` and the distances `D`. The third
      argument is never read. */
  method ShortestPathCounts(g: Graph, s: Node, unusedTarget: Node)
    returns (S: seq<Node>, P: map<Node, seq<Node>>, sigma: map<Node, real>, D: map<Node, nat>)
    requires Valid(g) && HasNode(g, s)
    ensures SearchResult(g, s, S, P, sigma, D)
    ensures SimpleAdj(g) ==> PredsDistinct(P)
  {
    hide Valid, Searching, Scanning, SearchResult, PredsVisited, PredsDistinct, ScanFresh;
    S := [];
    P := map[];
    for i := 0 to |g.nodes|
      invariant forall x :: x in P <==> x in g.nodes[..i]
      invariant forall x :: x in P ==> P[x] == []
    {
      assert g.nodes[..i + 1] == g.nodes[..i] + [g.nodes[i]];
      P := P[g.nodes[i] := []];
    }
    assert g.nodes[..|g.nodes|] == g.nodes;
    sigma := map x | x in g.nodes :: 0.0;
    sigma := sigma[s := 1.0];
    D := map[s := 0];
    var Q := [s];
    NodeListed(g, s);
    StartSearch(g, s, P, sigma);
    NoPredsYet(P);
    while |Q| > 0
      invariant Searching(g, s, S, Q, P, sigma, D)
      invariant D.Keys <= g.adj.Keys
      invariant PredsVisited(P, S) && (SimpleAdj(g) ==> PredsDistinct(P))
      decreases |g.adj.Keys - D.Keys|, |Q|
    {
      StartScan(g, s, S, Q, P, sigma, D);
      StartFresh(g, s, S, Q, P, sigma, D);
      var v := Q[0];
      Q := Q[1..];
      S := S + [v];
      ghost var D0, Q0 := D, Q;
      Q, P, sigma, D := ScanNeighbours(g, s, S, Q, P, sigma, D, v, g.adj[v]);
      EndScan(g, s, S, Q, P, sigma, D, v, g.adj[v]);
      Unshrunk(g.adj.Keys, D0.Keys, D.Keys);
      if D.Keys != D0.Keys {
        ShrinkUnreached(g.adj.Keys, D0.Keys, D.Keys);
      }
    }
    FinishSearch(g, s, S, P, sigma, D);
  }

  // ----------------------------------------------------------------------
  // Dependency accumulation

  /** Every reached node has a positive path count: the source has 1, and
      any other reached node sums the counts of its non-empty list of
      predecessors, one layer closer. */
  lemma {:induction false} SigmaAtLeastOne(g: Graph, s: Node, S: seq<Node>,
                                           P: map<Node, seq<Node>>, sigma: map<Node, real>, D: map<Node, nat>, d: nat)
    requires SearchResult(g, s, S, P, sigma, D)
    ensures forall x :: x in D && D[x] <= d ==> x in sigma && sigma[x] >= 1.0
  {
    hide Queue, Closed, Unreached;
    if d > 0 {
      SigmaAtLeastOne(g, s, S, P, sigma, D, d - 1);
    }
    forall x | x in D && D[x] <= d
      ensures x in sigma && sigma[x] >= 1.0
    {
      if x != s {
        FirstIsMember(P[x]);
        PredOf(g, P, D, x, P[x][0]);
        assert forall y :: y in P[x] ==> ValueAt(sigma, y) >= 1.0;
        SumOverAtLeastOne(sigma, P[x]);
      }
    }
  }

  /** What the accumulation needs of a search result. */
  ghost predicate Accumulable(S: seq<Node>, P: map<Node, seq<Node>>, sigma: map<Node, real>, D: map<Node, nat>) {
    && Queue(S, D)
    && (forall x :: x in D ==> x in P && x in sigma && sigma[x] > 0.0)
    && (forall w, v :: w in P && v in P[w] ==> w in D && v in D && D[w] == D[v] + 1)
  }

  lemma ReadyToAccumulate(g: Graph, s: Node, S: seq<Node>,
                          P: map<Node, seq<Node>>, sigma: map<Node, real>, D: map<Node, nat>)
    requires SearchResult(g, s, S, P, sigma, D)
    ensures Accumulable(S, P, sigma, D)
    ensures forall x :: x in S <==> x in D
  {
    hide Queue;
    forall x | x in D ensures x in sigma && sigma[x] > 0.0 {
      SigmaAtLeastOne(g, s, S, P, sigma, D, D[x]);
    }
  }

  /** The node at position `k` of the search order is reached, with a
      positive path count and a predecessor list. */
  lemma InOrder(S: seq<Node>, P: map<Node, seq<Node>>, sigma: map<Node, real>, D: map<Node, nat>, k: nat)
    requires Accumulable(S, P, sigma, D) && k < |S|
    ensures S[k] in D && S[k] in P && S[k] in sigma && sigma[S[k]] > 0.0
  {
    hide NoDup;
  }

  /** A predecessor of the node at position `k` of the search order is
      one layer closer, so it is not at `k` or after. */
  lemma PredNotLater(S: seq<Node>, P: map<Node, seq<Node>>, sigma: map<Node, real>, D: map<Node, nat>,
                     k: nat, v: Node)
    requires Accumulable(S, P, sigma, D) && k < |S| && S[k] in P && v in P[S[k]]
    ensures v in D && v in sigma && v != S[k]
    ensures forall j :: k <= j < |S| ==> S[j] != v
  {
    hide NoDup;
  }

  /** A key of the `betweenness` dict: the 2-tuple `(u, v)` of a link, or a
      node standing for itself. */
  datatype Key = Link(u: Node, v: Node) | Vertex(n: Node)

  /** A read of the `defaultdict(float)`. */
  function Get(bt: map<Key, real>, k: Key): real {
    if k in bt then bt[k] else 0.0
  }

  /** What the dict holds for the undirected link `{a, b}`, under either
      orientation. */
  function PairValue(bt: map<Key, real>, a: Node, b: Node): real {
    if a == b then Get(bt, Link(a, a)) else Get(bt, Link(a, b)) + Get(bt, Link(b, a))
  }

  /** No link is stored under both of its orientations. */
  ghost predicate OneOrientation(bt: map<Key, real>) {
    forall a, b :: Link(a, b) in bt && Link(b, a) in bt ==> a == b
  }

  /** `c` credited to the link between predecessor `v` and node `w`: under
      `(v, w)` if that key exists, otherwise under `(w, v)`, creating it. */
  function Credit(bt: map<Key, real>, v: Node, w: Node, c: real): (r: map<Key, real>)
    ensures forall a, b :: PairValue(r, a, b) == PairValue(bt, a, b) + (if SameLink(a, b, v, w) then c else 0.0)
    ensures forall x :: Get(r, Vertex(x)) == Get(bt, Vertex(x))
    ensures forall k :: k in r ==> k in bt || k == Link(w, v)
    ensures OneOrientation(bt) ==> OneOrientation(r)
  {
    if Link(v, w) !in bt then bt[Link(w, v) := Get(bt, Link(w, v)) + c]
    else bt[Link(v, w) := bt[Link(v, w)] + c]
  }

  /** The credit `sigma[v] * (1 + delta[w]) / sigma[w]` that the link from
      predecessor `v` to `w` receives. */
  function Share(sigma: map<Node, real>, delta: map<Node, real>, w: Node, v: Node): real {
    if ValueAt(sigma, w) == 0.0 then 0.0
    else ValueAt(sigma, v) * ((1.0 + ValueAt(delta, w)) / ValueAt(sigma, w))
  }

  /** The quantities the accumulation adds up: a node's dependency `delta`,
      the credit of an undirected link, and a node's own key. */
  datatype Tally = Dependency(x: Node) | Pair(a: Node, b: Node) | Own(n: Node)

  /** The predecessor list of `w`, empty when it has none. */
  function PredsOf(P: map<Node, seq<Node>>, w: Node): seq<Node> {
    if w in P then P[w] else []
  }

  /** The shares `w` passes to `x`, once per occurrence of `x` in `preds`. */
  function Shares(preds: seq<Node>, w: Node, sigma: map<Node, real>, delta: map<Node, real>, x: Node): real
    decreases |preds|
  {
    if preds == [] then 0.0
    else Shares(preds[..|preds| - 1], w, sigma, delta, x)
         + (if preds[|preds| - 1] == x then Share(sigma, delta, w, x) else 0.0)
  }

  /** What popping `w`, with the predecessors `preds` scanned so far, adds
      to a tally. */
  function Term(preds: seq<Node>, w: Node, sigma: map<Node, real>, delta: map<Node, real>, s: Node, t: Tally): real {
    match t
    case Dependency(x) => Shares(preds, w, sigma, delta, x)
    case Pair(a, b) =>
      (if w == b then Shares(preds, w, sigma, delta, a) else 0.0)
      + (if w == a && a != b then Shares(preds, w, sigma, delta, b) else 0.0)
    case Own(n) => if w == n && w != s then ValueAt(delta, w) else 0.0
  }

  /** A tally over the nodes `ws`, each with its whole predecessor list. */
  function Total(ws: seq<Node>, P: map<Node, seq<Node>>, sigma: map<Node, real>, delta: map<Node, real>, s: Node, t: Tally): real
    decreases |ws|
  {
    if ws == [] then 0.0
    else Term(PredsOf(P, ws[0]), ws[0], sigma, delta, s, t) + Total(ws[1..], P, sigma, delta, s, t)
  }

  /** A tally reads `delta` only at the nodes it adds up. */
  lemma {:induction false} TotalFrame(ws: seq<Node>, P: map<Node, seq<Node>>, sigma: map<Node, real>,
                                      delta: map<Node, real>, delta': map<Node, real>, s: Node, t: Tally)
    requires forall j :: 0 <= j < |ws| ==> ValueAt(delta, ws[j]) == ValueAt(delta', ws[j])
    ensures Total(ws, P, sigma, delta, s, t) == Total(ws, P, sigma, delta', s, t)
    decreases |ws|
  {
    hide Term;
    if ws != [] {
      assert forall j :: 0 <= j < |ws| - 1 ==> ws[1..][j] == ws[j + 1];
      TotalFrame(ws[1..], P, sigma, delta, delta', s, t);
      TermFrame(PredsOf(P, ws[0]), ws[0], sigma, delta, delta', s, t);
    }
  }

  lemma TermFrame(preds: seq<Node>, w: Node, sigma: map<Node, real>,
                  delta: map<Node, real>, delta': map<Node, real>, s: Node, t: Tally)
    requires ValueAt(delta, w) == ValueAt(delta', w)
    ensures Term(preds, w, sigma, delta, s, t) == Term(preds, w, sigma, delta', s, t)
  {
    hide Shares;
    forall x ensures Shares(preds, w, sigma, delta, x) == Shares(preds, w, sigma, delta', x) {
      SharesFrame(preds, w, sigma, delta, delta', x);
    }
  }

  lemma {:induction false} SharesFrame(preds: seq<Node>, w: Node, sigma: map<Node, real>,
                                       delta: map<Node, real>, delta': map<Node, real>, x: Node)
    requires ValueAt(delta, w) == ValueAt(delta', w)
    ensures Shares(preds, w, sigma, delta, x) == Shares(preds, w, sigma, delta', x)
    decreases |preds|
  {
    hide Share;
    if preds != [] {
      SharesFrame(preds[..|preds| - 1], w, sigma, delta, delta', x);
      assert Share(sigma, delta, w, x) == Share(sigma, delta', w, x) by {
        ShareFrame(sigma, delta, delta', w, x);
      }
    }
  }

  lemma ShareFrame(sigma: map<Node, real>, delta: map<Node, real>, delta': map<Node, real>, w: Node, x: Node)
    requires ValueAt(delta, w) == ValueAt(delta', w)
    ensures Share(sigma, delta, w, x) == Share(sigma, delta', w, x)
  {
  }

  /** Scanning one more predecessor `v` of `w` passes one more share to
      `v`, and none to any other node. */
  lemma SharesStep(preds: seq<Node>, i: nat, w: Node, sigma: map<Node, real>,
                   delta: map<Node, real>, delta': map<Node, real>, x: Node)
    requires i < |preds| && ValueAt(delta', w) == ValueAt(delta, w)
    ensures Shares(preds[..i + 1], w, sigma, delta', x)
            == Shares(preds[..i], w, sigma, delta, x) + (if x == preds[i] then Share(sigma, delta, w, x) else 0.0)
  {
    hide Share;
    assert preds[..i + 1][..i] == preds[..i];
    SharesFrame(preds[..i], w, sigma, delta, delta', x);
    ShareFrame(sigma, delta, delta', w, x);
  }

  /** The same step seen from the tallies: one more share for `v`'s
      dependency and for the link `{v, w}`. */
  lemma TermStep(preds: seq<Node>, i: nat, w: Node, sigma: map<Node, real>,
                 delta: map<Node, real>, delta': map<Node, real>, s: Node, t: Tally)
    requires i < |preds| && preds[i] != w && ValueAt(delta', w) == ValueAt(delta, w)
    requires t.Dependency? || t.Pair?
    ensures Term(preds[..i + 1], w, sigma, delta', s, t)
            == Term(preds[..i], w, sigma, delta, s, t)
               + (if (t.Dependency? && t.x == preds[i]) || (t.Pair? && SameLink(t.a, t.b, preds[i], w))
                  then Share(sigma, delta, w, preds[i]) else 0.0)
  {
    hide Shares, Share;
    match t
    case Dependency(x) =>
      SharesStep(preds, i, w, sigma, delta, delta', x);
    case Pair(a, b) =>
      SharesStep(preds, i, w, sigma, delta, delta', a);
      SharesStep(preds, i, w, sigma, delta, delta', b);
  }

  /** The accumulation after the nodes `S[k..]` have been popped. */
  ghost predicate Tallied(S: seq<Node>, k: nat, P: map<Node, seq<Node>>, sigma: map<Node, real>,
                          delta: map<Node, real>, s: Node, bt: map<Key, real>, r: map<Key, real>) {
    && k <= |S|
    && (forall x :: ValueAt(delta, x) == Total(S[k..], P, sigma, delta, s, Dependency(x)))
    && (forall a, b :: PairValue(r, a, b) == PairValue(bt, a, b) + Total(S[k..], P, sigma, delta, s, Pair(a, b)))
    && (forall x :: Get(r, Vertex(x)) == Get(bt, Vertex(x)) + Total(S[k..], P, sigma, delta, s, Own(x)))
    && (OneOrientation(bt) ==> OneOrientation(r))
  }

  /** The accumulation while `S[k]` is being popped, its first `i`
      predecessors scanned. */
  ghost predicate Tallying(S: seq<Node>, k: nat, i: nat, P: map<Node, seq<Node>>, sigma: map<Node, real>,
                           delta: map<Node, real>, s: Node, bt: map<Key, real>, r: map<Key, real>) {
    && k < |S| && i <= |PredsOf(P, S[k])|
    && (forall x :: ValueAt(delta, x) == Total(S[k + 1..], P, sigma, delta, s, Dependency(x))
                                         + Term(PredsOf(P, S[k])[..i], S[k], sigma, delta, s, Dependency(x)))
    && (forall a, b :: PairValue(r, a, b) == PairValue(bt, a, b) + Total(S[k + 1..], P, sigma, delta, s, Pair(a, b))
                                              + Term(PredsOf(P, S[k])[..i], S[k], sigma, delta, s, Pair(a, b)))
    && (forall x :: Get(r, Vertex(x)) == Get(bt, Vertex(x)) + Total(S[k + 1..], P, sigma, delta, s, Own(x)))
    && (OneOrientation(bt) ==> OneOrientation(r))
  }

  lemma PopStart(S: seq<Node>, k: nat, P: map<Node, seq<Node>>, sigma: map<Node, real>,
                 delta: map<Node, real>, s: Node, bt: map<Key, real>, r: map<Key, real>)
    requires k < |S| && Tallied(S, k + 1, P, sigma, delta, s, bt, r)
    ensures Tallying(S, k, 0, P, sigma, delta, s, bt, r)
  {
    hide Total, PairValue, Get, OneOrientation;
    assert PredsOf(P, S[k])[..0] == [];
  }

  lemma PopStep(S: seq<Node>, k: nat, i: nat, P: map<Node, seq<Node>>, sigma: map<Node, real>,
                delta: map<Node, real>, s: Node, bt: map<Key, real>, r: map<Key, real>)
    requires Tallying(S, k, i, P, sigma, delta, s, bt, r) && i < |PredsOf(P, S[k])|
    requires PredsOf(P, S[k])[i] != S[k]
    requires forall j :: k <= j < |S| ==> S[j] != PredsOf(P, S[k])[i]
    ensures var w, v := S[k], PredsOf(P, S[k])[i];
            var c := Share(sigma, delta, w, v);
            Tallying(S, k, i + 1, P, sigma, delta[v := ValueAt(delta, v) + c], s, bt, Credit(r, v, w, c))
  {
    hide Total, Term, Share, PairValue, Get, OneOrientation, Credit;
    var w, v := S[k], PredsOf(P, S[k])[i];
    var preds := PredsOf(P, w);
    var rest := S[k + 1..];
    var c := Share(sigma, delta, w, v);
    var delta' := delta[v := ValueAt(delta, v) + c];
    var r' := Credit(r, v, w, c);
    assert forall j :: 0 <= j < |rest| ==> rest[j] == S[k + 1 + j];
    assert forall j :: 0 <= j < |rest| ==> ValueAt(delta, rest[j]) == ValueAt(delta', rest[j]);
    forall x
      ensures ValueAt(delta', x) == Total(rest, P, sigma, delta', s, Dependency(x))
                                    + Term(preds[..i + 1], w, sigma, delta', s, Dependency(x))
    {
      TotalFrame(rest, P, sigma, delta, delta', s, Dependency(x));
      TermStep(preds, i, w, sigma, delta, delta', s, Dependency(x));
    }
    forall a, b
      ensures PairValue(r', a, b) == PairValue(bt, a, b) + Total(rest, P, sigma, delta', s, Pair(a, b))
                                     + Term(preds[..i + 1], w, sigma, delta', s, Pair(a, b))
    {
      TotalFrame(rest, P, sigma, delta, delta', s, Pair(a, b));
      TermStep(preds, i, w, sigma, delta, delta', s, Pair(a, b));
    }
    forall x
      ensures Get(r', Vertex(x)) == Get(bt, Vertex(x)) + Total(rest, P, sigma, delta', s, Own(x))
    {
      TotalFrame(rest, P, sigma, delta, delta', s, Own(x));
    }
  }

  /** A tally over `S[k..]` is the term of `S[k]` plus the tally over the rest. */
  lemma TotalCons(S: seq<Node>, k: nat, P: map<Node, seq<Node>>, sigma: map<Node, real>,
                  delta: map<Node, real>, s: Node, t: Tally)
    requires k < |S|
    ensures Total(S[k..], P, sigma, delta, s, t)
            == Term(PredsOf(P, S[k]), S[k], sigma, delta, s, t) + Total(S[k + 1..], P, sigma, delta, s, t)
  {
    hide Term;
    assert S[k..][1..] == S[k + 1..];
  }

  /** Popping `S[k]` ends with its own key credited (unless it is the
      source), which completes the tally over `S[k..]`. */
  lemma PopEnd(S: seq<Node>, k: nat, P: map<Node, seq<Node>>, sigma: map<Node, real>,
               delta: map<Node, real>, s: Node, bt: map<Key, real>, r: map<Key, real>, r': map<Key, real>)
    requires k < |S| && Tallying(S, k, |PredsOf(P, S[k])|, P, sigma, delta, s, bt, r)
    requires r' == if S[k] != s then r[Vertex(S[k]) := Get(r, Vertex(S[k])) + ValueAt(delta, S[k])] else r
    ensures Tallied(S, k, P, sigma, delta, s, bt, r')
  {
    hide Total, Term, OneOrientation, PairValue, Get, ValueAt, Shares, Share, PredsOf;
    PopEndDependency(S, k, P, sigma, delta, s);
    PopEndPairs(S, k, P, sigma, delta, s, bt, r, r', Get(r, Vertex(S[k])) + ValueAt(delta, S[k]));
    PopEndOwn(S, k, P, sigma, delta, s, bt, r, r');
    if S[k] != s {
      VertexKeepsOrientation(r, S[k], Get(r, Vertex(S[k])) + ValueAt(delta, S[k]));
    }
  }

  lemma PopEndDependency(S: seq<Node>, k: nat, P: map<Node, seq<Node>>, sigma: map<Node, real>,
                         delta: map<Node, real>, s: Node)
    requires k < |S|
    requires forall x :: ValueAt(delta, x) == Total(S[k + 1..], P, sigma, delta, s, Dependency(x))
                                             + Term(PredsOf(P, S[k])[..|PredsOf(P, S[k])|], S[k], sigma, delta, s, Dependency(x))
    ensures forall x :: ValueAt(delta, x) == Total(S[k..], P, sigma, delta, s, Dependency(x))
  {
    hide Total, Term;
    var preds := PredsOf(P, S[k]);
    assert preds[..|preds|] == preds;
    forall x ensures ValueAt(delta, x) == Total(S[k..], P, sigma, delta, s, Dependency(x)) {
      TotalCons(S, k, P, sigma, delta, s, Dependency(x));
    }
  }

  lemma PopEndPairs(S: seq<Node>, k: nat, P: map<Node, seq<Node>>, sigma: map<Node, real>,
                    delta: map<Node, real>, s: Node, bt: map<Key, real>, r: map<Key, real>, r': map<Key, real>, val: real)
    requires k < |S|
    requires forall a, b :: PairValue(r, a, b) == PairValue(bt, a, b) + Total(S[k + 1..], P, sigma, delta, s, Pair(a, b))
                                                  + Term(PredsOf(P, S[k])[..|PredsOf(P, S[k])|], S[k], sigma, delta, s, Pair(a, b))
    requires r' == r || r' == r[Vertex(S[k]) := val]
    ensures forall a, b :: PairValue(r', a, b) == PairValue(bt, a, b) + Total(S[k..], P, sigma, delta, s, Pair(a, b))
  {
    hide Total, Term, PairValue;
    var preds := PredsOf(P, S[k]);
    assert preds[..|preds|] == preds;
    VertexKeepsPairs(r, S[k], val);
    forall a, b ensures PairValue(r', a, b) == PairValue(bt, a, b) + Total(S[k..], P, sigma, delta, s, Pair(a, b)) {
      TotalCons(S, k, P, sigma, delta, s, Pair(a, b));
    }
  }

  lemma PopEndOwn(S: seq<Node>, k: nat, P: map<Node, seq<Node>>, sigma: map<Node, real>,
                  delta: map<Node, real>, s: Node, bt: map<Key, real>, r: map<Key, real>, r': map<Key, real>)
    requires k < |S|
    requires forall x :: Get(r, Vertex(x)) == Get(bt, Vertex(x)) + Total(S[k + 1..], P, sigma, delta, s, Own(x))
    requires r' == if S[k] != s then r[Vertex(S[k]) := Get(r, Vertex(S[k])) + ValueAt(delta, S[k])] else r
    ensures forall x :: Get(r', Vertex(x)) == Get(bt, Vertex(x)) + Total(S[k..], P, sigma, delta, s, Own(x))
  {
    hide Total, Term;
    forall x ensures Get(r', Vertex(x)) == Get(bt, Vertex(x)) + Total(S[k..], P, sigma, delta, s, Own(x)) {
      TotalCons(S, k, P, sigma, delta, s, Own(x));
      TermOwn(PredsOf(P, S[k]), S[k], sigma, delta, s, x);
    }
  }

  lemma VertexKeepsPairs(r: map<Key, real>, n: Node, val: real)
    ensures forall a, b :: PairValue(r[Vertex(n) := val], a, b) == PairValue(r, a, b)
  {
  }

  lemma TermOwn(preds: seq<Node>, w: Node, sigma: map<Node, real>, delta: map<Node, real>, s: Node, x: Node)
    ensures Term(preds, w, sigma, delta, s, Own(x)) == if w == x && w != s then ValueAt(delta, w) else 0.0
  {
  }

  /** Node keys do not bear on how links are stored. */
  lemma VertexKeepsOrientation(r: map<Key, real>, n: Node, val: real)
    ensures OneOrientation(r) ==> OneOrientation(r[Vertex(n) := val])
  {
  }

  /** Nothing popped yet: every dependency is 0 and the dict is as given. */
  lemma StartTally(S: seq<Node>, P: map<Node, seq<Node>>, sigma: map<Node, real>, s: Node, bt: map<Key, real>)
    ensures Tallied(S, |S|, P, sigma, map x | x in S :: 0.0, s, bt, bt)
  {
    assert S[|S|..] == [];
  }

  /** Everything popped: the tallies run over the whole search order. */
  lemma EndTally(S: seq<Node>, P: map<Node, seq<Node>>, sigma: map<Node, real>,
                 delta: map<Node, real>, s: Node, bt: map<Key, real>, r: map<Key, real>)
    requires Tallied(S, 0, P, sigma, delta, s, bt, r)
    ensures forall x :: ValueAt(delta, x) == Total(S, P, sigma, delta, s, Dependency(x))
    ensures forall a, b :: PairValue(r, a, b) == PairValue(bt, a, b) + Total(S, P, sigma, delta, s, Pair(a, b))
    ensures forall x :: Get(r, Vertex(x)) == Get(bt, Vertex(x)) + Total(S, P, sigma, delta, s, Own(x))
    ensures OneOrientation(bt) ==> OneOrientation(r)
  {
    assert S[0..] == S;
  }

  /** The keys the accumulation may create: a link `(w, v)` from a node to
      one of its predecessors, or a reached node other than the source. */
  predicate NewKey(key: Key, P: map<Node, seq<Node>>, D: map<Node, nat>, s: Node) {
    match key
    case Link(u, v) => v in PredsOf(P, u)
    case Vertex(n) => n in D && n != s
  }

  /** The loop over the predecessors `v` of the node `w == S[k]` just
      popped: each gets `sigma[v] * coeff` as link credit and as
      dependency, with `coeff == (1 + delta[w]) / sigma[w]`. */
  method PassShares(S: seq<Node>, k: nat, P: map<Node, seq<Node>>, sigma: map<Node, real>, s: Node,
                    bt: map<Key, real>, r: map<Key, real>, delta: map<Node, real>, ghost D: map<Node, nat>)
    returns (r': map<Key, real>, delta': map<Node, real>)
    requires Accumulable(S, P, sigma, D) && k < |S|
    requires forall x :: x in delta <==> x in D
    requires Tallying(S, k, 0, P, sigma, delta, s, bt, r)
    requires forall key :: key in r && key !in bt ==> NewKey(key, P, D, s)
    ensures forall x :: x in delta' <==> x in D
    ensures Tallying(S, k, |PredsOf(P, S[k])|, P, sigma, delta', s, bt, r')
    ensures forall key :: key in r' && key !in bt ==> NewKey(key, P, D, s)
  {
    hide Accumulable, Tallying, NewKey;
    var w := S[k];
    InOrder(S, P, sigma, D, k);
    var coeff := (1.0 + delta[w]) / sigma[w];
    var preds := P[w];
    r', delta' := r, delta;
    for i := 0 to |preds|
      invariant preds == PredsOf(P, w)
      invariant coeff == (1.0 + ValueAt(delta', w)) / sigma[w]
      invariant forall x :: x in delta' <==> x in D
      invariant Tallying(S, k, i, P, sigma, delta', s, bt, r')
      invariant forall key :: key in r' && key !in bt ==> NewKey(key, P, D, s)
    {
      var v := preds[i];
      PredNotLater(S, P, sigma, D, k, v);
      var c := sigma[v] * coeff;
      PopStep(S, k, i, P, sigma, delta', s, bt, r');
      assert c == Share(sigma, delta', w, v);
      CreditKey(r', bt, P, D, s, v, w, c);
      r' := Credit(r', v, w, c);
      delta' := delta'[v := delta'[v] + c];
    }
  }

  lemma CreditKey(r: map<Key, real>, bt: map<Key, real>, P: map<Node, seq<Node>>, D: map<Node, nat>, s: Node,
                  v: Node, w: Node, c: real)
    requires v in PredsOf(P, w)
    requires forall key :: key in r && key !in bt ==> NewKey(key, P, D, s)
    ensures forall key :: key in Credit(r, v, w, c) && key !in bt ==> NewKey(key, P, D, s)
  {
    hide Credit;
  }

  /** `_accumulate_edges(betweenness, S, P, sigma, s)`: pops the search
      order from its far end; each popped `w` passes
      `sigma[v] * (1 + delta[w]) / sigma[w]` to every predecessor `v`, both
      as link credit and as dependency, and a popped node other than `s`
      adds its dependency to its own key. The result satisfies Brandes'
      recurrence for `delta`, credits every link exactly with the shares of
      its predecessor orientation, and keeps each link under one key. */
  method Accumulate(bt: map<Key, real>, S: seq<Node>, P: map<Node, seq<Node>>, sigma: map<Node, real>, s: Node,
                    ghost g: Graph, ghost D: map<Node, nat>)
    returns (r: map<Key, real>, delta: map<Node, real>)
    requires SearchResult(g, s, S, P, sigma, D)
    ensures forall x :: x in delta <==> x in D
    ensures forall x :: ValueAt(delta, x) == Total(S, P, sigma, delta, s, Dependency(x))
    ensures forall a, b :: PairValue(r, a, b) == PairValue(bt, a, b) + Total(S, P, sigma, delta, s, Pair(a, b))
    ensures forall x :: Get(r, Vertex(x)) == Get(bt, Vertex(x)) + Total(S, P, sigma, delta, s, Own(x))
    ensures OneOrientation(bt) ==> OneOrientation(r)
    ensures forall key :: key in r && key !in bt ==> NewKey(key, P, D, s)
  {
    hide SearchResult, Accumulable, Tallied, Tallying;
    ReadyToAccumulate(g, s, S, P, sigma, D);
    r := bt;
    delta := map x | x in S :: 0.0;
    var rest := S;
    StartTally(S, P, sigma, s, bt);
    while |rest| > 0
      invariant rest == S[..|rest|]
      invariant forall x :: x in delta <==> x in D
      invariant Tallied(S, |rest|, P, sigma, delta, s, bt, r)
      invariant forall key :: key in r && key !in bt ==> NewKey(key, P, D, s)
      decreases |rest|
    {
      var w := rest[|rest| - 1];
      rest := rest[..|rest| - 1];
      var k := |rest|;
      InOrder(S, P, sigma, D, k);
      PopStart(S, k, P, sigma, delta, s, bt, r);
      r, delta := PassShares(S, k, P, sigma, s, bt, r, delta, D);
      var r' := if w != s then r[Vertex(w) := Get(r, Vertex(w)) + delta[w]] else r;
      PopEnd(S, k, P, sigma, delta, s, bt, r, r');
      r := r';
    }
    EndTally(S, P, sigma, delta, s, bt, r);
  }

  /** A popped node's own key gains its dependency exactly once, and the
      source's own key gains nothing. */
  lemma {:induction false} OwnTotal(ws: seq<Node>, P: map<Node, seq<Node>>, sigma: map<Node, real>,
                                    delta: map<Node, real>, s: Node, x: Node)
    requires NoDup(ws)
    ensures Total(ws, P, sigma, delta, s, Own(x)) == if x in ws && x != s then ValueAt(delta, x) else 0.0
    decreases |ws|
  {
    if ws != [] {
      assert NoDup(ws[1..]);
      OwnTotal(ws[1..], P, sigma, delta, s, x);
      assert x in ws <==> x == ws[0] || x in ws[1..];
      assert ws[0] !in ws[1..];
    }
  }

  /** The credit a link `{a, b}` receives is what `b` passes to its
      predecessor `a` plus what `a` passes to its predecessor `b`. */
  lemma {:induction false} PairTotal(ws: seq<Node>, P: map<Node, seq<Node>>, sigma: map<Node, real>,
                                     delta: map<Node, real>, s: Node, a: Node, b: Node)
    requires NoDup(ws)
    ensures Total(ws, P, sigma, delta, s, Pair(a, b))
            == (if b in ws then Shares(PredsOf(P, b), b, sigma, delta, a) else 0.0)
               + (if a in ws && a != b then Shares(PredsOf(P, a), a, sigma, delta, b) else 0.0)
    decreases |ws|
  {
    hide Shares;
    if ws != [] {
      assert NoDup(ws[1..]);
      PairTotal(ws[1..], P, sigma, delta, s, a, b);
      assert forall y :: y in ws <==> y == ws[0] || y in ws[1..];
      assert ws[0] !in ws[1..];
    }
  }

  // ----------------------------------------------------------------------
  // Rescaling

  /** The loop that deletes every key that is not a 2-tuple, leaving the
      link keys with their values. */
  method DropNodeKeys(bt: map<Key, real>) returns (r: map<Key, real>)
    ensures forall key :: key in r <==> key in bt && key.Link?
    ensures forall key :: key in r ==> r[key] == bt[key]
  {
    r := bt;
    var keys := bt.Keys;
    while keys != {}
      invariant keys <= bt.Keys
      invariant forall key :: key in r <==> key in bt && (key.Link? || key in keys)
      invariant forall key :: key in r ==> r[key] == bt[key]
      decreases |keys|
    {
      var key :| key in keys;
      keys := keys - {key};
      if !key.Link? {
        r := r - {key};
      }
    }
  }

  /** Dropping node keys leaves every link's value and the one-orientation
      storage as they were. */
  lemma DroppedKeepPairs(bt: map<Key, real>, r: map<Key, real>)
    requires forall key :: key in r <==> key in bt && key.Link?
    requires forall key :: key in r ==> r[key] == bt[key]
    ensures forall a, b :: PairValue(r, a, b) == PairValue(bt, a, b)
    ensures forall x :: Vertex(x) !in r
    ensures OneOrientation(bt) ==> OneOrientation(r)
  {
  }

  /** The factor `_rescale_e` applies before any sampling correction:
      `1 / (n (n - 1))` when normalising a graph of more than one node,
      `1/2` for an undirected graph left unnormalised, and none at all
      otherwise. */
  function BaseScale(n: nat, normalized: bool, directed: bool): (r: Option<real>)
    ensures normalized && n <= 1 ==> r.None?
    ensures normalized && n > 1 ==> r.Some? && r.value * ((n * (n - 1)) as real) == 1.0
    ensures !normalized && !directed ==> r == Some(0.5)
    ensures !normalized && directed ==> r.None?
  {
    if normalized then
      if n <= 1 then None else Some(1.0 / ((n * (n - 1)) as real))
    else if !directed then Some(0.5)
    else None
  }

  /** The factor `_rescale_e` applies: the base factor, times `n / k` when
      only `k` sources were sampled. */
  function ScaleFactor(n: nat, normalized: bool, directed: bool, k: Option<int>): (r: Option<real>)
    requires k.Some? ==> k.value != 0
    ensures r.None? <==> BaseScale(n, normalized, directed).None?
    ensures k.None? ==> r == BaseScale(n, normalized, directed)
    ensures r.Some? && k.Some? ==> r.value * (k.value as real) == BaseScale(n, normalized, directed).value * (n as real)
  {
    var base := BaseScale(n, normalized, directed);
    if base.None? then None
    else if k.None? then base
    else Some(base.value * (n as real) / (k.value as real))
  }

  /** `x` times the factor, or `x` itself when there is no factor. */
  function Scaled(x: real, f: Option<real>): real {
    if f.Some? then x * f.value else x
  }

  /** `_rescale_e`: every value of the dict multiplied by the factor, in
      place; with no factor the dict is returned as it is. */
  method Rescale(bt: map<Key, real>, n: nat, normalized: bool, directed: bool, k: Option<int>)
    returns (r: map<Key, real>)
    requires k.Some? ==> k.value != 0
    ensures r.Keys == bt.Keys
    ensures forall key :: key in r ==> r[key] == Scaled(bt[key], ScaleFactor(n, normalized, directed, k))
  {
    var f := ScaleFactor(n, normalized, directed, k);
    r := bt;
    if f.Some? {
      var keys := bt.Keys;
      while keys != {}
        invariant keys <= bt.Keys && r.Keys == bt.Keys
        invariant forall key :: key in r ==> r[key] == if key in keys then bt[key] else bt[key] * f.value
        decreases |keys|
      {
        var key :| key in keys;
        keys := keys - {key};
        r := r[key := r[key] * f.value];
      }
    }
  }

  /** Rescaling scales each link's value by the same factor and keeps the
      keys, so the one-orientation storage survives it. */
  lemma ScaledPairs(bt: map<Key, real>, r: map<Key, real>, f: Option<real>)
    requires r.Keys == bt.Keys
    requires forall key :: key in r ==> r[key] == Scaled(bt[key], f)
    ensures forall a, b :: PairValue(r, a, b) == Scaled(PairValue(bt, a, b), f)
    ensures OneOrientation(bt) ==> OneOrientation(r)
  {
  }

  // ----------------------------------------------------------------------
  // Writing the attribute

  /** The value a link gets from the dict: the entry under `(u, v)`, or
      else the one under `(v, u)`, or else 0. When each link is stored
      under one orientation only, this is the link's whole credit. */
  function LinkValue(links: map<Key, real>, u: Node, v: Node): (r: real)
    ensures OneOrientation(links) ==> r == PairValue(links, u, v)
  {
    if Link(u, v) in links then links[Link(u, v)] else Get(links, Link(v, u))
  }

  /** The value the loop over `G.edges()` writes on the link `(u, v)`:
      +infinity when an endpoint is a facility, the link's credit
      otherwise. */
  function EdgeCentrality(links: map<Key, real>, facilities: seq<Node>, u: Node, v: Node): (c: Centrality)
    ensures c.Infinite? <==> u in facilities || v in facilities
    ensures c.Finite? && OneOrientation(links) ==> c.value == PairValue(links, u, v)
  {
    if u in facilities || v in facilities then Infinite else Finite(LinkValue(links, u, v))
  }

  /** Under one-orientation storage the corrected value does not depend
      on which orientation `G.edges()` reports. */
  lemma CentralitySymmetric(links: map<Key, real>, facilities: seq<Node>, u: Node, v: Node)
    requires OneOrientation(links)
    ensures EdgeCentrality(links, facilities, u, v) == EdgeCentrality(links, facilities, v, u)
  {
  }

  /** The link lookup as the source writes it: the `(u, v)` entry only. */
  function LinkValueAsWritten(links: map<Key, real>, u: Node, v: Node): (r: real)
    ensures Link(u, v) !in links ==> r == 0.0
  {
    Get(links, Link(u, v))
  }

  /** The value the loop over `G.edges()` (the list `es`) writes on the
      link `(u, v)` as the source reads it: +infinity when an endpoint is a
      facility, otherwise `betweenness.get((edge[0], edge[1]), 0.0)` for
      the orientation `(edge[0], edge[1])` in which `es` reports the link. */
  function EdgeCentralityAsWritten(es: seq<(Node, Node)>, links: map<Key, real>, facilities: seq<Node>,
                                   u: Node, v: Node): (c: Centrality)
    ensures c.Infinite? <==> u in facilities || v in facilities
    ensures c.Finite? && (u, v) in es ==> c.value == LinkValueAsWritten(links, u, v)
    ensures c.Finite? && (u, v) !in es && (v, u) !in es ==> c.value == 0.0
  {
    if u in facilities || v in facilities then Infinite
    else if (u, v) in es then Finite(LinkValueAsWritten(links, u, v))
    else if (v, u) in es then Finite(LinkValueAsWritten(links, v, u))
    else Finite(0.0)
  }

  /** Against the link's credit, the value as written loses exactly a
      credit stored under the reverse of the orientation `G.edges()`
      reports, and it is the same from both ends of the link. */
  lemma AsWrittenLosesReverse(g: Graph, links: map<Key, real>, facilities: seq<Node>, u: Node, v: Node)
    requires Valid(g) && OneOrientation(links) && (u, v) in Edges(g)
    ensures EdgeCentralityAsWritten(Edges(g), links, facilities, v, u) == EdgeCentralityAsWritten(Edges(g), links, facilities, u, v)
    ensures EdgeCentralityAsWritten(Edges(g), links, facilities, u, v) ==
              if u !in facilities && v !in facilities && u != v && Link(v, u) in links then Finite(0.0)
              else EdgeCentrality(links, facilities, u, v)
  {
    var es := Edges(g);
    if u != v {
      assert (v, u) !in es;
    }
  }

  /** The loop over `G.edges()` that writes `betweenness` on every link. */
  method WriteCentrality(g: Graph, links: map<Key, real>, facilities: seq<Node>) returns (r: Graph)
    requires Valid(g) && OneOrientation(links)
    ensures r.nodes == g.nodes && r.adj == g.adj && Valid(r)
    ensures forall x, y :: Attr(r, x, y) == if HasEdge(g, x, y)
              then Attr(g, x, y).(betweenness := Some(EdgeCentrality(links, facilities, x, y)))
              else Attr(g, x, y)
  {
    var f := (x: Node, y: Node, a: Attrs) => a.(betweenness := Some(EdgeCentrality(links, facilities, x, y)));
    forall x, y, a ensures f(x, y, a) == f(y, x, a) {
      CentralitySymmetric(links, facilities, x, y);
    }
    assert Overwrites(f);
    r := UpdateEdges(g, f);
  }

  /** Each link is reported in one orientation only, so the value as
      written does not depend on which end it is read from. */
  lemma AsWrittenSymmetric(g: Graph, es: seq<(Node, Node)>, links: map<Key, real>, facilities: seq<Node>, x: Node, y: Node)
    requires Valid(g) && es == Edges(g)
    ensures EdgeCentralityAsWritten(es, links, facilities, x, y) == EdgeCentralityAsWritten(es, links, facilities, y, x)
  {
    if (x, y) in es && (y, x) in es {
      assert x == y;
    }
  }

  /** The loop over `G.edges()` as the source writes it, with the lookup
      of one orientation only. */
  method WriteCentralityAsWritten(g: Graph, links: map<Key, real>, facilities: seq<Node>) returns (r: Graph)
    requires Valid(g)
    ensures r.nodes == g.nodes && r.adj == g.adj && Valid(r)
    ensures forall x, y :: Attr(r, x, y) == if HasEdge(g, x, y)
              then Attr(g, x, y).(betweenness := Some(EdgeCentralityAsWritten(Edges(g), links, facilities, x, y)))
              else Attr(g, x, y)
  {
    var es := Edges(g);
    var f := (x: Node, y: Node, a: Attrs) => a.(betweenness := Some(EdgeCentralityAsWritten(es, links, facilities, x, y)));
    forall x, y, a ensures f(x, y, a) == f(y, x, a) {
      AsWrittenSymmetric(g, es, links, facilities, x, y);
    }
    assert Overwrites(f);
    r := UpdateEdges(g, f);
  }

  // ----------------------------------------------------------------------
  // compute_static_centrality

  /** The (satellite, facility) pairs of `facs` for one satellite `s`,
      each kept when both are nodes of the snapshot, in list order. */
  function PairsFor(g: Graph, s: Node, facs: seq<Node>): (r: seq<(Node, Node)>)
    ensures forall p :: p in r <==> p.0 == s && p.1 in facs && HasNode(g, s) && HasNode(g, p.1)
    decreases |facs|
  {
    if facs == [] then []
    else
      var t := facs[|facs| - 1];
      var init := facs[..|facs| - 1];
      assert forall x :: x in facs <==> x in init || x == t;
      PairsFor(g, s, init) + (if HasNode(g, s) && HasNode(g, t) then [(s, t)] else [])
  }

  /** The pairs the nested loop searches for, satellites outermost. */
  function PresentPairs(g: Graph, sats: seq<Node>, facs: seq<Node>): (r: seq<(Node, Node)>)
    ensures forall p :: p in r <==> p.0 in sats && p.1 in facs && HasNode(g, p.0) && HasNode(g, p.1)
    decreases |sats|
  {
    if sats == [] then []
    else
      var s := sats[|sats| - 1];
      var init := sats[..|sats| - 1];
      assert forall x :: x in sats <==> x in init || x == s;
      PresentPairs(g, init, facs) + PairsFor(g, s, facs)
  }

  /** What one search and accumulation leave behind for a source `s`. */
  datatype Run = Run(s: Node, S: seq<Node>, P: map<Node, seq<Node>>, sigma: map<Node, real>,
                     D: map<Node, nat>, delta: map<Node, real>)

  /** `run` is a complete breadth-first search of `g` from `run.s` with
      its dependencies propagated back. */
  ghost predicate Searched(g: Graph, run: Run) {
    && SearchResult(g, run.s, run.S, run.P, run.sigma, run.D)
    && (forall x :: ValueAt(run.delta, x) == Total(run.S, run.P, run.sigma, run.delta, run.s, Dependency(x)))
  }

  /** The tally `t` summed over a list of runs. */
  function RunsTotal(runs: seq<Run>, t: Tally): real
    decreases |runs|
  {
    if runs == [] then 0.0
    else
      var run := runs[|runs| - 1];
      RunsTotal(runs[..|runs| - 1], t) + Total(run.S, run.P, run.sigma, run.delta, run.s, t)
  }

  /** The runs are searches of `g` from the first components of `pairs`, one
      per pair, in order. */
  ghost predicate RunsFor(g: Graph, runs: seq<Run>, pairs: seq<(Node, Node)>) {
    && |runs| == |pairs|
    && forall i :: 0 <= i < |runs| ==> runs[i].s == pairs[i].0 && Searched(g, runs[i])
  }

  /** The dict the loop builds: every link's credit is the sum over the
      runs so far, each link kept under one orientation, and every link key
      an edge of the graph. */
  ghost predicate Built(g: Graph, bt: map<Key, real>, runs: seq<Run>) {
    && (forall a, b :: PairValue(bt, a, b) == RunsTotal(runs, Pair(a, b)))
    && OneOrientation(bt)
    && (forall key :: key in bt && key.Link? ==> HasEdge(g, key.u, key.v))
    && PredKeyed(bt, runs)
  }

  /** Every link key is `(w, v)` for a predecessor `v` of `w` in one of
      the runs: the orientation `_accumulate_edges` creates keys in. */
  ghost predicate PredKeyed(bt: map<Key, real>, runs: seq<Run>) {
    forall key :: key in bt && key.Link? ==> exists i :: 0 <= i < |runs| && key.v in PredsOf(runs[i].P, key.u)
  }

  lemma RunsAppend(g: Graph, runs: seq<Run>, pairs: seq<(Node, Node)>, run: Run, p: (Node, Node))
    requires RunsFor(g, runs, pairs) && run.s == p.0 && Searched(g, run)
    ensures RunsFor(g, runs + [run], pairs + [p])
    ensures forall t :: RunsTotal(runs + [run], t) == RunsTotal(runs, t) + Total(run.S, run.P, run.sigma, run.delta, run.s, t)
  {
    assert (runs + [run])[..|runs|] == runs;
  }

  /** A link key the accumulation creates names a predecessor link, which
      is an edge of the graph. */
  lemma NewLinkIsEdge(g: Graph, s: Node, S: seq<Node>, P: map<Node, seq<Node>>, sigma: map<Node, real>,
                      D: map<Node, nat>, u: Node, v: Node)
    requires Valid(g) && SearchResult(g, s, S, P, sigma, D)
    requires NewKey(Link(u, v), P, D, s)
    ensures HasEdge(g, u, v)
  {
    assert u in P && v in P[u];
    EdgeSymmetric(g, v, u);
  }

  /** One iteration of the inner loop: search from `s`, then accumulate
      into the dict. */
  method TallyPair(g: Graph, s: Node, t: Node, bt: map<Key, real>, ghost runs: seq<Run>)
    returns (bt': map<Key, real>, ghost run: Run)
    requires Valid(g) && HasNode(g, s) && Built(g, bt, runs)
    ensures run.s == s && Searched(g, run)
    ensures Built(g, bt', runs + [run])
    ensures forall x :: Get(bt', Vertex(x)) == Get(bt, Vertex(x)) + Total(run.S, run.P, run.sigma, run.delta, s, Own(x))
  {
    hide SearchResult, Total;
    var S, P, sigma, D := ShortestPathCounts(g, s, t);
    var delta;
    bt', delta := Accumulate(bt, S, P, sigma, s, g, D);
    run := Run(s, S, P, sigma, D, delta);
    assert (runs + [run])[..|runs|] == runs;
    forall key | key in bt' && key.Link? ensures HasEdge(g, key.u, key.v) {
      if key !in bt {
        NewLinkIsEdge(g, s, S, P, sigma, D, key.u, key.v);
      }
    }
    forall key | key in bt' && key.Link?
      ensures exists i :: 0 <= i < |runs + [run]| && key.v in PredsOf((runs + [run])[i].P, key.u)
    {
      if key in bt {
        var i :| 0 <= i < |runs| && key.v in PredsOf(runs[i].P, key.u);
        assert (runs + [run])[i] == runs[i];
      } else {
        assert NewKey(key, P, D, s);
        assert (runs + [run])[|runs|] == run;
      }
    }
  }

  /** The inner loop over the facilities for one satellite `s`. */
  method TallyFacilities(g: Graph, s: Node, facs: seq<Node>, bt: map<Key, real>,
                         ghost runs: seq<Run>, ghost done: seq<(Node, Node)>)
    returns (bt': map<Key, real>, ghost runs': seq<Run>)
    requires Valid(g) && Built(g, bt, runs) && RunsFor(g, runs, done)
    ensures Built(g, bt', runs') && RunsFor(g, runs', done + PairsFor(g, s, facs))
  {
    hide Built, RunsFor, Searched, Valid;
    bt', runs' := bt, runs;
    assert done + PairsFor(g, s, facs[..0]) == done;
    for j := 0 to |facs|
      invariant Built(g, bt', runs') && RunsFor(g, runs', done + PairsFor(g, s, facs[..j]))
    {
      assert facs[..j + 1][..j] == facs[..j];
      if HasNode(g, s) && HasNode(g, facs[j]) {
        ghost var run;
        ghost var before := runs';
        bt', run := TallyPair(g, s, facs[j], bt', runs');
        RunsAppend(g, before, done + PairsFor(g, s, facs[..j]), run, (s, facs[j]));
        runs' := before + [run];
        assert done + PairsFor(g, s, facs[..j + 1]) == done + PairsFor(g, s, facs[..j]) + [(s, facs[j])];
      } else {
        assert PairsFor(g, s, facs[..j + 1]) == PairsFor(g, s, facs[..j]);
      }
    }
    assert facs[..|facs|] == facs;
  }

  /** What the loops of `compute_static_centrality` leave in the dict
      before the attribute is written: one run per present satellite and
      facility pair, only link keys, each an edge of the snapshot stored
      under one orientation, `(w, v)` from a node to a predecessor, and
      each link's value the sum of its credits over the runs, normalised
      by `1 / (n (n - 1))` for the `n` nodes of the undirected graph. */
  ghost predicate CreditsFor(g: Graph, satellites: seq<Node>, facilities: seq<Node>,
                             links: map<Key, real>, runs: seq<Run>) {
    && RunsFor(g, runs, PresentPairs(g, satellites, facilities))
    && (forall key :: key in links ==> key.Link? && HasEdge(g, key.u, key.v))
    && OneOrientation(links)
    && (forall a, b :: PairValue(links, a, b)
          == Scaled(RunsTotal(runs, Pair(a, b)), ScaleFactor(Order(g), true, false, None)))
    && PredKeyed(links, runs)
  }

  /** The loops of `compute_static_centrality` up to the rescaling: for
      every satellite and every facility both present in the snapshot, a
      search from the satellite and an accumulation into one dict; then
      only link keys are kept and they are normalised. */
  method ScaledCredits(g: Graph, satellites: seq<Node>, facilities: seq<Node>)
    returns (links: map<Key, real>, ghost runs: seq<Run>)
    requires Valid(g)
    ensures CreditsFor(g, satellites, facilities, links, runs)
  {
    var bt: map<Key, real> := map[];
    runs := [];
    for i := 0 to |satellites|
      invariant Built(g, bt, runs) && RunsFor(g, runs, PresentPairs(g, satellites[..i], facilities))
    {
      assert satellites[..i + 1][..i] == satellites[..i];
      bt, runs := TallyFacilities(g, satellites[i], facilities, bt, runs, PresentPairs(g, satellites[..i], facilities));
    }
    assert satellites[..|satellites|] == satellites;
    var kept := DropNodeKeys(bt);
    DroppedKeepPairs(bt, kept);
    links := Rescale(kept, Order(g), true, false, None);
    ScaledPairs(kept, links, ScaleFactor(Order(g), true, false, None));
  }

  /** `compute_static_centrality` with the link's credit read under
      either orientation: every link's `betweenness` attribute is its
      credit, +infinity for links at a facility. The ghost results are
      the final dict and the runs it sums. */
  method ComputeStaticCentrality(g: Graph, satellites: seq<Node>, facilities: seq<Node>)
    returns (r: Graph, ghost links: map<Key, real>, ghost runs: seq<Run>)
    requires Valid(g)
    ensures CreditsFor(g, satellites, facilities, links, runs)
    ensures r.nodes == g.nodes && r.adj == g.adj && Valid(r)
    ensures forall x, y :: Attr(r, x, y) == if HasEdge(g, x, y)
              then Attr(g, x, y).(betweenness := Some(EdgeCentrality(links, facilities, x, y)))
              else Attr(g, x, y)
  {
    var credits;
    credits, runs := ScaledCredits(g, satellites, facilities);
    links := credits;
    r := WriteCentrality(g, credits, facilities);
  }

  /** `compute_static_centrality` as the source writes it: the same dict,
      but each link gets the entry of the orientation `G.edges()` reports,
      or 0. */
  method ComputeStaticCentralityAsWritten(g: Graph, satellites: seq<Node>, facilities: seq<Node>)
    returns (r: Graph, ghost links: map<Key, real>, ghost runs: seq<Run>)
    requires Valid(g)
    ensures CreditsFor(g, satellites, facilities, links, runs)
    ensures r.nodes == g.nodes && r.adj == g.adj && Valid(r)
    ensures forall x, y :: Attr(r, x, y) == if HasEdge(g, x, y)
              then Attr(g, x, y).(betweenness := Some(EdgeCentralityAsWritten(Edges(g), links, facilities, x, y)))
              else Attr(g, x, y)
  {
    var credits;
    credits, runs := ScaledCredits(g, satellites, facilities);
    links := credits;
    r := WriteCentralityAsWritten(g, credits, facilities);
  }

  // ----------------------------------------------------------------------
  // The lookup of one orientation on a three-node chain

  /** The snapshot `a - b - c`, with no attributes. */
  function Chain(a: Node, b: Node, c: Node): Graph {
    Graph([a, b, c], map[a := [b], b := [a, c], c := [b]], map[])
  }

  lemma ChainShape(a: Node, b: Node, c: Node, x: Node, y: Node)
    requires a != b && b != c && a != c
    ensures x in Chain(a, b, c).adj <==> x == a || x == b || x == c
    ensures HasEdge(Chain(a, b, c), x, y) <==>
              (x == a && y == b) || (x == b && y == a) || (x == b && y == c) || (x == c && y == b)
  {
  }

  /** A breadth-first search of the chain from `a` pops the three nodes
      in chain order, and every predecessor it records is the previous
      node of the chain (perhaps more than once). */
  lemma ChainSearch(a: Node, b: Node, c: Node, S: seq<Node>, P: map<Node, seq<Node>>, sigma: map<Node, real>, D: map<Node, nat>)
    requires a != b && b != c && a != c
    requires SearchResult(Chain(a, b, c), a, S, P, sigma, D)
    ensures S == [a, b, c]
    ensures b in P && |P[b]| > 0 && forall i :: 0 <= i < |P[b]| ==> P[b][i] == a
    ensures c in P && |P[c]| > 0 && forall i :: 0 <= i < |P[c]| ==> P[c][i] == b
  {
    ChainShape(a, b, c, a, b);
    ChainShape(a, b, c, b, c);
    assert b in D && b in P && D[b] <= 1;
    var x0 := P[b][0];
    ChainShape(a, b, c, x0, b);
    assert D[b] == 1;
    assert c in D && c in P && D[c] <= 2;
    var y0 := P[c][0];
    ChainShape(a, b, c, y0, c);
    assert D[c] == 2;
    forall i | 0 <= i < |P[b]| ensures P[b][i] == a {
      ChainShape(a, b, c, P[b][i], b);
    }
    forall i | 0 <= i < |P[c]| ensures P[c][i] == b {
      ChainShape(a, b, c, P[c][i], c);
    }
    forall x | x in D ensures x == a || x == b || x == c {
      ChainShape(a, b, c, x, x);
    }
    assert D.Keys == {a, b, c};
    assert |S| == 3;
    assert S[1] in D && S[2] in D;
    assert S[1] != a && S[2] != a && S[1] != S[2];
    assert D[S[1]] <= D[S[2]];
    assert S == [a, b, c];
  }

  /** `SumOver` a list that repeats one node. */
  lemma {:induction false} SumOverSame(sigma: map<Node, real>, vs: seq<Node>, y: Node)
    requires forall i :: 0 <= i < |vs| ==> vs[i] == y
    ensures SumOver(sigma, vs) == |vs| as real * ValueAt(sigma, y)
    decreases |vs|
  {
    if vs != [] {
      hide ValueAt;
      var init := vs[..|vs| - 1];
      SumOverSame(sigma, init, y);
      var v := ValueAt(sigma, y);
      assert |vs| as real == |init| as real + 1.0;
      assert |vs| as real * v == |init| as real * v + v;
    }
  }

  /** The shares a node passes through a predecessor list that repeats
      one node. */
  lemma {:induction false} SharesSame(preds: seq<Node>, w: Node, sigma: map<Node, real>, delta: map<Node, real>, x: Node, y: Node)
    requires forall i :: 0 <= i < |preds| ==> preds[i] == y
    ensures Shares(preds, w, sigma, delta, x) == if x == y then |preds| as real * Share(sigma, delta, w, y) else 0.0
    decreases |preds|
  {
    if preds != [] {
      hide Share;
      var init := preds[..|preds| - 1];
      SharesSame(init, w, sigma, delta, x, y);
      var sh := Share(sigma, delta, w, y);
      assert |preds| as real == |init| as real + 1.0;
      assert |preds| as real * sh == |init| as real * sh + sh;
    }
  }

  /** A tally over three nodes is the sum of their three terms. */
  lemma TotalOfThree(a: Node, b: Node, c: Node, P: map<Node, seq<Node>>, sigma: map<Node, real>,
                     delta: map<Node, real>, s: Node, t: Tally)
    ensures Total([a, b, c], P, sigma, delta, s, t)
              == Term(PredsOf(P, a), a, sigma, delta, s, t) + Term(PredsOf(P, b), b, sigma, delta, s, t)
                 + Term(PredsOf(P, c), c, sigma, delta, s, t)
  {
    hide Term;
    assert [a, b, c][1..] == [b, c];
    assert [b, c][1..] == [c];
    assert [c][1..] == [];
    assert Total([c], P, sigma, delta, s, t) == Term(PredsOf(P, c), c, sigma, delta, s, t);
    assert Total([b, c], P, sigma, delta, s, t) == Term(PredsOf(P, b), b, sigma, delta, s, t) + Total([c], P, sigma, delta, s, t);
  }

  /** The path counts of a search of the chain from `a`: `k` at `b` and
      `m * k` at `c` for `k` and `m` recorded predecessors. */
  lemma ChainSigma(a: Node, b: Node, c: Node, P: map<Node, seq<Node>>, sigma: map<Node, real>)
    requires a != b && b != c && a != c
    requires SigmaSums(sigma, P, a) && a in sigma && sigma[a] == 1.0 && b in sigma && c in sigma
    requires b in P && forall i :: 0 <= i < |P[b]| ==> P[b][i] == a
    requires c in P && forall i :: 0 <= i < |P[c]| ==> P[c][i] == b
    ensures ValueAt(sigma, b) == |P[b]| as real
    ensures ValueAt(sigma, c) == |P[c]| as real * |P[b]| as real
  {
    SumOverSame(sigma, P[b], a);
    SumOverSame(sigma, P[c], b);
    hide SumOver;
    assert sigma[b] == SumOver(sigma, P[b]);
    assert sigma[c] == SumOver(sigma, P[c]);
    var k := |P[b]| as real;
    assert ValueAt(sigma, b) == k * 1.0;
  }

  /** `m` shares of `k * (1 + 0) / (m * k)` make 1. */
  lemma ShareToEnd(sigma: map<Node, real>, delta: map<Node, real>, b: Node, c: Node, k: real, m: real)
    requires k >= 1.0 && m >= 1.0
    requires ValueAt(sigma, b) == k && ValueAt(sigma, c) == m * k && ValueAt(delta, c) == 0.0
    ensures m * Share(sigma, delta, c, b) == 1.0
  {
    assert m * k >= 1.0 * k;
    assert Share(sigma, delta, c, b) == k * (1.0 / (m * k));
  }

  /** `k` shares of `1 * (1 + 1) / k` make 2. */
  lemma ShareToSource(sigma: map<Node, real>, delta: map<Node, real>, a: Node, b: Node, k: real)
    requires k >= 1.0
    requires ValueAt(sigma, a) == 1.0 && ValueAt(sigma, b) == k && ValueAt(delta, b) == 1.0
    ensures k * Share(sigma, delta, b, a) == 2.0
  {
    assert Share(sigma, delta, b, a) == 2.0 / k;
  }

  /** The dependencies of a search of the chain from `a`: 0 at `c`, which
      ends every path, and 1 at `b`, which every path to `c` crosses. */
  lemma ChainDeltas(a: Node, b: Node, c: Node, P: map<Node, seq<Node>>, sigma: map<Node, real>, delta: map<Node, real>, k: real, m: real)
    requires a != b && b != c && a != c
    requires PredsOf(P, a) == []
    requires b in P && forall i :: 0 <= i < |P[b]| ==> P[b][i] == a
    requires c in P && forall i :: 0 <= i < |P[c]| ==> P[c][i] == b
    requires k == |P[b]| as real && m == |P[c]| as real && k >= 1.0 && m >= 1.0
    requires ValueAt(sigma, b) == k && ValueAt(sigma, c) == m * k
    requires ValueAt(delta, c) == Total([a, b, c], P, sigma, delta, a, Dependency(c))
    requires ValueAt(delta, b) == Total([a, b, c], P, sigma, delta, a, Dependency(b))
    ensures ValueAt(delta, c) == 0.0
    ensures ValueAt(delta, b) == 1.0
  {
    hide Total, Shares, Share;
    TotalOfThree(a, b, c, P, sigma, delta, a, Dependency(c));
    TotalOfThree(a, b, c, P, sigma, delta, a, Dependency(b));
    SharesSame([], a, sigma, delta, c, a);
    SharesSame([], a, sigma, delta, b, a);
    SharesSame(P[b], b, sigma, delta, c, a);
    SharesSame(P[c], c, sigma, delta, c, b);
    SharesSame(P[b], b, sigma, delta, b, a);
    SharesSame(P[c], c, sigma, delta, b, b);
    assert ValueAt(delta, c) == 0.0;
    ShareToEnd(sigma, delta, b, c, k, m);
  }

  /** The credit of the link `a - b` from the terms of the three nodes:
      `b` passes `k` shares of `1 * (1 + 1) / k` to its predecessor `a`. */
  lemma ChainPairTotal(a: Node, b: Node, c: Node, P: map<Node, seq<Node>>, sigma: map<Node, real>, delta: map<Node, real>, k: real)
    requires a != b && b != c && a != c
    requires PredsOf(P, a) == []
    requires b in P && forall i :: 0 <= i < |P[b]| ==> P[b][i] == a
    requires k == |P[b]| as real && k >= 1.0
    requires ValueAt(sigma, a) == 1.0 && ValueAt(sigma, b) == k && ValueAt(delta, b) == 1.0
    ensures Total([a, b, c], P, sigma, delta, a, Pair(a, b)) == 2.0
  {
    hide Total, Shares, Share;
    TotalOfThree(a, b, c, P, sigma, delta, a, Pair(a, b));
    SharesSame([], a, sigma, delta, b, a);
    SharesSame(P[b], b, sigma, delta, a, a);
    ShareToSource(sigma, delta, a, b, k);
  }

  /** What a complete search of the chain from `a` leaves behind, as
      the dependency accumulation uses it. */
  lemma ChainRun(a: Node, b: Node, c: Node, run: Run)
    requires a != b && b != c && a != c
    requires Searched(Chain(a, b, c), run) && run.s == a
    ensures run.S == [a, b, c] && PredsOf(run.P, a) == []
    ensures b in run.P && |run.P[b]| > 0 && forall i :: 0 <= i < |run.P[b]| ==> run.P[b][i] == a
    ensures c in run.P && |run.P[c]| > 0 && forall i :: 0 <= i < |run.P[c]| ==> run.P[c][i] == b
    ensures SigmaSums(run.sigma, run.P, a) && a in run.sigma && run.sigma[a] == 1.0 && b in run.sigma && c in run.sigma
    ensures ValueAt(run.delta, b) == Total(run.S, run.P, run.sigma, run.delta, a, Dependency(b))
    ensures ValueAt(run.delta, c) == Total(run.S, run.P, run.sigma, run.delta, a, Dependency(c))
  {
    hide Total;
    assert ValueAt(run.delta, b) == Total(run.S, run.P, run.sigma, run.delta, a, Dependency(b));
    assert ValueAt(run.delta, c) == Total(run.S, run.P, run.sigma, run.delta, a, Dependency(c));
    assert PredsOf(run.P, a) == [];
    ChainSearch(a, b, c, run.S, run.P, run.sigma, run.D);
    ChainShape(a, b, c, b, b);
    ChainShape(a, b, c, c, c);
  }

  /** A search from `a` credits the link `a - b` with 2: one shortest
      path to `b` and one to `c` run through it, whatever the number of
      times the predecessors were recorded. */
  lemma ChainLinkCredit(a: Node, b: Node, c: Node, run: Run)
    requires a != b && b != c && a != c
    requires Searched(Chain(a, b, c), run) && run.s == a
    ensures Total(run.S, run.P, run.sigma, run.delta, a, Pair(a, b)) == 2.0
  {
    hide Total, Searched;
    ChainRun(a, b, c, run);
    ChainSigma(a, b, c, run.P, run.sigma);
    var k := |run.P[b]| as real;
    var m := |run.P[c]| as real;
    ChainDeltas(a, b, c, run.P, run.sigma, run.delta, k, m);
    ChainPairTotal(a, b, c, run.P, run.sigma, run.delta, k);
  }

  /** `G.edges()` reports the link `a - b` of the chain from `a`, the
      first node. */
  lemma ChainEdge(a: Node, b: Node, c: Node)
    requires a != b && b != c && a != c
    ensures (a, b) in Edges(Chain(a, b, c))
  {
    var g := Chain(a, b, c);
    assert b in Nbrs(g, a) && b !in g.nodes[..0];
    assert (a, b) in EdgesFrom(g, 0);
  }

  /** The pairs the loops search for with satellites `[a]` and
      facilities `[c]` on the chain: `(a, c)` alone. */
  lemma ChainPairs(a: Node, b: Node, c: Node)
    requires a != b && b != c && a != c
    ensures PresentPairs(Chain(a, b, c), [a], [c]) == [(a, c)]
  {
    assert PairsFor(Chain(a, b, c), a, [c]) == [(a, c)];
  }

  /** A search records no predecessor of its source. */
  lemma SourceUnpreceded(g: Graph, run: Run)
    requires Searched(g, run)
    ensures PredsOf(run.P, run.s) == []
  {
  }

  /** No link key `(u, v)` when no run records a predecessor of `u`. */
  lemma NoKeyFrom(links: map<Key, real>, runs: seq<Run>, u: Node, v: Node)
    requires PredKeyed(links, runs)
    requires forall i :: 0 <= i < |runs| ==> PredsOf(runs[i].P, u) == []
    ensures Link(u, v) !in links
  {
  }

  /** The loops over satellites `[a]` and facilities `[c]` search once,
      from `a`, and the dict then holds no key `(a, b)`: its link keys
      run from a node to a predecessor, and `a` has none. */
  lemma ChainRuns(a: Node, b: Node, c: Node, links: map<Key, real>, runs: seq<Run>)
    requires a != b && b != c && a != c
    requires RunsFor(Chain(a, b, c), runs, PresentPairs(Chain(a, b, c), [a], [c])) && PredKeyed(links, runs)
    ensures |runs| == 1 && runs[0].s == a && Searched(Chain(a, b, c), runs[0])
    ensures Link(a, b) !in links
  {
    hide PresentPairs, PredKeyed, Searched, Chain;
    ChainPairs(a, b, c);
    assert |runs| == 1 && runs[0].s == a;
    SourceUnpreceded(Chain(a, b, c), runs[0]);
    NoKeyFrom(links, runs, a, b);
  }

  /** The tally summed over a single run. */
  lemma RunsTotalOne(runs: seq<Run>, t: Tally)
    requires |runs| == 1
    ensures RunsTotal(runs, t) == Total(runs[0].S, runs[0].P, runs[0].sigma, runs[0].delta, runs[0].s, t)
  {
    hide Total;
    assert runs[..0] == [];
  }

  /** The dict's value for the link `a - b`: the credit 2 of the one
      search, normalised by `1 / (3 * 2)`. */
  lemma ChainCredit(a: Node, b: Node, c: Node, links: map<Key, real>, runs: seq<Run>)
    requires a != b && b != c && a != c
    requires CreditsFor(Chain(a, b, c), [a], [c], links, runs)
    ensures PairValue(links, a, b) == 1.0 / 3.0
  {
    hide RunsTotal, Total, Searched;
    ChainRuns(a, b, c, links, runs);
    ChainLinkCredit(a, b, c, runs[0]);
    RunsTotalOne(runs, Pair(a, b));
    assert Order(Chain(a, b, c)) == 3;
    assert ScaleFactor(3, true, false, None) == Some(1.0 / 6.0);
    assert PairValue(links, a, b) == Scaled(RunsTotal(runs, Pair(a, b)), ScaleFactor(Order(Chain(a, b, c)), true, false, None));
  }

  /** On a chain `a - b - c`, with `a` the satellite and `c` the
      facility, the dict holds the credit of the link `a - b` under
      `(b, a)` only, while `G.edges()` reports it as `(a, b)`: the value
      as written is 0 where the link's credit is 1/3. */
  lemma ChainOrientationLost(a: Node, b: Node, c: Node, links: map<Key, real>, runs: seq<Run>)
    requires a != b && b != c && a != c
    requires CreditsFor(Chain(a, b, c), [a], [c], links, runs)
    ensures (a, b) in Edges(Chain(a, b, c))
    ensures EdgeCentralityAsWritten(Edges(Chain(a, b, c)), links, [c], a, b) == Finite(0.0)
    ensures EdgeCentrality(links, [c], a, b) == Finite(1.0 / 3.0)
  {
    assert OneOrientation(links);
    ChainEdge(a, b, c);
    ChainRuns(a, b, c, links, runs);
    ChainCredit(a, b, c, links, runs);
    hide CreditsFor, Edges;
  }

  /** The same on the snapshot `SatA - SatB - Fac1` with satellites
      `["SatA"]` and facilities `["Fac1"]`: the source writes 0.0 on the
      link `("SatA", "SatB")`, whose betweenness is 1/3. */
  lemma OrientationLost(links: map<Key, real>, runs: seq<Run>)
    requires CreditsFor(Chain("SatA", "SatB", "Fac1"), ["SatA"], ["Fac1"], links, runs)
    ensures ("SatA", "SatB") in Edges(Chain("SatA", "SatB", "Fac1"))
    ensures EdgeCentralityAsWritten(Edges(Chain("SatA", "SatB", "Fac1")), links, ["Fac1"], "SatA", "SatB") == Finite(0.0)
    ensures EdgeCentrality(links, ["Fac1"], "SatA", "SatB") == Finite(1.0 / 3.0)
  {
    ChainOrientationLost("SatA", "SatB", "Fac1", links, runs);
  }

}
