/** The data-gathering side of run_stk.py and src/stk/stk_manager.py
    that does not depend on the STK tool itself: which satellite pairs get
    a distance series (the `Sat<p><n>` ring/grid neighbour rule), how the
    scenario's time strings become the time list, how chain times are
    snapped onto it, and the guards that raise. Every value STK computes
    (access times and ranges, chain intervals) is an input. */
module Stk {
  import opened Common
  import opened TimeGrid

  // ----------------------------------------------------------------------
  // Satellite names and the neighbour rule

  /** `f"Sat{plane_num}{sat_num}"`. */
  function SatName(p: nat, n: nat): (r: string)
    ensures StartsWith(r, "Sat")
  {
    "Sat" + Decimal(p) + Decimal(n)
  }

  lemma DigitInjective(d: nat, e: nat)
    requires d < 10 && e < 10 && Digit(d) == Digit(e)
    ensures d == e
  {
    assert Digit(d) as int == '0' as int + d by {
      assert d == 0 || d == 1 || d == 2 || d == 3 || d == 4 || d == 5 || d == 6 || d == 7 || d == 8 || d == 9;
    }
    assert Digit(e) as int == '0' as int + e by {
      assert e == 0 || e == 1 || e == 2 || e == 3 || e == 4 || e == 5 || e == 6 || e == 7 || e == 8 || e == 9;
    }
  }

  /** With single-digit plane and satellite numbers the names are
      distinct. */
  lemma SatNameInjective(p: nat, n: nat, q: nat, m: nat)
    requires p < 10 && n < 10 && q < 10 && m < 10
    requires SatName(p, n) == SatName(q, m)
    ensures p == q && n == m
  {
    DecimalOneDigit(p);
    DecimalOneDigit(n);
    DecimalOneDigit(q);
    DecimalOneDigit(m);
    assert SatName(p, n)[3] == Digit(p) && SatName(q, m)[3] == Digit(q);
    assert SatName(p, n)[4] == Digit(n) && SatName(q, m)[4] == Digit(m);
    DigitInjective(p, q);
    DigitInjective(n, m);
  }

  /** With two-digit numbers the naming is ambiguous: satellite 11 of
      plane 1 and satellite 1 of plane 11 get the same name. */
  lemma SatNameCollision()
    ensures SatName(1, 11) == SatName(11, 1) == "Sat111"
  {
    assert Decimal(11) == Decimal(1) + [Digit(1)];
  }

  /** A distance series requested for the pair `from`, `to`; its key in
      `sat_distance` is `f"{from} to {to}"`. */
  datatype Link = Link(from: string, to: string)

  function Key(l: Link): string {
    l.from + " to " + l.to
  }

  /** The ring neighbour in the same plane: the next satellite, wrapping
      from the last one back to satellite 1. */
  function InterName(p: nat, n: nat, N: nat): string {
    if n == N then SatName(p, 1) else SatName(p, n + 1)
  }

  /** What one `(plane_num, sat_num)` contributes, in order: the ring
      link, then the link to the same satellite of the next plane when
      there is a next plane. */
  function CellLinks(p: nat, n: nat, P: nat, N: nat): (r: seq<Link>)
    ensures |r| == if p < P then 2 else 1
  {
    [Link(SatName(p, n), InterName(p, n, N))] + (if p < P then [Link(SatName(p, n), SatName(p + 1, n))] else [])
  }

  /** The links of plane `p` for satellites `1 .. m`. */
  function RowLinks(p: nat, m: nat, P: nat, N: nat): seq<Link> {
    if m == 0 then [] else RowLinks(p, m - 1, P, N) + CellLinks(p, m, P, N)
  }

  /** The links of planes `1 .. m`. */
  function GridLinks(m: nat, P: nat, N: nat): seq<Link> {
    if m == 0 then [] else GridLinks(m - 1, P, N) + RowLinks(m, N, P, N)
  }

  /** `l` is one of the links the rule gives satellite `n` of plane `p`. */
  predicate IsCellLink(l: Link, p: nat, n: nat, P: nat, N: nat) {
    l.from == SatName(p, n) && (l.to == InterName(p, n, N) || (p < P && l.to == SatName(p + 1, n)))
  }

  /** The inner loop of the neighbour rule for one plane. */
  method PlaneLinks(p: nat, P: nat, N: nat) returns (links: seq<Link>)
    ensures links == RowLinks(p, N, P, N)
  {
    hide SatName;
    links := [];
    for n := 1 to N + 1
      invariant links == RowLinks(p, n - 1, P, N)
    {
      var cur := SatName(p, n);
      var inter := if n == N then SatName(p, 1) else SatName(p, n + 1);
      assert RowLinks(p, n, P, N) == links + CellLinks(p, n, P, N);
      links := links + [Link(cur, inter)];
      if p < P {
        links := links + [Link(cur, SatName(p + 1, n))];
      }
    }
  }

  /** The nested loops over `plane_num` and `sat_num` of `run_stk` and
      `STKManager.create_access`: the pairs whose distances are computed,
      in order. */
  method NeighbourPairs(P: nat, N: nat) returns (links: seq<Link>)
    ensures links == GridLinks(P, P, N)
  {
    links := [];
    for p := 1 to P + 1
      invariant links == GridLinks(p - 1, P, N)
    {
      var row := PlaneLinks(p, P, N);
      links := links + row;
    }
  }

  lemma {:induction false} RowCount(p: nat, m: nat, P: nat, N: nat)
    ensures |RowLinks(p, m, P, N)| == m * (if p < P then 2 else 1)
  {
    hide SatName, InterName, CellLinks;
    if m > 0 {
      RowCount(p, m - 1, P, N);
      var c := if p < P then 2 else 1;
      assert (m - 1) * c + c == m * c;
    }
  }

  lemma {:induction false} GridCountUpTo(m: nat, P: nat, N: nat)
    requires m < P
    ensures |GridLinks(m, P, N)| == 2 * m * N
  {
    hide SatName, InterName, CellLinks, RowLinks;
    if m > 0 {
      GridCountUpTo(m - 1, P, N);
      RowCount(m, N, P, N);
      assert |GridLinks(m, P, N)| == |GridLinks(m - 1, P, N)| + |RowLinks(m, N, P, N)|;
      assert 2 * (m - 1) * N + N * 2 == 2 * m * N;
    }
  }

  /** Every plane has `N` ring links and every plane but the last `N`
      links to the next plane. */
  lemma GridCount(P: nat, N: nat)
    ensures |GridLinks(P, P, N)| == if P == 0 then 0 else (2 * P - 1) * N
  {
    hide SatName, InterName, CellLinks, RowLinks;
    if P > 0 {
      GridCountUpTo(P - 1, P, N);
      RowCount(P, N, P, N);
      assert |GridLinks(P, P, N)| == |GridLinks(P - 1, P, N)| + |RowLinks(P, N, P, N)|;
      assert 2 * (P - 1) * N + N * 1 == (2 * P - 1) * N;
    }
  }

  lemma {:induction false} RowMembers(p: nat, m: nat, P: nat, N: nat, l: Link)
    ensures l in RowLinks(p, m, P, N) <==> exists n :: 1 <= n <= m && IsCellLink(l, p, n, P, N)
  {
    hide SatName, InterName;
    if m > 0 {
      RowMembers(p, m - 1, P, N, l);
      assert RowLinks(p, m, P, N) == RowLinks(p, m - 1, P, N) + CellLinks(p, m, P, N);
      assert l in CellLinks(p, m, P, N) <==> IsCellLink(l, p, m, P, N);
    }
  }

  lemma {:induction false} GridMembersUpTo(m: nat, P: nat, N: nat, l: Link)
    ensures l in GridLinks(m, P, N) <==> exists p, n :: 1 <= p <= m && 1 <= n <= N && IsCellLink(l, p, n, P, N)
  {
    hide SatName, InterName, RowLinks, CellLinks;
    if m > 0 {
      GridMembersUpTo(m - 1, P, N, l);
      RowMembers(m, N, P, N, l);
      assert GridLinks(m, P, N) == GridLinks(m - 1, P, N) + RowLinks(m, N, P, N);
      if l in RowLinks(m, N, P, N) {
        var n :| 1 <= n <= N && IsCellLink(l, m, n, P, N);
        assert 1 <= m <= m && 1 <= n <= N && IsCellLink(l, m, n, P, N);
      }
      if exists p, n :: 1 <= p <= m && 1 <= n <= N && IsCellLink(l, p, n, P, N) {
        var p, n :| 1 <= p <= m && 1 <= n <= N && IsCellLink(l, p, n, P, N);
        if p < m {
          assert 1 <= p <= m - 1 && 1 <= n <= N && IsCellLink(l, p, n, P, N);
        } else {
          assert 1 <= n <= N && IsCellLink(l, m, n, P, N);
        }
      }
    }
  }

  /** A pair is requested exactly when the rule links its first
      satellite to its second. */
  lemma GridMembers(P: nat, N: nat, l: Link)
    ensures l in GridLinks(P, P, N) <==> exists p, n :: 1 <= p <= P && 1 <= n <= N && IsCellLink(l, p, n, P, N)
  {
    GridMembersUpTo(P, P, N, l);
  }

  /** The ring closes: the last satellite of every plane is linked back to
      satellite 1. */
  lemma RingWraps(P: nat, N: nat, p: nat)
    requires 1 <= p <= P && N >= 1
    ensures Link(SatName(p, N), SatName(p, 1)) in GridLinks(P, P, N)
  {
    GridMembers(P, N, Link(SatName(p, N), SatName(p, 1)));
    assert IsCellLink(Link(SatName(p, N), SatName(p, 1)), p, N, P, N);
  }

  /** The last plane has no link to a following plane (stated for
      single-digit numbers, where names identify satellites). */
  lemma LastPlaneHasNoNext(P: nat, N: nat, n: nat)
    requires 1 <= P <= 8 && 1 <= n <= N <= 9
    ensures Link(SatName(P, n), SatName(P + 1, n)) !in GridLinks(P, P, N)
  {
    var l := Link(SatName(P, n), SatName(P + 1, n));
    GridMembers(P, N, l);
    if l in GridLinks(P, P, N) {
      var p, k :| 1 <= p <= P && 1 <= k <= N && IsCellLink(l, p, k, P, N);
      SatNameInjective(P, n, p, k);
      if k == N {
        if l.to == SatName(p, 1) { SatNameInjective(P + 1, n, p, 1); }
      } else {
        if l.to == SatName(p, k + 1) { SatNameInjective(P + 1, n, p, k + 1); }
      }
    }
  }

  // ----------------------------------------------------------------------
  // The distance table and the time list of create_access

  /** `sat_distance` after the loops: one entry per key, the range series
      STK returns for the pair; a later pair with the same key
      overwrites. */
  function DistanceTable(links: seq<Link>, access: (string, string) -> (seq<string>, seq<real>)): (m: map<string, seq<real>>)
    ensures forall k :: k in m <==> exists i :: 0 <= i < |links| && Key(links[i]) == k
  {
    if links == [] then map[]
    else
      var init := links[..|links| - 1];
      var last := links[|links| - 1];
      var m := DistanceTable(init, access)[Key(last) := access(last.from, last.to).1];
      assert forall i :: 0 <= i < |init| ==> init[i] == links[i];
      m
  }

  /** A key holds the series of the last pair with that key. */
  lemma {:induction false} DistanceOfLast(links: seq<Link>, access: (string, string) -> (seq<string>, seq<real>), i: nat)
    requires i < |links| && forall j :: i < j < |links| ==> Key(links[j]) != Key(links[i])
    ensures Key(links[i]) in DistanceTable(links, access)
    ensures DistanceTable(links, access)[Key(links[i])] == access(links[i].from, links[i].to).1
  {
    hide Key;
    var init := links[..|links| - 1];
    if i < |links| - 1 {
      assert init[i] == links[i];
      forall j | i < j < |init| ensures Key(init[j]) != Key(init[i]) {
        assert init[j] == links[j];
      }
      DistanceOfLast(init, access, i);
    }
  }

  /** `unique_times` after the loops: every time string of every
      requested pair. */
  function UniqueTimes(links: seq<Link>, access: (string, string) -> (seq<string>, seq<real>)): (u: set<string>)
    ensures forall i, k :: 0 <= i < |links| && 0 <= k < |access(links[i].from, links[i].to).0| ==> access(links[i].from, links[i].to).0[k] in u
    ensures forall t :: t in u ==> exists i :: 0 <= i < |links| && t in access(links[i].from, links[i].to).0
  {
    if links == [] then {}
    else
      var init := links[..|links| - 1];
      var last := links[|links| - 1];
      var u := UniqueTimes(init, access) + set t | t in access(last.from, last.to).0;
      assert forall i :: 0 <= i < |init| ==> init[i] == links[i];
      u
  }

  /** Python's `<=` on `str`. */
  predicate LexSorted(s: seq<string>) {
    forall i, j :: 0 <= i < j < |s| ==> !LexLess(s[j], s[i])
  }

  /** Insertion into a sorted list. */
  function Insert(x: string, s: seq<string>): (r: seq<string>)
    ensures multiset(r) == multiset(s) + multiset{x}
  {
    if s == [] then [x]
    else if LexLess(s[0], x) then
      assert s == [s[0]] + s[1..];
      [s[0]] + Insert(x, s[1..])
    else [x] + s
  }

  /** `list.sort()` on strings (any correct sort gives this result on
      distinct strings). */
  function SortStrings(s: seq<string>): (r: seq<string>)
    ensures multiset(r) == multiset(s)
  {
    if s == [] then []
    else
      assert s == [s[0]] + s[1..];
      Insert(s[0], SortStrings(s[1..]))
  }

  lemma LexAsymmetric(a: string, b: string)
    requires LexLess(a, b)
    ensures !LexLess(b, a)
  {
    if LexLess(b, a) {
      LexTransitive(a, b, a);
      LexIrreflexive(a);
    }
  }

  /** `a <= b` and `b < c` give `a < c`. */
  lemma LexLeqLess(a: string, b: string, c: string)
    requires !LexLess(b, a) && LexLess(b, c)
    ensures LexLess(a, c)
  {
    if a != b {
      LexTotal(a, b);
      LexTransitive(a, b, c);
    }
  }

  lemma {:induction false} InsertSorted(x: string, s: seq<string>)
    requires LexSorted(s)
    ensures LexSorted(Insert(x, s))
  {
    if s != [] {
      if LexLess(s[0], x) {
        InsertSorted(x, s[1..]);
        var rest := Insert(x, s[1..]);
        var r := [s[0]] + rest;
        assert Insert(x, s) == r;
        forall k | 0 <= k < |rest| ensures !LexLess(rest[k], s[0]) {
          assert rest[k] in multiset(rest);
          if rest[k] == x {
            LexAsymmetric(s[0], x);
          } else {
            assert rest[k] in multiset(s[1..]);
            var j :| 0 <= j < |s[1..]| && s[1..][j] == rest[k];
            assert s[j + 1] == rest[k];
          }
        }
        forall i, j | 0 <= i < j < |r| ensures !LexLess(r[j], r[i]) {
          if i > 0 { assert r[i] == rest[i - 1] && r[j] == rest[j - 1]; }
          else { assert r[j] == rest[j - 1]; }
        }
      } else {
        var r := [x] + s;
        forall i, j | 0 <= i < j < |r| ensures !LexLess(r[j], r[i]) {
          if i == 0 {
            assert r[j] == s[j - 1];
            if LexLess(s[j - 1], x) {
              if j - 1 > 0 {
                LexLeqLess(s[0], s[j - 1], x);
              }
            }
          } else {
            assert r[i] == s[i - 1] && r[j] == s[j - 1];
          }
        }
      }
    }
  }

  /** The sorted list is in `<=` order and a permutation of the input. */
  lemma {:induction false} SortSorted(s: seq<string>)
    ensures LexSorted(SortStrings(s))
    ensures multiset(SortStrings(s)) == multiset(s)
  {
    if s != [] {
      SortSorted(s[1..]);
      InsertSorted(s[0], SortStrings(s[1..]));
    }
  }

  /** `t.split('.')[0]`: the text before the first `'.'`. */
  function FirstPiece(t: string): (r: string)
    ensures '.' !in r && StartsWith(t, r)
    ensures '.' in t ==> |r| < |t| && t[|r|] == '.'
    ensures '.' !in t ==> r == t
  {
    if '.' in t then t[..FirstIndexOf(t, '.')] else t
  }

  lemma OccursDot(s: string, j: int)
    ensures OccursAt(s, ".", j) <==> 0 <= j < |s| && s[j] == '.'
  {
    if 0 <= j < |s| {
      assert s[j..j + 1] == [s[j]];
    }
  }

  /** `FirstPiece` is Python's `split('.')[0]`. */
  lemma FirstPieceIsSplit(t: string)
    ensures FirstPiece(t) == Split(t, ".")[0]
  {
    forall j ensures OccursAt(t, ".", j) <==> 0 <= j < |t| && t[j] == '.' { OccursDot(t, j); }
    match FindSub(t, ".")
    case None =>
      assert '.' !in t;
    case Some(i) =>
      assert t[i] == '.';
      assert forall j :: 0 <= j < i ==> t[j] != '.';
      assert FirstIndexOf(t, '.') == i;
  }

  /** The two cuts of the source agree on a string with at most one
      `'.'` and differ on one with two: `create_access` keeps the text
      before the first `'.'`, `truncate_times` the text before the last. */
  lemma CutsAgreeOnOneDot(t: string)
    requires forall i, j :: 0 <= i < j < |t| ==> !(t[i] == '.' && t[j] == '.')
    ensures FirstPiece(t) == Truncated(t)
  {
    if '.' in t {
      var a := FirstIndexOf(t, '.');
      var b := LastIndexOf(t, '.');
      assert a == b;
    }
  }

  lemma CutsDifferOnTwoDots()
    ensures FirstPiece("0.1.2") == "0"
    ensures Truncated("0.1.2") == "0.1"
  {
    var t := "0.1.2";
    assert t[1] == '.' && t[0] != '.';
    assert FirstIndexOf(t, '.') == 1;
    assert t[3] == '.' && t[4] != '.';
    assert LastIndexOf(t, '.') == 3;
  }

  /** The time list of `create_access`: the sorted strings, each cut at
      its first `'.'` and parsed (`None`: `strptime`'s `ValueError`). */
  function TimeListSpec(sorted: seq<string>, parse: string -> Option<Time>): (r: Outcome<seq<Time>>)
    ensures r.Ok? <==> forall i :: 0 <= i < |sorted| ==> parse(FirstPiece(sorted[i])).Some?
    ensures r.Raised? ==> r.fault == ValueError
    ensures r.Ok? ==> |r.value| == |sorted| && forall i :: 0 <= i < |sorted| ==> r.value[i] == parse(FirstPiece(sorted[i])).value
  {
    if forall i :: 0 <= i < |sorted| ==> parse(FirstPiece(sorted[i])).Some? then
      Ok(seq(|sorted|, i requires 0 <= i < |sorted| => parse(FirstPiece(sorted[i])).value))
    else Raised(ValueError)
  }

  /** `list(unique_times)`: the set's elements in some order. */
  method ListOf(u: set<string>) returns (s: seq<string>)
    ensures NoDup(s) && forall t :: t in s <==> t in u
  {
    s := [];
    var rest := u;
    while rest != {}
      invariant rest <= u && NoDup(s)
      invariant forall t :: t in s <==> t in u && t !in rest
      decreases |rest|
    {
      var t :| t in rest;
      s := s + [t];
      rest := rest - {t};
    }
  }

  /** `time_list` normalisation of `create_access`: sort, then parse. */
  method NormaliseTimes(u: set<string>, parse: string -> Option<Time>) returns (sorted: seq<string>, r: Outcome<seq<Time>>)
    ensures sorted == SortStrings(sorted) && LexSorted(sorted) && NoDup(sorted)
    ensures forall t :: t in sorted <==> t in u
    ensures r == TimeListSpec(sorted, parse)
  {
    hide SortStrings, LexSorted, TimeListSpec, FirstPiece;
    var listed := ListOf(u);
    sorted := SortStrings(listed);
    SortedList(listed);
    var times: seq<Time> := [];
    for i := 0 to |sorted|
      invariant |times| == i
      invariant forall k :: 0 <= k < i ==> parse(FirstPiece(sorted[k])).Some? && times[k] == parse(FirstPiece(sorted[k])).value
    {
      var parsed := parse(FirstPiece(sorted[i]));
      if parsed.None? {
        assert TimeListSpec(sorted, parse).Raised?;
        return sorted, Raised(ValueError);
      }
      times := times + [parsed.value];
    }
    r := Ok(times);
    assert TimeListSpec(sorted, parse).Ok?;
    assert TimeListSpec(sorted, parse).value == times;
  }

  /** Sorting distinct strings gives distinct strings in `<` order, the
      same elements, and a list sorting leaves alone. */
  lemma SortedList(listed: seq<string>)
    requires NoDup(listed)
    ensures var sorted := SortStrings(listed);
      sorted == SortStrings(sorted) && LexSorted(sorted) && NoDup(sorted)
      && forall t :: t in sorted <==> t in listed
  {
    var sorted := SortStrings(listed);
    SortSorted(listed);
    hide SortStrings, LexSorted, LexLess;
    SameElements(listed, sorted);
    SortedFixed(sorted);
  }

  /** A rearrangement of a list without repetitions has none either and
      holds the same elements. */
  lemma SameElements(listed: seq<string>, sorted: seq<string>)
    requires NoDup(listed) && multiset(sorted) == multiset(listed)
    ensures NoDup(sorted) && forall t :: t in sorted <==> t in listed
  {
    assert forall t :: t in sorted <==> t in multiset(sorted);
    assert forall t :: t in listed <==> t in multiset(listed);
    forall i, j | 0 <= i < j < |sorted| ensures sorted[i] != sorted[j] {
      if sorted[i] == sorted[j] {
        var front := sorted[..j];
        assert sorted == front + sorted[j..];
        assert sorted[i] in front && sorted[j] in sorted[j..];
        assert multiset(sorted) == multiset(front) + multiset(sorted[j..]);
        assert multiset(sorted)[sorted[i]] >= 2;
        NoDupCount(listed, sorted[i]);
      }
    }
  }

  /** A list without repetitions holds each element at most once. */
  lemma {:induction false} NoDupCount(s: seq<string>, x: string)
    requires NoDup(s)
    ensures multiset(s)[x] <= 1
  {
    if s != [] {
      assert s == [s[0]] + s[1..];
      assert NoDup(s[1..]);
      NoDupCount(s[1..], x);
      if x == s[0] {
        assert x !in s[1..];
      }
    }
  }

  /** Sorting sorted distinct strings changes nothing. */
  lemma {:induction false} SortedFixed(s: seq<string>)
    requires LexSorted(s) && NoDup(s)
    ensures SortStrings(s) == s
  {
    hide LexLess;
    if s != [] {
      assert LexSorted(s[1..]) && NoDup(s[1..]);
      SortedFixed(s[1..]);
      if |s| > 1 {
        assert s[0] != s[1] && !LexLess(s[1], s[0]);
        LexTotal(s[0], s[1]);
        assert s[1..] == [s[1]] + s[2..];
      }
    }
  }

  /** The sort is on text, not on time: a scenario running from day 9 to
      day 10 of a month would get its day-10 strings first. */
  lemma TextOrderIsNotTimeOrder()
    ensures SortStrings(["9 Aug", "10 Aug"]) == ["10 Aug", "9 Aug"]
  {
    assert LexLess("10 Aug", "9 Aug");
    assert ["9 Aug", "10 Aug"][1..] == ["10 Aug"];
  }

  // ----------------------------------------------------------------------
  // The chain data of compute_fac_access

  /** One access interval of a satellite-to-facility chain: its time
      strings, strand names and ranges. */
  datatype Interval = Interval(times: seq<string>, strands: seq<string>, ranges: seq<real>)

  /** Every time string of the interval survives `truncate_times`. */
  predicate Parses(c: Interval, parse: string -> Option<Time>) {
    forall i :: 0 <= i < |c.times| ==> parse(Truncated(c.times[i])).Some?
  }

  /** The parsed times of a parsable interval. */
  function TruncParsed(strs: seq<string>, parse: string -> Option<Time>): (r: seq<Time>)
    requires forall i :: 0 <= i < |strs| ==> parse(Truncated(strs[i])).Some?
    ensures |r| == |strs| && forall i :: 0 <= i < |strs| ==> r[i] == parse(Truncated(strs[i])).value
  {
    seq(|strs|, i requires 0 <= i < |strs| => parse(Truncated(strs[i])).value)
  }

  /** The interval loop of `STKManager.compute_fac_access`, from a given
      `chain_time_list` and `sat_fac_distances`: per interval the times are
      truncated and parsed (`ValueError`), snapped onto the time list and
      stored with the ranges (rounding is not modelled); then
      `strand_names[0]` fails with `IndexError` on an interval without
      strands. */
  function FacSpec(chains: seq<Interval>, timeList: seq<Time>, parse: string -> Option<Time>,
                   chainTimes: seq<Time>, distances: seq<real>): (r: (Outcome<()>, seq<Time>, seq<real>))
    ensures r.0.Ok? <==> forall k :: 0 <= k < |chains| ==> Parses(chains[k], parse) && chains[k].strands != []
    ensures r.0.Raised? ==> r.0.fault == ValueError || r.0.fault == IndexError
    ensures r.0.Ok? && chains == [] ==> r.1 == chainTimes && r.2 == distances
  {
    if chains == [] then (Ok(()), chainTimes, distances)
    else
      var c := chains[0];
      if !Parses(c, parse) then (Raised(ValueError), chainTimes, distances)
      else
        var snapped := FloorAll(TruncParsed(c.times, parse), timeList);
        if c.strands == [] then (Raised(IndexError), snapped, c.ranges)
        else
          var rest := FacSpec(chains[1..], timeList, parse, snapped, c.ranges);
          assert forall k :: 0 <= k < |chains| - 1 ==> chains[1..][k] == chains[k + 1];
          rest
  }

  /** After a run without exceptions the stored chain times are the last
      interval's times snapped onto the time list, and the stored ranges
      are its ranges. */
  lemma {:induction false} FacSpecLast(chains: seq<Interval>, timeList: seq<Time>, parse: string -> Option<Time>,
                                       chainTimes: seq<Time>, distances: seq<real>)
    requires chains != [] && FacSpec(chains, timeList, parse, chainTimes, distances).0.Ok?
    ensures var last := chains[|chains| - 1];
      Parses(last, parse)
      && FacSpec(chains, timeList, parse, chainTimes, distances).1 == FloorAll(TruncParsed(last.times, parse), timeList)
      && FacSpec(chains, timeList, parse, chainTimes, distances).2 == last.ranges
  {
    var c := chains[0];
    if |chains| > 1 {
      var snapped := FloorAll(TruncParsed(c.times, parse), timeList);
      FacSpecLast(chains[1..], timeList, parse, snapped, c.ranges);
    }
  }

  /** The state of `STKManager` the modelled operations read and write;
      `constellation` is reduced to whether it is set. */
  class StkManager {
    var timeList: seq<Time>
    var chainTimeList: seq<Time>
    var satFacDistances: seq<real>
    var satDistance: map<string, seq<real>>
    var constellationSet: bool

    constructor ()
      ensures timeList == [] && chainTimeList == [] && satFacDistances == []
      ensures satDistance == map[] && !constellationSet
    {
      timeList, chainTimeList, satFacDistances := [], [], [];
      satDistance := map[];
      constellationSet := false;
    }

    /** `create_constellation` (the STK side is not modelled) leaves
        `self.constellation` set. */
    method CreateConstellation()
      modifies this
      ensures constellationSet
      ensures timeList == old(timeList) && chainTimeList == old(chainTimeList)
      ensures satFacDistances == old(satFacDistances) && satDistance == old(satDistance)
    {
      constellationSet := true;
    }

    /** `approximate_time(time_origin)` against `self.time_list`. */
    method ApproximateTime(origin: seq<Time>) returns (r: seq<Time>)
      ensures r == FloorAll(origin, timeList)
    {
      r := TimeGrid.ApproximateTime(origin, timeList);
    }

    /** `compute_fac_access` over the chain intervals of every facility,
        in order; it raises at once if no constellation was created. */
    method ComputeFacAccess(chains: seq<Interval>, parse: string -> Option<Time>) returns (r: Outcome<()>)
      modifies this
      ensures timeList == old(timeList) && satDistance == old(satDistance) && constellationSet == old(constellationSet)
      ensures !constellationSet ==> r == Raised(Thrown("Constellation object is not initialized."))
      ensures !constellationSet ==> chainTimeList == old(chainTimeList) && satFacDistances == old(satFacDistances)
      ensures constellationSet ==> (r, chainTimeList, satFacDistances) == FacSpec(chains, timeList, parse, old(chainTimeList), old(satFacDistances))
    {
      if !constellationSet {
        return Raised(Thrown("Constellation object is not initialized."));
      }
      ghost var target := FacSpec(chains, timeList, parse, chainTimeList, satFacDistances);
      for k := 0 to |chains|
        invariant timeList == old(timeList) && satDistance == old(satDistance) && constellationSet
        invariant FacSpec(chains[k..], timeList, parse, chainTimeList, satFacDistances) == target
      {
        var c := chains[k];
        assert chains[k..][1..] == chains[k + 1..];
        var truncated := TruncateTimes(c.times, parse);
        if truncated.Raised? {
          return Raised(ValueError);
        }
        assert truncated.value == TruncParsed(c.times, parse);
        chainTimeList := ApproximateTime(truncated.value);
        satFacDistances := c.ranges;
        if c.strands == [] {
          return Raised(IndexError);
        }
      }
      r := Ok(());
    }

    /** The loop of `create_access` over the neighbour pairs: the
        distance series of each pair under its key, and every time string
        of every pair. */
    static method CollectAccess(links: seq<Link>, access: (string, string) -> (seq<string>, seq<real>))
      returns (table: map<string, seq<real>>, unique: set<string>)
      ensures table == DistanceTable(links, access) && unique == UniqueTimes(links, access)
    {
      table, unique := map[], {};
      for k := 0 to |links|
        invariant table == DistanceTable(links[..k], access)
        invariant unique == UniqueTimes(links[..k], access)
      {
        assert links[..k + 1][..k] == links[..k];
        var (times, ranges) := access(links[k].from, links[k].to);
        table := table[Key(links[k]) := ranges];
        unique := unique + set t | t in times;
      }
      assert links[..|links|] == links;
    }

    /** `create_access`: the distance series of every neighbour pair are
        stored under their keys, the collected time strings are sorted
        (as text), cut at the first `'.'` and parsed into the time list,
        then the chains are processed. The access data STK computes is
        the `access` parameter and the chain data the `chains` parameter;
        `save_data` (file output) is not modelled. */
    method CreateAccess(P: nat, N: nat, access: (string, string) -> (seq<string>, seq<real>),
                        chains: seq<Interval>, parse: string -> Option<Time>) returns (ghost sorted: seq<string>, r: Outcome<()>)
      modifies this
      ensures satDistance == old(satDistance) + DistanceTable(GridLinks(P, P, N), access)
      ensures LexSorted(sorted) && NoDup(sorted) && forall t :: t in sorted <==> t in UniqueTimes(GridLinks(P, P, N), access)
      ensures TimeListSpec(sorted, parse).Raised? ==> r == Raised(ValueError) && timeList == old(timeList)
      ensures TimeListSpec(sorted, parse).Ok? ==> timeList == TimeListSpec(sorted, parse).value
      ensures TimeListSpec(sorted, parse).Ok? && !constellationSet ==> r == Raised(Thrown("Constellation object is not initialized."))
      ensures TimeListSpec(sorted, parse).Ok? && constellationSet ==>
                (r, chainTimeList, satFacDistances) == FacSpec(chains, timeList, parse, old(chainTimeList), old(satFacDistances))
      ensures constellationSet == old(constellationSet)
    {
      var links := NeighbourPairs(P, N);
      var table, unique := CollectAccess(links, access);
      hide DistanceTable, UniqueTimes, TimeListSpec, FacSpec, LexSorted, SortStrings, GridLinks;
      satDistance := satDistance + table;
      var s, parsed := NormaliseTimes(unique, parse);
      sorted := s;
      if parsed.Raised? {
        return sorted, Raised(ValueError);
      }
      timeList := parsed.value;
      r := ComputeFacAccess(chains, parse);
    }
  }

  // ----------------------------------------------------------------------
  // run_stk.py: the chain file check

  /** The saving step of `compute_fac_access` in run_stk.py: when the
      output directory does not exist yet it is only created and nothing
      is written; when it exists the snapped times and the distances must
      have the same length, else `ValueError`, and the rows are the pairs. */
  function ChainRows(chainTimes: seq<Time>, distances: seq<real>, dirExists: bool): (r: Outcome<seq<(Time, real)>>)
    ensures r.Raised? <==> dirExists && |chainTimes| != |distances|
    ensures r.Raised? ==> r.fault == ValueError
    ensures !dirExists ==> r == Ok([])
    ensures r.Ok? && dirExists ==> |r.value| == |chainTimes| && forall i :: 0 <= i < |chainTimes| ==> r.value[i] == (chainTimes[i], distances[i])
  {
    if !dirExists then Ok([])
    else if |chainTimes| != |distances| then Raised(ValueError)
    else Ok(seq(|chainTimes|, i requires 0 <= i < |chainTimes| => (chainTimes[i], distances[i])))
  }

  /** Snapping drops the chain times earlier than the whole time list, so
      with an existing directory a chain whose times and ranges match in
      number raises exactly when one of its times has no floor. */
  lemma EarlyChainTimeRaises(times: seq<Time>, distances: seq<real>, timeList: seq<Time>)
    requires |times| == |distances|
    ensures ChainRows(FloorAll(times, timeList), distances, true).Raised? <==>
              exists i :: 0 <= i < |times| && GridFloor(timeList, times[i]).None?
  {
    FloorAllLength(times, timeList);
  }
}
