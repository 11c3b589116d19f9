/** Snapping times onto the snapshot time grid: the nearest-index lookup of
    the topology builders, the exact-match lookup of gen_topo.py, the
    inclusive window of src/utils/tools.py and old_traffic_generator.py,
    the floor-into-the-grid of run_stk.py and src/stk/stk_manager.py, and
    the cutting of sub-second digits off STK time strings. Times are whole
    seconds; `strptime` is a parameter. */
module TimeGrid {
  import opened Common

  type Time = int

  /** Non-decreasing, as the grid read from `time_series.csv` is. */
  predicate Sorted(a: seq<Time>) {
    forall i, j :: 0 <= i < j < |a| ==> a[i] <= a[j]
  }

  predicate StrictlySorted(a: seq<Time>) {
    forall i, j :: 0 <= i < j < |a| ==> a[i] < a[j]
  }

  // ----------------------------------------------------------------------
  // bisect_left

  /** CPython's `bisect_left(a, x)` loop between `lo` and `hi`. */
  function Bisect(a: seq<Time>, x: Time, lo: nat, hi: nat): (r: nat)
    requires lo <= hi <= |a|
    ensures lo <= r <= hi
    ensures Sorted(a) && (forall i :: 0 <= i < lo ==> a[i] < x) && (forall i :: hi <= i < |a| ==> a[i] >= x)
            ==> (forall i :: 0 <= i < r ==> a[i] < x) && (forall i :: r <= i < |a| ==> a[i] >= x)
    decreases hi - lo
  {
    if lo < hi then
      var mid := (lo + hi) / 2;
      if a[mid] < x then Bisect(a, x, mid + 1, hi) else Bisect(a, x, lo, mid)
    else lo
  }

  /** `bisect_left(a, x)`: on a sorted list, the first position whose entry
      is not below `x`. */
  function BisectLeft(a: seq<Time>, x: Time): (r: nat)
    ensures r <= |a|
    ensures Sorted(a) ==> (forall i :: 0 <= i < r ==> a[i] < x) && (forall i :: r <= i < |a| ==> a[i] >= x)
  {
    Bisect(a, x, 0, |a|)
  }

  // ----------------------------------------------------------------------
  // find_time_index, nearest match

  /** `|a - b|` */
  function Dist(a: Time, b: Time): nat {
    if a <= b then b - a else a - b
  }

  /** `find_time_index` of the topology builders: the index of the grid
      time nearest to `target`, the earlier one on a tie, clamped to the
      ends. An empty grid gives 0, which is no index at all. */
  function NearestIndex(timeList: seq<Time>, target: Time): (r: nat)
    ensures |timeList| == 0 ==> r == 0
    ensures |timeList| > 0 ==> r < |timeList|
    ensures Sorted(timeList) && |timeList| > 0 && target <= timeList[0] ==> r == 0
    ensures Sorted(timeList) && |timeList| > 0 && target > timeList[|timeList| - 1] ==> r == |timeList| - 1
  {
    var pos := BisectLeft(timeList, target);
    if pos == 0 then 0
    else if pos == |timeList| then |timeList| - 1
    else if target - timeList[pos - 1] <= timeList[pos] - target then pos - 1
    else pos
  }

  /** On a sorted grid no entry is nearer to the target than the one found. */
  lemma NearestIsClosest(timeList: seq<Time>, target: Time)
    requires Sorted(timeList) && |timeList| > 0
    ensures forall i :: 0 <= i < |timeList| ==>
              Dist(target, timeList[NearestIndex(timeList, target)]) <= Dist(target, timeList[i])
  {
    var pos := BisectLeft(timeList, target);
    var r := NearestIndex(timeList, target);
    forall i | 0 <= i < |timeList| ensures Dist(target, timeList[r]) <= Dist(target, timeList[i]) {
      if 0 < pos < |timeList| {
        if i < pos {
          assert timeList[i] <= timeList[pos - 1];
        } else {
          assert timeList[pos] <= timeList[i];
        }
      }
    }
  }

  /** On a grid without repeated times a tie goes to the earlier index:
      every earlier entry is strictly farther. */
  lemma NearestTiesEarlier(timeList: seq<Time>, target: Time)
    requires StrictlySorted(timeList) && |timeList| > 0
    ensures forall i :: 0 <= i < NearestIndex(timeList, target) ==>
              Dist(target, timeList[i]) > Dist(target, timeList[NearestIndex(timeList, target)])
  {
    var pos := BisectLeft(timeList, target);
    var r := NearestIndex(timeList, target);
    assert Sorted(timeList);
    forall i | 0 <= i < r ensures Dist(target, timeList[i]) > Dist(target, timeList[r]) {
      if r == pos - 1 {
        assert timeList[i] < timeList[r];
      } else {
        assert i <= pos - 1;
        assert timeList[i] <= timeList[pos - 1];
      }
    }
  }

  // ----------------------------------------------------------------------
  // find_time_index, exact match

  /** `find_time_index` of gen_topo.py: the `bisect_left` position when the
      entry there is `t` itself, `None` otherwise. */
  function ExactIndex(timeList: seq<Time>, t: Time): (r: Option<nat>)
    ensures r.Some? ==> r.value < |timeList| && timeList[r.value] == t
    ensures Sorted(timeList) ==> (r.None? <==> t !in timeList)
    ensures Sorted(timeList) && r.Some? ==> forall i :: 0 <= i < r.value ==> timeList[i] != t
  {
    var idx := BisectLeft(timeList, t);
    if idx < |timeList| && timeList[idx] == t then Some(idx) else None
  }

  // ----------------------------------------------------------------------
  // find_time_indices

  /** `start <= t <= start + timedelta(seconds=duration)` */
  predicate InWindow(t: Time, start: Time, duration: real) {
    (start as real) <= (t as real) <= (start as real) + duration
  }

  /** The positions of the grid times inside the closed window, in
      increasing order. */
  function Window(ts: seq<Time>, start: Time, duration: real): (r: seq<nat>)
    ensures forall i :: i in r <==> 0 <= i < |ts| && InWindow(ts[i], start, duration)
    ensures forall k :: 0 <= k < |r| ==> r[k] < |ts|
    ensures forall j, k :: 0 <= j < k < |r| ==> r[j] < r[k]
    decreases |ts|
  {
    if ts == [] then []
    else
      var init := ts[..|ts| - 1];
      var rest := Window(init, start, duration);
      assert forall i :: 0 <= i < |init| ==> init[i] == ts[i];
      rest + if InWindow(ts[|ts| - 1], start, duration) then [|ts| - 1] else []
  }

  /** `find_time_indices`: the append loop over the grid. */
  method WindowIndices(ts: seq<Time>, start: Time, duration: real) returns (r: seq<nat>)
    ensures r == Window(ts, start, duration)
  {
    r := [];
    for i := 0 to |ts|
      invariant r == Window(ts[..i], start, duration)
    {
      assert ts[..i + 1][..i] == ts[..i];
      if InWindow(ts[i], start, duration) {
        r := r + [i];
      }
    }
    assert ts[..|ts|] == ts;
  }

  /** A window of length 0 holds exactly the times equal to its start. */
  lemma EmptyWindow(t: Time, start: Time)
    ensures InWindow(t, start, 0.0) <==> t == start
  {
  }

  // ----------------------------------------------------------------------
  // approximate_time

  /** The first grid position whose time is later than `t`, or the length
      when there is none: where the inner loop breaks. */
  function FirstAfter(timeList: seq<Time>, t: Time): (j: nat)
    ensures j <= |timeList|
    ensures forall i :: 0 <= i < j ==> timeList[i] <= t
    ensures j < |timeList| ==> timeList[j] > t
  {
    if timeList == [] then 0
    else if timeList[0] > t then 0
    else 1 + FirstAfter(timeList[1..], t)
  }

  /** The inner loop of `approximate_time`: the last grid time seen before
      the first later one, `None` when the very first is already later. */
  function GridFloor(timeList: seq<Time>, t: Time): (r: Option<Time>)
    ensures r.None? <==> |timeList| == 0 || timeList[0] > t
    ensures r.Some? ==> r.value in timeList && r.value <= t
  {
    var j := FirstAfter(timeList, t);
    if j == 0 then None else Some(timeList[j - 1])
  }

  /** On a sorted grid the floor is the latest grid time not after `t`,
      and there is none exactly when every grid time is later. */
  lemma FloorIsGreatest(timeList: seq<Time>, t: Time)
    requires Sorted(timeList)
    ensures GridFloor(timeList, t).None? <==> forall y :: y in timeList ==> y > t
    ensures GridFloor(timeList, t).Some? ==>
              forall y :: y in timeList && y <= t ==> y <= GridFloor(timeList, t).value
  {
    var j := FirstAfter(timeList, t);
    forall y | y in timeList && y <= t && j > 0 ensures y <= timeList[j - 1] {
      var i :| 0 <= i < |timeList| && timeList[i] == y;
      assert i < j;
    }
  }

  /** `approximate_time` over a whole list: each input's floor, inputs
      without one dropped, order kept. */
  function FloorAll(origin: seq<Time>, timeList: seq<Time>): (r: seq<Time>)
    ensures |r| <= |origin|
    ensures forall x :: x in r ==> x in timeList
    ensures (forall i :: 0 <= i < |origin| ==> GridFloor(timeList, origin[i]).Some?) ==>
              |r| == |origin| && forall i :: 0 <= i < |r| ==> r[i] == GridFloor(timeList, origin[i]).value
    decreases |origin|
  {
    hide GridFloor;
    if origin == [] then []
    else
      assert forall i :: 0 <= i < |origin| - 1 ==> origin[..|origin| - 1][i] == origin[i];
      var rest := FloorAll(origin[..|origin| - 1], timeList);
      match GridFloor(timeList, origin[|origin| - 1])
      case None => rest
      case Some(x) => rest + [x]
  }

  /** Every input having a floor is the only way to keep the length. */
  lemma {:induction false} FloorAllLength(origin: seq<Time>, timeList: seq<Time>)
    ensures |FloorAll(origin, timeList)| == |origin| <==> forall i :: 0 <= i < |origin| ==> GridFloor(timeList, origin[i]).Some?
    decreases |origin|
  {
    hide GridFloor;
    if origin != [] {
      var init := origin[..|origin| - 1];
      FloorAllLength(init, timeList);
      assert forall i :: 0 <= i < |init| ==> init[i] == origin[i];
    }
  }

  /** The nested loops of `approximate_time`. */
  method ApproximateTime(origin: seq<Time>, timeList: seq<Time>) returns (r: seq<Time>)
    ensures r == FloorAll(origin, timeList)
  {
    hide FloorAll;
    r := [];
    for k := 0 to |origin|
      invariant r == FloorAll(origin[..k], timeList)
    {
      FloorAllSnoc(origin, timeList, k);
      var t := origin[k];
      var approx: Option<Time> := None;
      var i := 0;
      while i < |timeList| && timeList[i] <= t
        invariant 0 <= i <= FirstAfter(timeList, t)
        invariant approx == if i == 0 then None else Some(timeList[i - 1])
        decreases |timeList| - i
      {
        FirstAfterBound(timeList, t, i);
        approx := Some(timeList[i]);
        i := i + 1;
      }
      FirstAfterStop(timeList, t, i);
      assert approx == GridFloor(timeList, t);
      if approx.Some? {
        r := r + [approx.value];
      }
    }
    assert origin[..|origin|] == origin;
  }

  /** One more input adds its floor, if it has one, at the end. */
  lemma FloorAllSnoc(origin: seq<Time>, timeList: seq<Time>, k: nat)
    requires k < |origin|
    ensures FloorAll(origin[..k + 1], timeList) == FloorAll(origin[..k], timeList)
              + (if GridFloor(timeList, origin[k]).Some? then [GridFloor(timeList, origin[k]).value] else [])
  {
    assert origin[..k + 1][..k] == origin[..k];
  }

  lemma FirstAfterBound(timeList: seq<Time>, t: Time, i: nat)
    requires i < |timeList| && timeList[i] <= t && i <= FirstAfter(timeList, t)
    ensures i < FirstAfter(timeList, t)
  {
  }

  lemma FirstAfterStop(timeList: seq<Time>, t: Time, i: nat)
    requires i <= FirstAfter(timeList, t)
    requires !(i < |timeList| && timeList[i] <= t)
    ensures i == FirstAfter(timeList, t)
  {
  }

  // ----------------------------------------------------------------------
  // truncate_times

  /** A time string cut just before its last `'.'`; a string without one
      is kept. */
  function Truncated(s: string): (r: string)
    ensures '.' !in s ==> r == s
    ensures '.' in s ==> |r| < |s| && s[..|r|] == r && s[|r|] == '.' && '.' !in s[|r| + 1..]
  {
    if '.' in s then s[..LastIndexOf(s, '.')] else s
  }

  /** `truncate_times`: every string cut by `Truncated` and parsed with
      `parse` (`strptime`, `None` standing for its `ValueError`), in order. */
  method TruncateTimes(strs: seq<string>, parse: string -> Option<Time>) returns (r: Outcome<seq<Time>>)
    ensures r.Ok? <==> forall i :: 0 <= i < |strs| ==> parse(Truncated(strs[i])).Some?
    ensures r.Raised? ==> r.fault == ValueError
    ensures r.Ok? ==> |r.value| == |strs| && forall i :: 0 <= i < |strs| ==> r.value[i] == parse(Truncated(strs[i])).value
  {
    var out: seq<Time> := [];
    for i := 0 to |strs|
      invariant |out| == i
      invariant forall k :: 0 <= k < i ==> parse(Truncated(strs[k])).Some? && out[k] == parse(Truncated(strs[k])).value
    {
      var parsed := parse(Truncated(strs[i]));
      if parsed.None? {
        return Raised(ValueError);
      }
      out := out + [parsed.value];
    }
    r := Ok(out);
  }
}
