/** The simulator's process-wide statistics object (src/utils/counter.py):
    a singleton whose counters are zeroed on the first construction only. */
module Counters {

  /** One node's usage count after one more use: an id never seen before
      starts at 1. */
  function Bump(usage: map<string, int>, id: string): (r: map<string, int>)
    ensures id in r && r[id] == (if id in usage then usage[id] else 0) + 1
    ensures forall k :: k in r <==> k in usage || k == id
    ensures forall k :: k in usage && k != id ==> r[k] == usage[k]
  {
    if id in usage then usage[id := usage[id] + 1] else usage[id := 1]
  }

  /** `blocked / total * 100`, or 0 when no flow was counted. */
  function BlockedRate(blocked: int, total: int): (r: real)
    ensures total == 0 ==> r == 0.0
    ensures total != 0 ==> r * (total as real) == (blocked as real) * 100.0
    ensures 0 <= blocked <= total ==> 0.0 <= r <= 100.0
    ensures 0 < total && blocked == total ==> r == 100.0
  {
    if total != 0 then (blocked as real) / (total as real) * 100.0 else 0.0
  }

  /** More blocked flows out of the same total never lower the rate. */
  lemma BlockedRateMonotone(b1: int, b2: int, total: int)
    requires b1 <= b2 && total > 0
    ensures BlockedRate(b1, total) <= BlockedRate(b2, total)
  {
    assert BlockedRate(b1, total) * (total as real) <= BlockedRate(b2, total) * (total as real);
  }

  class Counter {
    var count: int
    var totalFlows: int
    var countSwitches: int
    var blockedFlows: int
    var nodeUsage: map<string, int>

    /** The object `__new__` allocates; `__init__` then decides whether it
        is (re)initialised. */
    constructor ()
      ensures count == 0 && totalFlows == 0 && countSwitches == 0 && blockedFlows == 0
      ensures nodeUsage == map[]
    {
      count, totalFlows, countSwitches, blockedFlows := 0, 0, 0, 0;
      nodeUsage := map[];
    }

    /** Zeroes every counter, as the first `__init__`. */
    method Reset()
      modifies this
      ensures count == 0 && totalFlows == 0 && countSwitches == 0 && blockedFlows == 0
      ensures nodeUsage == map[]
    {
      count, totalFlows, countSwitches, blockedFlows := 0, 0, 0, 0;
      nodeUsage := map[];
    }

    method IncrementNodeUsage(id: string)
      modifies this
      ensures nodeUsage == Bump(old(nodeUsage), id)
      ensures count == old(count) && totalFlows == old(totalFlows)
      ensures countSwitches == old(countSwitches) && blockedFlows == old(blockedFlows)
    {
      if id in nodeUsage {
        nodeUsage := nodeUsage[id := nodeUsage[id] + 1];
      } else {
        nodeUsage := nodeUsage[id := 1];
      }
    }

    /** The live usage map (Python returns the dict itself). */
    method GetNodeUsage() returns (usage: map<string, int>)
      ensures usage == nodeUsage
    {
      usage := nodeUsage;
    }

    method IncrementTotalFlows()
      modifies this
      ensures totalFlows == old(totalFlows) + 1
      ensures count == old(count) && countSwitches == old(countSwitches)
      ensures blockedFlows == old(blockedFlows) && nodeUsage == old(nodeUsage)
    {
      totalFlows := totalFlows + 1;
    }

    method IncrementBlockedFlows()
      modifies this
      ensures blockedFlows == old(blockedFlows) + 1
      ensures count == old(count) && countSwitches == old(countSwitches)
      ensures totalFlows == old(totalFlows) && nodeUsage == old(nodeUsage)
    {
      blockedFlows := blockedFlows + 1;
    }

    method IncrementCountSwitches()
      modifies this
      ensures countSwitches == old(countSwitches) + 1
      ensures count == old(count) && blockedFlows == old(blockedFlows)
      ensures totalFlows == old(totalFlows) && nodeUsage == old(nodeUsage)
    {
      countSwitches := countSwitches + 1;
    }

    method GetBlockedRate() returns (r: real)
      ensures r == BlockedRate(blockedFlows, totalFlows)
    {
      if totalFlows != 0 {
        r := (blockedFlows as real) / (totalFlows as real) * 100.0;
      } else {
        r := 0.0;
      }
    }
  }

  /** The class-level state behind the singleton: `_instance` and
      `_initialized`. */
  class CounterClass {
    var instance: Counter?
    var initialized: bool

    ghost predicate Inv()
      reads this
    {
      initialized ==> instance != null
    }

    /** The state at import time. */
    constructor ()
      ensures instance == null && !initialized
      ensures Inv()
    {
      instance := null;
      initialized := false;
    }

    /** `Counter()`: `__new__` returns the existing instance if there is
        one, and `__init__` zeroes the counters only while the class is not
        yet initialised. */
    method Call() returns (c: Counter)
      requires Inv()
      modifies this, instance
      ensures Inv() && initialized && instance == c
      ensures old(instance) != null ==> c == old(instance)
      ensures old(instance) == null ==> fresh(c)
      ensures !old(initialized) ==> c.count == 0 && c.totalFlows == 0 && c.countSwitches == 0
      ensures !old(initialized) ==> c.blockedFlows == 0 && c.nodeUsage == map[]
      ensures old(initialized) ==> unchanged(c)
    {
      if instance == null {
        instance := new Counter();
      }
      c := instance;
      if !initialized {
        c.Reset();
        initialized := true;
      }
    }
  }

  /** Constructing twice yields one object, and the second construction
      leaves the counts the program accumulated in between alone. */
  method SingletonKeepsCounts(cls: CounterClass) returns (a: Counter, b: Counter, before: int)
    requires cls.Inv()
    modifies cls, cls.instance
    ensures cls.Inv()
    ensures a == b && b.blockedFlows == before + 1
  {
    a := cls.Call();
    before := a.blockedFlows;
    a.IncrementBlockedFlows();
    b := cls.Call();
  }
}
