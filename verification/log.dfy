/** The in-process metrics counters (src/lib/log.ts). Logging itself is not modelled. */
module Log {

  /** `counters[key] = (counters[key] || 0) + by`. */
  function Inc(counters: map<string, int>, key: string, amount: int): (r: map<string, int>)
    ensures r.Keys == counters.Keys + {key}
    ensures r[key] == (if key in counters then counters[key] else 0) + amount
    ensures forall k :: k in counters && k != key ==> r[k] == counters[k]
  {
    counters[key := (if key in counters then counters[key] else 0) + amount]
  }

  /** Two increments of one key add up; the order of increments to different keys does not matter. */
  lemma IncComposes(counters: map<string, int>, k1: string, a: int, k2: string, b: int)
    ensures k1 == k2 ==> Inc(Inc(counters, k1, a), k2, b) == Inc(counters, k1, a + b)
    ensures k1 != k2 ==> Inc(Inc(counters, k1, a), k2, b) == Inc(Inc(counters, k2, b), k1, a)
  {
  }

  /** The process-wide metrics object; `present` is false until the first increment creates it. */
  class Metrics {
    var present: bool
    var startedAt: int
    var counters: map<string, int>

    constructor ()
      ensures !present && counters == map[]
    {
      present := false;
      startedAt := 0;
      counters := map[];
    }

    /** The counters as seen by an increment: an absent metrics object starts out empty. */
    function Current(): map<string, int>
      reads this
    {
      if present then counters else map[]
    }

    /** `metricInc(key, by = 1)`. */
    method MetricInc(now: int, key: string, amount: int := 1)
      modifies this
      ensures present
      ensures startedAt == if old(present) then old(startedAt) else now
      ensures counters == Inc(old(Current()), key, amount)
    {
      if !present {
        present, startedAt, counters := true, now, map[];
      }
      counters := Inc(counters, key, amount);
    }
  }

  /** The state change of one `metricInc(key)` call with the default increment of 1. */
  twostate predicate Bumped(m: Metrics, new key: string)
    reads m
  {
    && m.present
    && (old(m.present) ==> m.startedAt == old(m.startedAt))
    && m.counters == Inc(old(m.Current()), key, 1)
  }
}
