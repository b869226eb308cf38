/** The module-level memo `_datesTsCache` behind `tsForDayOfMetricData`: a
 *  dictionary from a day to its timestamp that is filled on first use. The
 *  date-to-seconds conversion belongs to the date library and is a parameter. */
module MetricsCache {

  class TsCache {
    /** `DateTime.fromISO(date).toSeconds()` on a day number. */
    const toSeconds: int -> real
    var entries: map<int, real>

    /** Every cached timestamp is the one the conversion gives. */
    ghost predicate Valid()
      reads this
    {
      forall d :: d in entries ==> entries[d] == toSeconds(d)
    }

    constructor (toSeconds: int -> real)
      ensures Valid() && this.toSeconds == toSeconds && entries == map[]
    {
      this.toSeconds := toSeconds;
      entries := map[];
    }

    /** `tsForDayOfMetricData`: the day's timestamp, converted and cached on
     *  the first request and read from the cache afterwards. */
    method TsForDay(date: int) returns (ts: real)
      requires Valid()
      modifies this
      ensures Valid()
      ensures ts == toSeconds(date)
      ensures entries == old(entries)[date := toSeconds(date)]
    {
      if date !in entries {
        entries := entries[date := toSeconds(date)];
      }
      ts := entries[date];
    }
  }

  /** Two requests for one day give the same timestamp, and the second adds
   *  nothing to the cache. */
  method RepeatedRequest(cache: TsCache, date: int) returns (first: real, second: real)
    requires cache.Valid()
    modifies cache
    ensures first == second == cache.toSeconds(date)
    ensures cache.entries == old(cache.entries)[date := cache.toSeconds(date)]
  {
    first := cache.TsForDay(date);
    ghost var afterFirst := cache.entries;
    second := cache.TsForDay(date);
    assert cache.entries == afterFirst;
  }
}
