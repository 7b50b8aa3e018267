/** The sequential baseline of the mutex benchmarks: `calc` applied max_iter times in a
    row to one cache, and the benchmark that checks the outcome. */
module MutexBench {
  import opened BenchCommon

  /** `cache_calc`: max_iter calcs in sequence on the cache it is given. Each counter
      goes up by max_iter and no entry outside the ten changes. */
  method CacheCalc(cache: Cache)
    requires ReadyFor(cache.entries, MaxIter)
    modifies cache
    ensures cache.entries == CalcTimes(old(cache.entries), MaxIter)
    ensures forall i :: 0 <= i < NumCalc ==>
      Key(i) in cache.entries && ValidCounter(cache.entries[Key(i)]) &&
      CountOf(cache.entries[Key(i)]) == CountOf(Lookup(old(cache.entries), Key(i))) + MaxIter
    ensures forall key :: !IsCalcKey(key) ==> Lookup(cache.entries, key) == Lookup(old(cache.entries), key)
  {
    ghost var start := cache.entries;
    for i := 0 to MaxIter
      invariant ReadyFor(start, i) && cache.entries == CalcTimes(start, i)
    {
      CalcTimesHeadroom(start, i + 1, MaxIter);
      CalcTimesSucc(start, i);
      cache.Calc();
    }
    CalcTimesEffect(start, MaxIter);
  }

  /** `BM_cachecalc` as written: a fresh cache, `cache_calc`, then `checkWork` with its
      default expectation of 2 * max_iter. Every counter holds "1000" rather than "2000",
      so each of the ten keys is reported, in order. */
  method BenchCacheCalc() returns (outcome: CheckOutcome)
    ensures outcome == Checked(seq(NumCalc, i requires 0 <= i < NumCalc => Key(i)))
  {
    var cache := new Cache();
    CalcTimesFromEmpty(MaxIter);
    CacheCalc(cache);
    CheckAfterCalcs(MaxIter, 2 * MaxIter);
    outcome := CheckWork(cache.entries);
  }

  /** `BM_cachecalc` with the expectation matched to the work `cache_calc` does, that is
      `checkWork(state, cache, max_iter)`: nothing is reported. */
  method BenchCacheCalcFixed() returns (outcome: CheckOutcome)
    ensures outcome == Checked([])
  {
    var cache := new Cache();
    CalcTimesFromEmpty(MaxIter);
    CacheCalc(cache);
    CheckAfterCalcs(MaxIter, MaxIter);
    outcome := CheckWork(cache.entries, MaxIter);
  }
}
