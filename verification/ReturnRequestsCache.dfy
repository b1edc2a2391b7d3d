/** The time-limited response cache of the return-requests handler.

    Entries are evicted lazily, when a lookup finds one expired, and eagerly, by a sweep after every
    addition.  Times are readings of the wall clock in one unit; a reading is passed in wherever the
    handler takes one.
 */
module ReturnRequestsCache {
  import opened Wrappers

  datatype Entry<D> = Entry(data: D, timestamp: int)

  predicate Live(timestamp: int, now: int, duration: int) {
    now - timestamp < duration
  }

  // ----- The cache -----

  /** What a lookup answers and leaves behind. */
  function Fetch<D>(cache: map<string, Entry<D>>, key: string, now: int, duration: int)
    : (map<string, Entry<D>>, Option<D>)
  {
    if key !in cache then (cache, None)
    else if Live(cache[key].timestamp, now, duration) then (cache, Some(cache[key].data))
    else (cache - {key}, None)
  }

  function Swept<D>(cache: map<string, Entry<D>>, now: int, duration: int): map<string, Entry<D>> {
    map k | k in cache && Live(cache[k].timestamp, now, duration) :: cache[k]
  }

  class ResponseCache<D> {
    const duration: int
    var cache: map<string, Entry<D>>

    constructor (duration: int)
      ensures this.duration == duration && cache == map[]
    {
      this.duration := duration;
      cache := map[];
    }

    method GetFromCache(key: string, now: int) returns (r: Option<D>)
      modifies this
      ensures (cache, r) == Fetch(old(cache), key, now, duration)
    {
      if key in cache {
        var cached := cache[key];
        if now - cached.timestamp < duration {
          return Some(cached.data);
        } else {
          cache := cache - {key};
        }
      }
      r := None;
    }

    method AddToCache(key: string, data: D, stamp: int, sweep: int)
      modifies this
      ensures cache == Swept(old(cache)[key := Entry(data, stamp)], sweep, duration)
    {
      cache := cache[key := Entry(data, stamp)];
      CleanupCache(sweep);
    }

    method CleanupCache(now: int)
      modifies this
      ensures cache == Swept(old(cache), now, duration)
    {
      var expired := set k | k in cache && now - cache[k].timestamp >= duration;
      while expired != {}
        invariant expired <= cache.Keys <= old(cache).Keys
        invariant forall k <- expired :: !Live(old(cache)[k].timestamp, now, duration)
        invariant forall k <- old(cache) :: k in cache <==> k in expired || Live(old(cache)[k].timestamp, now, duration)
        invariant forall k <- cache :: cache[k] == old(cache)[k]
        decreases |expired|
      {
        var key :| key in expired;
        cache := cache - {key};
        expired := expired - {key};
      }
    }

    /** The lookup at the head of `execute_api_request`: a cached value that is falsy counts as a miss. */
    method Serve(key: string, now: int, truthy: D -> bool) returns (served: Option<D>)
      modifies this
      ensures cache == Fetch(old(cache), key, now, duration).0
      ensures served == match Fetch(old(cache), key, now, duration).1
                        case Some(d) => (if truthy(d) then Some(d) else None)
                        case None => None
    {
      served := GetFromCache(key, now);
      if served.Some? && !truthy(served.value) {
        served := None;
      }
    }
  }

  // ----- Runs against an unbounded log -----

  /** Concurrent requests take these steps in any order. */
  datatype Op<D> = Get(key: string, now: int) | Add(key: string, data: D, stamp: int, sweep: int)

  datatype Record<D> = Record(key: string, data: D, time: int)

  function RunCache<D>(ops: seq<Op<D>>, duration: int): map<string, Entry<D>> {
    if ops == [] then map[]
    else
      var before := RunCache(ops[..|ops| - 1], duration);
      match ops[|ops| - 1]
      case Get(k, now) => Fetch(before, k, now, duration).0
      case Add(k, d, stamp, sweep) => Swept(before[k := Entry(d, stamp)], sweep, duration)
  }

  /** The steps carried out on a cache. */
  method RunAll<D>(ops: seq<Op<D>>, duration: int) returns (c: ResponseCache<D>)
    ensures c.duration == duration && c.cache == RunCache(ops, duration)
  {
    c := new ResponseCache(duration);
    for i := 0 to |ops|
      invariant fresh(c) && c.duration == duration && c.cache == RunCache(ops[..i], duration)
    {
      assert ops[..i + 1][..i] == ops[..i];
      match ops[i]
      case Get(key, now) =>
        var _ := c.GetFromCache(key, now);
      case Add(key, data, stamp, sweep) =>
        c.AddToCache(key, data, stamp, sweep);
    }
    assert ops[..|ops|] == ops;
  }

  /** The additions made, oldest first, never forgotten. */
  function Log<D>(ops: seq<Op<D>>): seq<Record<D>> {
    if ops == [] then []
    else
      Log(ops[..|ops| - 1]) +
      match ops[|ops| - 1] case Get(_, _) => [] case Add(k, d, stamp, _) => [Record(k, d, stamp)]
  }

  function LastAdd<D>(log: seq<Record<D>>, key: string): Option<Record<D>> {
    if log == [] then None
    else if log[|log| - 1].key == key then Some(log[|log| - 1])
    else LastAdd(log[..|log| - 1], key)
  }

  /** What a lookup should answer: the latest addition, while it is younger than the duration. */
  function Visible<D>(log: seq<Record<D>>, key: string, now: int, duration: int): Option<D> {
    var a := LastAdd(log, key);
    if a.Some? && Live(a.value.time, now, duration) then Some(a.value.data) else None
  }

  /** The latest addition under the key has been removed: since it was made, its own sweep included, some
      lookup of the key or some sweep took a reading of the clock at which it had expired. */
  predicate Evicted<D>(ops: seq<Op<D>>, key: string, duration: int) {
    ops != [] &&
    var before := ops[..|ops| - 1];
    var gone := Evicted(before, key, duration);
    var a := LastAdd(Log(before), key);
    match ops[|ops| - 1]
    case Get(k, now) => gone || (k == key && a.Some? && !Live(a.value.time, now, duration))
    case Add(k, _, stamp, sweep) =>
      if k == key then !Live(stamp, sweep, duration)
      else gone || (a.Some? && !Live(a.value.time, sweep, duration))
  }

  /** The latest addition after one more step. */
  lemma LastAddAfter<D>(ops: seq<Op<D>>, key: string)
    requires ops != []
    ensures var before := LastAdd(Log(ops[..|ops| - 1]), key);
            LastAdd(Log(ops), key) ==
            match ops[|ops| - 1]
            case Get(_, _) => before
            case Add(k, d, stamp, _) => if k == key then Some(Record(k, d, stamp)) else before
  {
    var before := Log(ops[..|ops| - 1]);
    match ops[|ops| - 1]
    case Get(_, _) =>
      assert Log(ops) == before;
    case Add(k, d, stamp, _) =>
      assert Log(ops) == before + [Record(k, d, stamp)];
      assert Log(ops)[..|before|] == before;
  }

  /** Whatever the clock does, the cache holds exactly the latest additions that have not been removed. */
  lemma {:induction false} CacheHolds<D>(ops: seq<Op<D>>, duration: int, key: string)
    ensures var a, cache := LastAdd(Log(ops), key), RunCache(ops, duration);
            && (key in cache <==> a.Some? && !Evicted(ops, key, duration))
            && (key in cache ==> a == Some(Record(key, cache[key].data, cache[key].timestamp)))
    decreases |ops|
  {
    if ops != [] {
      var before := ops[..|ops| - 1];
      CacheHolds(before, duration, key);
      LastAddAfter(ops, key);
    }
  }

  /** A lookup differs from what the log says exactly when it should answer an addition that was removed. */
  lemma LookupFollowsLogIff<D>(ops: seq<Op<D>>, key: string, now: int, duration: int)
    ensures var visible := Visible(Log(ops), key, now, duration);
            Fetch(RunCache(ops, duration), key, now, duration).1 == visible <==>
            !(visible.Some? && Evicted(ops, key, duration))
  {
    CacheHolds(ops, duration, key);
  }

  // ----- When the clock never runs backwards -----

  /** The first and the last clock reading of a step. */
  function First<D>(o: Op<D>): int {
    match o case Get(_, now) => now case Add(_, _, stamp, _) => stamp
  }

  function Last<D>(o: Op<D>): int {
    match o case Get(_, now) => now case Add(_, _, _, sweep) => sweep
  }

  /** The clock never runs backwards. */
  predicate Monotone<D>(ops: seq<Op<D>>) {
    && (forall i :: 0 <= i < |ops| ==> First(ops[i]) <= Last(ops[i]))
    && forall i :: 0 < i < |ops| ==> Last(ops[i - 1]) <= First(ops[i])
  }

  /** What was removed had expired, and so it stays. */
  lemma {:induction false} EvictedHasExpired<D>(ops: seq<Op<D>>, key: string, duration: int)
    requires Monotone(ops) && ops != []
    ensures var a := LastAdd(Log(ops), key);
            Evicted(ops, key, duration) && a.Some? ==> !Live(a.value.time, Last(ops[|ops| - 1]), duration)
    decreases |ops|
  {
    var n := |ops| - 1;
    var before := ops[..n];
    assert ops == before + [ops[n]];
    MonotonePrefix(before, ops[n]);
    if n > 0 {
      EvictedHasExpired(before, key, duration);
    }
    LastAddAfter(ops, key);
  }

  /** The cache holds the latest additions, except some that had expired by the time `now`. */
  ghost predicate Reflects<D(!new)>(cache: map<string, Entry<D>>, log: seq<Record<D>>, now: int, duration: int) {
    forall k ::
      var a := LastAdd(log, k);
      if k in cache then a == Some(Record(k, cache[k].data, cache[k].timestamp))
      else a.Some? ==> !Live(a.value.time, now, duration)
  }

  lemma CacheReflectsLog<D(!new)>(ops: seq<Op<D>>, duration: int)
    requires Monotone(ops) && ops != []
    ensures Reflects(RunCache(ops, duration), Log(ops), Last(ops[|ops| - 1]), duration)
  {
    forall k: string
      ensures var a, cache := LastAdd(Log(ops), k), RunCache(ops, duration);
              if k in cache then a == Some(Record(k, cache[k].data, cache[k].timestamp))
              else a.Some? ==> !Live(a.value.time, Last(ops[|ops| - 1]), duration)
    {
      CacheHolds(ops, duration, k);
      EvictedHasExpired(ops, k, duration);
    }
  }

  /** A lookup answers what the log says: eviction, lazy or eager, is never observable. */
  lemma LookupsFollowLog<D(!new)>(ops: seq<Op<D>>, key: string, now: int, duration: int)
    requires Monotone(ops + [Get(key, now)])
    ensures Fetch(RunCache(ops, duration), key, now, duration).1 == Visible(Log(ops), key, now, duration)
    ensures forall d: D ::
              Fetch(RunCache(ops, duration), key, now, duration).1 == Some(d) <==>
              exists i :: 0 <= i < |Log(ops)| && IsLatest(Log(ops), i, key) && Log(ops)[i].data == d &&
                          now - Log(ops)[i].time < duration
  {
    LookupFollowsLogIff(ops, key, now, duration);
    LastAddIsLatest(Log(ops), key);
    MonotonePrefix(ops, Get(key, now));
    if ops != [] {
      EvictedHasExpired(ops, key, duration);
    }
  }

  /** The addition at `i` is the latest one under the key. */
  predicate IsLatest<D>(log: seq<Record<D>>, i: nat, key: string)
    requires i < |log|
  {
    log[i].key == key && forall k :: i < k < |log| ==> log[k].key != key
  }

  lemma {:induction false} LastAddIsLatest<D>(log: seq<Record<D>>, key: string)
    ensures LastAdd(log, key).Some? ==> exists i :: 0 <= i < |log| && IsLatest(log, i, key)
    ensures forall i :: 0 <= i < |log| && IsLatest(log, i, key) ==> LastAdd(log, key) == Some(log[i])
    decreases |log|
  {
    if log != [] {
      var n := |log| - 1;
      LastAddIsLatest(log[..n], key);
      if log[n].key == key {
        assert IsLatest(log, n, key);
      } else {
        forall i | 0 <= i < n ensures IsLatest(log, i, key) <==> IsLatest(log[..n], i, key) {
          assert forall k :: i < k < n ==> log[..n][k] == log[k];
        }
      }
    }
  }

  lemma MonotonePrefix<D>(ops: seq<Op<D>>, o: Op<D>)
    requires Monotone(ops + [o])
    ensures Monotone(ops)
    ensures ops != [] ==> Last(ops[|ops| - 1]) <= First(o)
    ensures First(o) <= Last(o)
  {
    var all := ops + [o];
    assert all[|ops|] == o;
    forall i | 0 <= i < |ops| ensures First(ops[i]) <= Last(ops[i]) { assert First(all[i]) <= Last(all[i]); }
    forall i | 0 < i < |ops| ensures Last(ops[i - 1]) <= First(ops[i]) { assert Last(all[i - 1]) <= First(all[i]); }
    if ops != [] {
      assert Last(all[|ops| - 1]) <= First(all[|ops|]);
    }
  }

  /** After an addition's sweep the cache holds exactly the live entries: none expired, none lost. */
  lemma SweepIsExact<D(!new)>(ops: seq<Op<D>>, key: string, data: D, stamp: int, sweep: int, duration: int, k: string)
    requires Monotone(ops + [Add(key, data, stamp, sweep)])
    ensures var all := ops + [Add(key, data, stamp, sweep)];
            k in RunCache(all, duration) <==> Visible(Log(all), k, sweep, duration).Some?
    ensures var log := Log(ops + [Add(key, data, stamp, sweep)]);
            k in RunCache(ops + [Add(key, data, stamp, sweep)], duration) <==>
            exists i :: 0 <= i < |log| && IsLatest(log, i, k) && sweep - log[i].time < duration
  {
    var all := ops + [Add(key, data, stamp, sweep)];
    assert all[..|all| - 1] == ops && all[|all| - 1] == Add(key, data, stamp, sweep);
    CacheReflectsLog(all, duration);
    LastAddIsLatest(Log(all), k);
    var a := LastAdd(Log(all), k);
    if k in RunCache(all, duration) {
      assert a.Some? && Live(RunCache(all, duration)[k].timestamp, sweep, duration);
    }
  }

  /** Whatever is served from the cache was added under its key less than one duration ago. */
  lemma ServedIsFresh<D(!new)>(ops: seq<Op<D>>, key: string, now: int, duration: int)
    requires Monotone(ops + [Get(key, now)])
    ensures var r := Fetch(RunCache(ops, duration), key, now, duration).1;
            r.Some? ==> exists a <- Log(ops) :: a.key == key && a.data == r.value && 0 <= now - a.time < duration
  {
    LookupsFollowLog(ops, key, now, duration);
    MonotonePrefix(ops, Get(key, now));
    LastAddIn(Log(ops), key);
    if Visible(Log(ops), key, now, duration).Some? {
      var a := LastAdd(Log(ops), key).value;
      LogInPast(ops, a);
    }
  }

  lemma {:induction false} LastAddIn<D>(log: seq<Record<D>>, key: string)
    ensures var a := LastAdd(log, key); a.Some? ==> a.value in log && a.value.key == key
    decreases |log|
  {
    if log != [] && log[|log| - 1].key != key {
      LastAddIn(log[..|log| - 1], key);
    }
  }

  lemma {:induction false} LogInPast<D>(ops: seq<Op<D>>, a: Record<D>)
    requires Monotone(ops) && a in Log(ops)
    ensures ops != [] && a.time <= Last(ops[|ops| - 1])
    decreases |ops|
  {
    var n := |ops| - 1;
    assert ops == ops[..n] + [ops[n]];
    MonotonePrefix(ops[..n], ops[n]);
    if a in Log(ops[..n]) {
      LogInPast(ops[..n], a);
    }
  }

  /** With a clock that runs backwards an eviction can be observed. */
  lemma EvictionObservable()
    ensures exists ops: seq<Op<int>>, key, now, duration ::
              Fetch(RunCache(ops, duration), key, now, duration).1 != Visible(Log(ops), key, now, duration)
  {
    var ops: seq<Op<int>> := [Add("k", 7, 0, 0), Get("k", 100)];
    var one: seq<Op<int>> := [Add("k", 7, 0, 0)];
    assert ops[..1] == one && one[..0] == [];
    assert Log(one) == [Record("k", 7, 0)] && Log(ops) == Log(one);
    assert LastAdd(Log(ops), "k") == Some(Record("k", 7, 0));
    assert Evicted(ops, "k", 60) && Visible(Log(ops), "k", 1, 60) == Some(7);
    LookupFollowsLogIff(ops, "k", 1, 60);
  }
}
