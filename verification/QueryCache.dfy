/** The memo table of a query handler under concurrent coroutines.

    A call of `handle` is a coroutine.  Up to its `await` it runs undisturbed: it computes the cache key
    and looks it up.  While the query executes, other coroutines run; then it stores the result and returns.
 */
module QueryCache {
  import opened Wrappers

  /** The methods a concrete handler overrides. */
  datatype Hooks<!Q, !R> = Hooks(key: Q -> Option<string>, cacheable: (Q, R) -> bool)

  /** A key the handler takes notice of: neither `None` nor the empty string. */
  predicate Usable(k: Option<string>) {
    k.Some? && k.value != ""
  }

  // ----- The two undisturbed stretches of `handle` -----

  function LookUp<R>(cache: map<string, R>, k: Option<string>): Option<R> {
    if Usable(k) && k.value in cache then Some(cache[k.value]) else None
  }

  function Memoise<Q, R>(h: Hooks<Q, R>, cache: map<string, R>, q: Q, r: R): map<string, R> {
    if Usable(h.key(q)) && h.cacheable(q, r) then cache[h.key(q).value := r] else cache
  }

  class QueryHandler<Q, R> {
    const hooks: Hooks<Q, R>
    var cache: map<string, R>

    constructor (hooks: Hooks<Q, R>)
      ensures this.hooks == hooks && cache == map[]
    {
      this.hooks := hooks;
      cache := map[];
    }

    /** From the start of `handle` to its return on a hit, or to its `await` on a miss. */
    method BeforeAwait(q: Q) returns (hit: Option<R>)
      ensures hit == LookUp(cache, hooks.key(q))
    {
      var k := hooks.key(q);
      if k.Some? && k.value != "" && k.value in cache {
        return Some(cache[k.value]);
      }
      hit := None;
    }

    /** From the answer of `execute_query` to the return. */
    method AfterAwait(q: Q, result: R) returns (r: R)
      modifies this
      ensures r == result && cache == Memoise(hooks, old(cache), q, result)
    {
      var k := hooks.key(q);
      if k.Some? && k.value != "" && hooks.cacheable(q, result) {
        cache := cache[k.value := result];
      }
      r := result;
    }
  }

  // ----- Interleavings -----

  datatype Coroutine<Q, R> =
    | Ready(query: Q)
    | Executing(query: Q)
    | Returned(query: Q, result: R)
    | Failed(query: Q)

  /** `executed` records what `execute_query` has answered so far, and to which query. */
  datatype System<Q, R> = System(cache: map<string, R>, coroutines: seq<Coroutine<Q, R>>, executed: seq<(Q, R)>)

  datatype Event<Q, R> = Call(q: Q) | Start(i: nat) | Answer(i: nat, r: R) | Fail(i: nat)

  /** One event; an event that is not possible changes nothing. */
  function Next<Q, R>(h: Hooks<Q, R>, s: System<Q, R>, e: Event<Q, R>): System<Q, R> {
    match e
    case Call(q) => s.(coroutines := s.coroutines + [Ready(q)])
    case Start(i) =>
      if i < |s.coroutines| && s.coroutines[i].Ready? then
        var q := s.coroutines[i].query;
        var hit := LookUp(s.cache, h.key(q));
        s.(coroutines := s.coroutines[i := if hit.Some? then Returned(q, hit.value) else Executing(q)])
      else s
    case Answer(i, r) =>
      if i < |s.coroutines| && s.coroutines[i].Executing? then
        var q := s.coroutines[i].query;
        System(Memoise(h, s.cache, q, r), s.coroutines[i := Returned(q, r)], s.executed + [(q, r)])
      else s
    case Fail(i) =>
      if i < |s.coroutines| && s.coroutines[i].Executing? then
        s.(coroutines := s.coroutines[i := Failed(s.coroutines[i].query)])
      else s
  }

  function Run<Q, R>(h: Hooks<Q, R>, events: seq<Event<Q, R>>): System<Q, R> {
    if events == [] then System(map[], [], [])
    else Next(h, Run(h, events[..|events| - 1]), events[|events| - 1])
  }

  /** Two queries share a memo entry. */
  predicate SameEntry<Q, R>(h: Hooks<Q, R>, p: Q, q: Q) {
    Usable(h.key(p)) && h.key(p) == h.key(q)
  }

  /** The answer `r` to a call of `q` came from executing `q` itself or a query with the same key. */
  ghost predicate Produced<Q, R>(h: Hooks<Q, R>, executed: seq<(Q, R)>, q: Q, r: R) {
    exists e <- executed :: e.1 == r && (e.0 == q || (SameEntry(h, e.0, q) && h.cacheable(e.0, r)))
  }

  ghost predicate Sound<Q, R>(h: Hooks<Q, R>, s: System<Q, R>) {
    && (forall k <- s.cache :: k != "" &&
          exists e <- s.executed :: e.1 == s.cache[k] && h.key(e.0) == Some(k) && h.cacheable(e.0, e.1))
    && (forall i :: 0 <= i < |s.coroutines| && s.coroutines[i].Returned? ==>
          Produced(h, s.executed, s.coroutines[i].query, s.coroutines[i].result))
  }

  /** In every interleaving, every answer given was produced by an execution under the same key. */
  lemma {:induction false} AnswersAreProduced<Q, R>(h: Hooks<Q, R>, events: seq<Event<Q, R>>)
    ensures Sound(h, Run(h, events))
    decreases |events|
  {
    if events != [] {
      AnswersAreProduced(h, events[..|events| - 1]);
      StepSound(h, Run(h, events[..|events| - 1]), events[|events| - 1]);
    }
  }

  lemma StepSound<Q, R>(h: Hooks<Q, R>, s: System<Q, R>, e: Event<Q, R>)
    requires Sound(h, s)
    ensures Sound(h, Next(h, s, e))
  {
    var t := Next(h, s, e);
    assert forall x <- s.executed :: x in t.executed;
    match e
    case Call(q) =>
    case Fail(i) =>
    case Start(i) =>
      if t != s {
        var q := s.coroutines[i].query;
        var k := h.key(q);
        if LookUp(s.cache, k).Some? {
          var x :| x in s.executed && x.1 == s.cache[k.value] && h.key(x.0) == Some(k.value) && h.cacheable(x.0, x.1);
          assert SameEntry(h, x.0, q);
        }
      }
    case Answer(i, r) =>
      if i < |s.coroutines| && s.coroutines[i].Executing? {
        var q := s.coroutines[i].query;
        assert (q, r) in t.executed;
        forall j | 0 <= j < |t.coroutines| && t.coroutines[j].Returned?
          ensures Produced(h, t.executed, t.coroutines[j].query, t.coroutines[j].result)
        {
          if j != i {
            assert Produced(h, s.executed, s.coroutines[j].query, s.coroutines[j].result);
          }
        }
      }
  }

  // ----- When caching cannot be observed -----

  /** Executing a query always answers `f` of it. */
  ghost predicate Deterministic<Q, R>(f: Q -> R, executed: seq<(Q, R)>) {
    forall e <- executed :: e.1 == f(e.0)
  }

  /** Every call that returns, returns what executing its own query would. */
  ghost predicate Transparent<Q, R>(f: Q -> R, s: System<Q, R>) {
    forall i :: 0 <= i < |s.coroutines| && s.coroutines[i].Returned? ==>
      s.coroutines[i].result == f(s.coroutines[i].query)
  }

  /** Queries that share a memo entry have the same answer, as far as the answer is ever stored. */
  ghost predicate KeyDecides<Q(!new), R>(h: Hooks<Q, R>, f: Q -> R) {
    forall p, q :: SameEntry(h, p, q) && h.cacheable(p, f(p)) ==> f(p) == f(q)
  }

  ghost predicate CachingUnobservable<Q(!new), R(!new)>(h: Hooks<Q, R>, f: Q -> R) {
    forall events: seq<Event<Q, R>> :: Deterministic(f, Run(h, events).executed) ==> Transparent(f, Run(h, events))
  }

  /** Over all interleavings caching cannot be observed exactly when the key decides the stored answers. */
  lemma UnobservableIffKeyDecides<Q(!new), R(!new)>(h: Hooks<Q, R>, f: Q -> R)
    ensures CachingUnobservable(h, f) <==> KeyDecides(h, f)
  {
    if KeyDecides(h, f) {
      forall events: seq<Event<Q, R>> | Deterministic(f, Run(h, events).executed)
        ensures Transparent(f, Run(h, events))
      {
        AnswersAreProduced(h, events);
        TransparentWhenDecided(h, f, Run(h, events));
      }
    } else {
      var p, q :| SameEntry(h, p, q) && h.cacheable(p, f(p)) && f(p) != f(q);
      var events := Collision(h, f, p, q);
      assert !Transparent(f, Run(h, events));
    }
  }

  lemma TransparentWhenDecided<Q(!new), R>(h: Hooks<Q, R>, f: Q -> R, s: System<Q, R>)
    requires Sound(h, s) && KeyDecides(h, f) && Deterministic(f, s.executed)
    ensures Transparent(f, s)
  {
    forall i | 0 <= i < |s.coroutines| && s.coroutines[i].Returned?
      ensures s.coroutines[i].result == f(s.coroutines[i].query)
    {
      var q, r := s.coroutines[i].query, s.coroutines[i].result;
      assert Produced(h, s.executed, q, r);
      var e :| e in s.executed && e.1 == r && (e.0 == q || (SameEntry(h, e.0, q) && h.cacheable(e.0, r)));
    }
  }

  /** A schedule in which a call of `q` is served the answer to `p`. */
  lemma Collision<Q, R>(h: Hooks<Q, R>, f: Q -> R, p: Q, q: Q) returns (events: seq<Event<Q, R>>)
    requires SameEntry(h, p, q) && h.cacheable(p, f(p))
    ensures Run(h, events).executed == [(p, f(p))]
    ensures |Run(h, events).coroutines| == 2 && Run(h, events).coroutines[1] == Returned(q, f(p))
  {
    var none: seq<Event<Q, R>> := [];
    var e1 := none + [Call(p)];
    var e2 := e1 + [Start(0)];
    var e3 := e2 + [Answer(0, f(p))];
    var e4 := e3 + [Call(q)];
    events := e4 + [Start(1)];
    RunOneMore(h, none, Call(p));
    assert Run(h, e1) == System(map[], [Ready(p)], []);
    RunOneMore(h, e1, Start(0));
    assert Run(h, e2) == System(map[], [Executing(p)], []);
    RunOneMore(h, e2, Answer(0, f(p)));
    assert Run(h, e3) == System(map[h.key(p).value := f(p)], [Returned(p, f(p))], [(p, f(p))]);
    RunOneMore(h, e3, Call(q));
    RunOneMore(h, e4, Start(1));
  }

  lemma RunOneMore<Q, R>(h: Hooks<Q, R>, events: seq<Event<Q, R>>, e: Event<Q, R>)
    ensures Run(h, events + [e]) == Next(h, Run(h, events), e)
  {
    assert (events + [e])[..|events|] == events;
  }
}
