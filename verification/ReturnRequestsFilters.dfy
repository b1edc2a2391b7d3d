/** The filters of the return-requests handler: up to three selection passes, one after the other. */
module ReturnRequestsFilters {
  import opened Wrappers

  /** The `machines` attribute of a request: missing, machines with their names, or a value such as `None`
      that cannot be iterated. */
  datatype Machines = Missing | Named(names: seq<string>) | NotIterable

  datatype Request = Request(id: string, status: string, machines: Machines, createdAt: int)

  /** A time bound is absent when its text does not parse. */
  datatype Range = Range(start: Option<int>, end: Option<int>)

  datatype Filters = Filters(status: Option<string>, machineName: Option<string>, timeRange: Option<Range>)

  predicate HasStatus(s: string, r: Request) { r.status == s }

  predicate HasMachine(m: string, r: Request) { r.machines.Named? && m in r.machines.names }

  /** Looking for a machine raises. */
  predicate Unsearchable(r: Request) { r.machines.NotIterable? }

  predicate InRange(lo: int, hi: int, r: Request) { lo <= r.createdAt <= hi }

  /** `[r for r in rs if keep(r)]` */
  function Select(keep: Request -> bool, rs: seq<Request>): seq<Request> {
    if rs == [] then []
    else
      var n := |rs| - 1;
      if keep(rs[n]) then Select(keep, rs[..n]) + [rs[n]] else Select(keep, rs[..n])
  }

  /** A pass if its filter is present, and no pass otherwise. */
  function Pass(present: bool, keep: Request -> bool, rs: seq<Request>): seq<Request> {
    if present then Select(keep, rs) else rs
  }

  /** The three passes; `None` when a machine search raises or the time range does not parse. */
  function ApplyFilters(rs: seq<Request>, f: Filters): Option<seq<Request>> {
    var r1 := Pass(f.status.Some?, r => HasStatus(f.status.GetOr(""), r), rs);
    if f.machineName.Some? && exists r <- r1 :: Unsearchable(r) then None
    else
      var r2 := Pass(f.machineName.Some?, r => HasMachine(f.machineName.GetOr(""), r), r1);
      if f.timeRange.None? then Some(r2)
      else
        var (start, end) := (f.timeRange.value.start, f.timeRange.value.end);
        if start.None? || end.None? then None else Some(Select(r => InRange(start.value, end.value, r), r2))
  }

  predicate Parses(f: Filters) {
    f.timeRange.Some? ==> f.timeRange.value.start.Some? && f.timeRange.value.end.Some?
  }

  predicate MeetsStatus(f: Filters, r: Request) {
    f.status.Some? ==> HasStatus(f.status.value, r)
  }

  predicate MeetsMachine(f: Filters, r: Request) {
    f.machineName.Some? ==> HasMachine(f.machineName.value, r)
  }

  predicate MeetsRange(f: Filters, r: Request)
    requires Parses(f)
  {
    f.timeRange.Some? ==> InRange(f.timeRange.value.start.value, f.timeRange.value.end.value, r)
  }

  /** All filters present accept the request. */
  predicate Meets(f: Filters, r: Request)
    requires Parses(f)
  {
    MeetsStatus(f, r) && MeetsMachine(f, r) && MeetsRange(f, r)
  }

  /** Machines are searched for only in requests that the status filter leaves, so only these can raise. */
  predicate Searchable(rs: seq<Request>, f: Filters) {
    f.machineName.Some? ==> forall r <- rs :: MeetsStatus(f, r) ==> !Unsearchable(r)
  }

  /** The positions that pass. */
  function Positions(keep: Request -> bool, rs: seq<Request>): (kept: seq<nat>)
    ensures forall i :: 0 <= i < |kept| ==> kept[i] < |rs|
  {
    if rs == [] then []
    else
      var n := |rs| - 1;
      if keep(rs[n]) then Positions(keep, rs[..n]) + [n] else Positions(keep, rs[..n])
  }

  lemma {:induction false} PositionsIncrease(keep: Request -> bool, rs: seq<Request>)
    ensures forall i, j :: 0 <= i < j < |Positions(keep, rs)| ==> Positions(keep, rs)[i] < Positions(keep, rs)[j]
    decreases |rs|
  {
    if rs != [] {
      var n := |rs| - 1;
      var before := Positions(keep, rs[..n]);
      PositionsIncrease(keep, rs[..n]);
      assert forall i :: 0 <= i < |before| ==> before[i] < n;
    }
  }

  lemma {:induction false} PositionsPass(keep: Request -> bool, rs: seq<Request>)
    ensures forall k :: 0 <= k < |rs| ==> (keep(rs[k]) <==> k in Positions(keep, rs))
    decreases |rs|
  {
    if rs != [] {
      var n := |rs| - 1;
      var before := Positions(keep, rs[..n]);
      PositionsPass(keep, rs[..n]);
      forall k | 0 <= k < |rs| ensures keep(rs[k]) <==> k in Positions(keep, rs) {
        if k < n {
          assert rs[..n][k] == rs[k];
        } else {
          assert n !in before;
        }
      }
    }
  }

  lemma {:induction false} SelectAtPositions(keep: Request -> bool, rs: seq<Request>)
    ensures var kept := Positions(keep, rs);
            |Select(keep, rs)| == |kept| && forall i :: 0 <= i < |kept| ==> Select(keep, rs)[i] == rs[kept[i]]
    decreases |rs|
  {
    if rs != [] {
      SelectAtPositions(keep, rs[..|rs| - 1]);
    }
  }

  /** A selection is the subsequence at exactly the positions that pass, in order. */
  lemma {:induction false} SelectIsSubsequence(keep: Request -> bool, rs: seq<Request>)
    ensures var kept := Positions(keep, rs);
            && |Select(keep, rs)| == |kept|
            && (forall i :: 0 <= i < |kept| ==> Select(keep, rs)[i] == rs[kept[i]])
            && (forall i, j :: 0 <= i < j < |kept| ==> kept[i] < kept[j])
            && (forall k :: 0 <= k < |rs| ==> (keep(rs[k]) <==> k in kept))
  {
    SelectAtPositions(keep, rs);
    PositionsIncrease(keep, rs);
    PositionsPass(keep, rs);
  }

  lemma {:induction false} SelectTwice(p: Request -> bool, q: Request -> bool, both: Request -> bool, rs: seq<Request>)
    requires forall r :: both(r) <==> p(r) && q(r)
    ensures Select(q, Select(p, rs)) == Select(both, rs)
    decreases |rs|
  {
    if rs != [] {
      var n := |rs| - 1;
      SelectTwice(p, q, both, rs[..n]);
      var front := Select(p, rs[..n]);
      assert (front + [rs[n]])[..|front|] == front;
    }
  }

  lemma {:induction false} SelectAll(rs: seq<Request>)
    ensures Select(r => true, rs) == rs
    decreases |rs|
  {
    if rs != [] {
      SelectAll(rs[..|rs| - 1]);
    }
  }

  /** Passes may be made in either order. */
  lemma {:induction false} SelectCommutes(p: Request -> bool, q: Request -> bool, rs: seq<Request>)
    ensures Select(q, Select(p, rs)) == Select(p, Select(q, rs))
  {
    SelectTwice(p, q, r => p(r) && q(r), rs);
    SelectTwice(q, p, r => p(r) && q(r), rs);
  }

  lemma {:induction false} SelectSame(p: Request -> bool, q: Request -> bool, rs: seq<Request>)
    requires forall r :: p(r) <==> q(r)
    ensures Select(p, rs) == Select(q, rs)
    decreases |rs|
  {
    if rs != [] {
      SelectSame(p, q, rs[..|rs| - 1]);
    }
  }

  /** A pass that is made only if its filter is present is a selection all the same. */
  lemma PassIsSelect(present: bool, keep: Request -> bool, maybe: Request -> bool, rs: seq<Request>)
    requires forall r :: maybe(r) <==> (present ==> keep(r))
    ensures Pass(present, keep, rs) == Select(maybe, rs)
  {
    if present {
      SelectSame(maybe, keep, rs);
    } else {
      SelectSame(maybe, r => true, rs);
      SelectAll(rs);
    }
  }

  lemma {:induction false} InSelect(keep: Request -> bool, rs: seq<Request>)
    ensures forall r :: r in Select(keep, rs) <==> r in rs && keep(r)
    decreases |rs|
  {
    if rs != [] {
      var n := |rs| - 1;
      InSelect(keep, rs[..n]);
      assert rs == rs[..n] + [rs[n]];
    }
  }

  /** The passes as selections, one after the other. */
  lemma StagesAgree(rs: seq<Request>, f: Filters)
    ensures ApplyFilters(rs, f).Some? <==> Parses(f) && Searchable(rs, f)
    ensures Parses(f) && Searchable(rs, f) ==>
              ApplyFilters(rs, f) ==
              Some(Select(r => Parses(f) && MeetsRange(f, r),
                          Select(r => MeetsMachine(f, r), Select(r => MeetsStatus(f, r), rs))))
  {
    var r1 := Select(r => MeetsStatus(f, r), rs);
    PassIsSelect(f.status.Some?, r => HasStatus(f.status.GetOr(""), r), r => MeetsStatus(f, r), rs);
    InSelect(r => MeetsStatus(f, r), rs);
    var r2 := Select(r => MeetsMachine(f, r), r1);
    PassIsSelect(f.machineName.Some?, r => HasMachine(f.machineName.GetOr(""), r), r => MeetsMachine(f, r), r1);
    if Parses(f) {
      if f.timeRange.Some? {
        var lo, hi := f.timeRange.value.start.value, f.timeRange.value.end.value;
        SelectSame(r => InRange(lo, hi, r), r => Parses(f) && MeetsRange(f, r), r2);
      } else {
        SelectSame(r => true, r => Parses(f) && MeetsRange(f, r), r2);
        SelectAll(r2);
      }
    }
  }

  /** Filtering raises exactly on a time range that does not parse or, when a machine is asked for, on a
      request that the status filter leaves and whose machines cannot be searched.  Otherwise it selects by
      the conjunction of the filters present. */
  lemma FiltersConjoin(rs: seq<Request>, f: Filters)
    ensures ApplyFilters(rs, f).Some? <==> Parses(f) && Searchable(rs, f)
    ensures Parses(f) && Searchable(rs, f) ==>
              ApplyFilters(rs, f) == Some(Select(r => Parses(f) && Meets(f, r), rs))
  {
    StagesAgree(rs, f);
    if Parses(f) {
      SelectTwice(r => MeetsStatus(f, r), r => MeetsMachine(f, r), r => MeetsStatus(f, r) && MeetsMachine(f, r), rs);
      SelectTwice(r => MeetsStatus(f, r) && MeetsMachine(f, r), r => Parses(f) && MeetsRange(f, r),
                  r => Parses(f) && Meets(f, r), rs);
    }
  }

  /** What is kept, in values: the requests of the status, with a machine of the name, created within the
      range; and they are kept in their order. */
  lemma FilteredAre(rs: seq<Request>, f: Filters)
    requires ApplyFilters(rs, f).Some?
    ensures var kept := ApplyFilters(rs, f).value;
            && (forall r :: r in kept <==>
                  && r in rs
                  && (f.status.Some? ==> r.status == f.status.value)
                  && (f.machineName.Some? ==> r.machines.Named? && f.machineName.value in r.machines.names)
                  && (f.timeRange.Some? ==>
                        && f.timeRange.value.start.Some? && f.timeRange.value.end.Some?
                        && f.timeRange.value.start.value <= r.createdAt <= f.timeRange.value.end.value))
            && multiset(kept) <= multiset(rs)
  {
    FiltersConjoin(rs, f);
    InSelect(r => Parses(f) && Meets(f, r), rs);
    SelectIsPart(r => Parses(f) && Meets(f, r), rs);
  }

  lemma {:induction false} SelectIsPart(keep: Request -> bool, rs: seq<Request>)
    ensures multiset(Select(keep, rs)) <= multiset(rs)
    decreases |rs|
  {
    if rs != [] {
      var n := |rs| - 1;
      SelectIsPart(keep, rs[..n]);
      assert rs == rs[..n] + [rs[n]];
    }
  }

  /** When filtering raises: a time range without both its bounds, or a machine asked for while a request of
      the status has machines that cannot be iterated. */
  lemma FilteringRaisesIff(rs: seq<Request>, f: Filters)
    ensures ApplyFilters(rs, f) == None <==>
            || (f.timeRange.Some? && (f.timeRange.value.start.None? || f.timeRange.value.end.None?))
            || (f.machineName.Some? &&
                exists r <- rs :: r.machines == NotIterable && (f.status.Some? ==> r.status == f.status.value))
  {
    FiltersConjoin(rs, f);
  }

  /** Filtering the result again changes nothing. */
  lemma FilteringIdempotent(rs: seq<Request>, f: Filters)
    requires ApplyFilters(rs, f).Some?
    ensures ApplyFilters(ApplyFilters(rs, f).value, f) == ApplyFilters(rs, f)
  {
    FiltersConjoin(rs, f);
    var keep := r => Parses(f) && Meets(f, r);
    InSelect(keep, rs);
    FiltersConjoin(Select(keep, rs), f);
    SelectTwice(keep, keep, keep, rs);
  }
}
