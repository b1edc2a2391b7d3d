/** Health checks: a table of checks, a bounded history of each, and an aggregate check that runs the others. */
module Health {
  import opened Wrappers

  datatype Level = Healthy | Degraded | Unhealthy | Unknown | Other(text: string)

  /** A health status; `counts` are the details of an aggregate. */
  datatype Report = Report(name: string, level: Level, counts: Option<Counts>)

  datatype Counts = Counts(healthy: nat, degraded: nat, unhealthy: nat, unknown: nat) {
    function Total(): nat { healthy + degraded + unhealthy + unknown }
  }

  /** What calling a check function does. */
  datatype Attempt = Raised | Ran(report: Report)

  datatype Check = Probe(id: string) | Aggregate

  const APPLICATION := "application"
  const LIMIT := 100

  function Recent(rs: seq<Report>): seq<Report> {
    if |rs| > LIMIT then rs[|rs| - LIMIT..] else rs
  }

  lemma RecentOneMore(rs: seq<Report>, r: Report)
    ensures var h := Recent(rs) + [r]; Recent(rs + [r]) == if |h| > LIMIT then h[1..] else h
  {
  }

  // ----- The verdict of an aggregate -----

  function Count(rs: seq<Report>, level: Level): nat {
    if rs == [] then 0 else Count(rs[..|rs| - 1], level) + if rs[|rs| - 1].level == level then 1 else 0
  }

  lemma {:induction false} CountPositive(rs: seq<Report>, level: Level)
    ensures Count(rs, level) > 0 <==> exists i :: 0 <= i < |rs| && rs[i].level == level
    decreases |rs|
  {
    if rs != [] {
      var n := |rs| - 1;
      CountPositive(rs[..n], level);
      assert forall i :: 0 <= i < n ==> rs[..n][i] == rs[i];
    }
  }

  predicate AllKnown(rs: seq<Report>) {
    forall i :: 0 <= i < |rs| ==> !rs[i].level.Other?
  }

  /** The levels an aggregate counts. */
  predicate IsListed(l: Level) {
    l == Healthy || l == Degraded || l == Unhealthy || l == Unknown
  }

  /** How bad a level is; an unknown one is ignored. */
  function Severity(l: Level): nat {
    match l
    case Unhealthy => 2
    case Degraded => 1
    case _ => 0
  }

  function Tally(rs: seq<Report>): Counts {
    Counts(Count(rs, Healthy), Count(rs, Degraded), Count(rs, Unhealthy), Count(rs, Unknown))
  }

  /** One of the reports has this level. */
  predicate Reports(rs: seq<Report>, level: Level) {
    exists i :: 0 <= i < |rs| && rs[i].level == level
  }

  /** Where they stand. */
  ghost function Places(rs: seq<Report>, level: Level): set<int> {
    set i | 0 <= i < |rs| && rs[i].level == level
  }

  lemma PlacesOneMore(rs: seq<Report>, level: Level)
    requires rs != []
    ensures var n := |rs| - 1;
            && n !in Places(rs[..n], level)
            && Places(rs, level) == Places(rs[..n], level) + if rs[n].level == level then {n} else {}
  {
    var n := |rs| - 1;
    assert forall i :: 0 <= i < n ==> rs[..n][i] == rs[i];
  }

  /** How many of them have it. */
  ghost function HowMany(rs: seq<Report>, level: Level): nat {
    |Places(rs, level)|
  }

  ghost function Counted(rs: seq<Report>): Counts {
    Counts(HowMany(rs, Healthy), HowMany(rs, Degraded), HowMany(rs, Unhealthy), HowMany(rs, Unknown))
  }

  lemma {:induction false} CountIsHowMany(rs: seq<Report>, level: Level)
    ensures Count(rs, level) == HowMany(rs, level)
    decreases |rs|
  {
    if rs != [] {
      var n := |rs| - 1;
      CountIsHowMany(rs[..n], level);
      PlacesOneMore(rs, level);
    } else {
      assert Places(rs, level) == {};
    }
  }

  lemma TallyIsHowMany(rs: seq<Report>)
    ensures Tally(rs) == Counted(rs)
  {
    CountIsHowMany(rs, Healthy);
    CountIsHowMany(rs, Degraded);
    CountIsHowMany(rs, Unhealthy);
    CountIsHowMany(rs, Unknown);
  }

  /** The verdict on the reports of the other checks: the worst level among them. */
  ghost predicate IsVerdict(v: Report, rs: seq<Report>) {
    v.name == "application" && (v.counts.Some? <==> forall i :: 0 <= i < |rs| ==> IsListed(rs[i].level)) &&
    if AllKnown(rs) then
      && v.level in {Healthy, Degraded, Unhealthy}
      && (forall i :: 0 <= i < |rs| ==> Severity(rs[i].level) <= Severity(v.level))
      && (v.level != Healthy ==> exists i :: 0 <= i < |rs| && rs[i].level == v.level)
      && (v.level == Unhealthy <==> Reports(rs, Unhealthy))
      && (v.level == Degraded <==> Reports(rs, Degraded) && !Reports(rs, Unhealthy))
      && v.counts == Some(Tally(rs))
      && v.counts == Some(Counted(rs))
      && v.counts.value.Total() == |rs|
    else
      v.level == Unhealthy && v.counts == None
  }

  function Increment(c: Counts, level: Level): Counts {
    match level
    case Healthy => c.(healthy := c.healthy + 1)
    case Degraded => c.(degraded := c.degraded + 1)
    case Unhealthy => c.(unhealthy := c.unhealthy + 1)
    case Unknown => c.(unknown := c.unknown + 1)
    case Other(_) => c
  }

  lemma TallyOneMore(rs: seq<Report>, i: nat)
    requires i < |rs| && !rs[i].level.Other?
    ensures Tally(rs[..i + 1]) == Increment(Tally(rs[..i]), rs[i].level)
  {
    assert rs[..i + 1][..i] == rs[..i];
  }

  lemma {:induction false} TallyTotal(rs: seq<Report>, i: nat)
    requires AllKnown(rs) && i <= |rs|
    ensures Tally(rs[..i]).Total() == i
  {
    if i > 0 {
      TallyTotal(rs, i - 1);
      TallyOneMore(rs, i - 1);
    }
  }

  /** Count the levels; an unlisted one is a key error. */
  method CountLevels(rs: seq<Report>) returns (c: Option<Counts>)
    ensures c == if AllKnown(rs) then Some(Tally(rs)) else None
  {
    var counts := Counts(0, 0, 0, 0);
    for i := 0 to |rs|
      invariant forall k :: 0 <= k < i ==> !rs[k].level.Other?
      invariant counts == Tally(rs[..i])
    {
      if rs[i].level.Other? {
        return None;
      }
      TallyOneMore(rs, i);
      counts := Increment(counts, rs[i].level);
    }
    assert rs[..|rs|] == rs;
    c := Some(counts);
  }

  /** The aggregation step of the application check. */
  method Judge(rs: seq<Report>) returns (v: Report)
    ensures IsVerdict(v, rs)
  {
    var c := CountLevels(rs);
    if c.None? {
      return Report(APPLICATION, Unhealthy, None);
    }
    v := Report(APPLICATION, LevelOf(c.value), c);
    WorstLevel(rs);
    TallyTotal(rs, |rs|);
    TallyIsHowMany(rs);
    assert rs[..|rs|] == rs;
  }

  /** The level of an aggregate, from its counts. */
  function LevelOf(c: Counts): Level {
    if c.unhealthy > 0 then Unhealthy else if c.degraded > 0 then Degraded else Healthy
  }

  lemma WorstLevel(rs: seq<Report>)
    ensures var level := LevelOf(Tally(rs));
            && (level == Unhealthy <==> Reports(rs, Unhealthy))
            && (level == Degraded <==> Reports(rs, Degraded) && !Reports(rs, Unhealthy))
            && (forall i :: 0 <= i < |rs| ==> Severity(rs[i].level) <= Severity(level))
  {
    CountPositive(rs, Unhealthy);
    CountPositive(rs, Degraded);
  }

  // ----- What has happened -----

  /** What the `t`th call of any probe does. */
  type World = (string, nat) -> Attempt

  type Log = map<string, seq<Report>>

  /** The past of the checks: the reports of all runs of a check since it was registered, except of those
      that raised; which check each call of a probe ran; and at which call a check was registered. */
  datatype Past = Past(checks: map<string, Check>, log: Log, trace: seq<string>, since: map<string, nat>)

  /** What a run of a check reports: its own report, or that it raised. */
  function Reported(name: string, a: Attempt): Report {
    if a.Ran? then a.report else Report(name, Unhealthy, None)
  }

  function AttemptOf(n: string, t: nat, checks: map<string, Check>, world: World): Attempt {
    if n in checks && checks[n].Probe? then world(checks[n].id, t) else Raised
  }

  function ReportOf(n: string, t: nat, checks: map<string, Check>, world: World): Report {
    Reported(n, AttemptOf(n, t, checks, world))
  }

  function Registered(p: Past, n: string, c: Check): Past {
    Past(p.checks[n := c], p.log[n := []], p.trace, p.since[n := |p.trace|])
  }

  /** A report is entered in the history of a check. */
  function Entered(p: Past, n: string, r: Report): Past {
    p.(log := p.log[n := (if n in p.log then p.log[n] else []) + [r]])
  }

  /** A probe is called. */
  function Called(p: Past, n: string, world: World): Past {
    var a := AttemptOf(n, |p.trace|, p.checks, world);
    (if a.Ran? then Entered(p, n, a.report) else p).(trace := p.trace + [n])
  }

  function CalledAll(p: Past, names: seq<string>, world: World): Past {
    if names == [] then p
    else
      var m := |names| - 1;
      Called(CalledAll(p, names[..m], world), names[m], world)
  }

  /** The reports of running the named probes one after the other, from call `start` on. */
  function RunReports(names: seq<string>, start: nat, checks: map<string, Check>, world: World): (rs: seq<Report>)
    ensures |rs| == |names|
    ensures forall i :: 0 <= i < |names| ==> rs[i] == ReportOf(names[i], start + i, checks, world)
  {
    seq(|names|, i requires 0 <= i < |names| => ReportOf(names[i], start + i, checks, world))
  }

  /** The reports of the calls from `from` on that ran the check `n` and did not raise; `id` is its probe. */
  function Kept(n: string, id: string, trace: seq<string>, from: nat, world: World): seq<Report> {
    if |trace| <= from then []
    else
      var t := |trace| - 1;
      var a := world(id, t);
      Kept(n, id, trace[..t], from, world) + if trace[t] == n && a.Ran? then [a.report] else []
  }

  predicate LogIsKept(n: string, p: Past, world: World) {
    n in p.checks && p.checks[n].Probe? ==>
      && n in p.log && n in p.since && p.since[n] <= |p.trace|
      && p.log[n] == Kept(n, p.checks[n].id, p.trace, p.since[n], world)
  }

  /** The log of a probe holds the reports of its calls since its registration that did not raise, in order,
      no more and no fewer. */
  ghost predicate Real(p: Past, world: World) {
    p.log.Keys == p.checks.Keys && forall n :: LogIsKept(n, p, world)
  }

  lemma KeptOneMore(n: string, id: string, trace: seq<string>, from: nat, world: World, m: string)
    requires from <= |trace|
    ensures var a := world(id, |trace|);
            Kept(n, id, trace + [m], from, world) ==
            Kept(n, id, trace, from, world) + if m == n && a.Ran? then [a.report] else []
  {
    assert (trace + [m])[..|trace|] == trace;
  }

  lemma RealAfterCall(p: Past, m: string, world: World)
    requires Real(p, world) && m in p.checks && p.checks[m].Probe?
    ensures Real(Called(p, m, world), world)
  {
    forall n ensures LogIsKept(n, Called(p, m, world), world) {
      assert LogIsKept(n, p, world);
      if n in p.checks && p.checks[n].Probe? {
        KeptOneMore(n, p.checks[n].id, p.trace, p.since[n], world, m);
      }
    }
  }

  lemma RealAfterRegistration(p: Past, m: string, c: Check, world: World)
    requires Real(p, world)
    ensures Real(Registered(p, m, c), world)
  {
    forall n ensures LogIsKept(n, Registered(p, m, c), world) {
      assert LogIsKept(n, p, world);
    }
  }

  /** The entries of the aggregate are no probe's. */
  lemma RealAfterVerdict(p: Past, m: string, v: Report, world: World)
    requires Real(p, world) && m in p.checks && p.checks[m].Aggregate?
    ensures Real(Entered(p, m, v), world)
  {
    forall n ensures LogIsKept(n, Entered(p, m, v), world) {
      assert LogIsKept(n, p, world);
    }
  }

  /** The histories that go with a past: the end of every log. */
  function Histories(p: Past): Log {
    map n | n in p.log :: Recent(p.log[n])
  }

  // ----- Rounds of checks -----

  predicate NoRepeats(names: seq<string>) {
    names == [] || (names[|names| - 1] !in names[..|names| - 1] && NoRepeats(names[..|names| - 1]))
  }

  /** The names of all checks but the application check, each once. */
  ghost predicate ListsOthers(names: seq<string>, checks: map<string, Check>) {
    NoRepeats(names) && forall n :: n in names <==> n in checks && n != APPLICATION
  }

  /** The aggregate stands under its own name only: under another it would run itself without end. */
  predicate OnlyApplication(checks: map<string, Check>) {
    forall n <- checks :: checks[n].Aggregate? ==> n == APPLICATION
  }

  predicate Aggregates(checks: map<string, Check>) {
    APPLICATION in checks && checks[APPLICATION].Aggregate?
  }

  /** One run of a check: the probes called, its own or for the aggregate every other one, and the report. */
  datatype Round = Round(name: string, turn: seq<string>, report: Report)

  ghost predicate IsRound(p: Past, d: Round, world: World) {
    d.name in p.checks &&
    match p.checks[d.name]
    case Probe(_) => d.turn == [d.name] && d.report == ReportOf(d.name, |p.trace|, p.checks, world)
    case Aggregate =>
      ListsOthers(d.turn, p.checks) && IsVerdict(d.report, RunReports(d.turn, |p.trace|, p.checks, world))
  }

  /** What has happened after a round. */
  function After(p: Past, d: Round, world: World): Past
    requires d.name in p.checks
  {
    if p.checks[d.name].Probe? then Called(p, d.name, world)
    else Entered(CalledAll(p, d.turn, world), d.name, d.report)
  }

  /** The given rounds lead from one past to another. */
  ghost predicate Lead(p: Past, ds: seq<Round>, q: Past, world: World)
    decreases |ds|
  {
    if ds == [] then p == q
    else
      var d, m := ds[|ds| - 1], |ds| - 1;
      exists mid :: Lead(p, ds[..m], mid, world) && IsRound(mid, d, world) && q == After(mid, d, world)
  }

  function ResultsOf(ds: seq<Round>): map<string, Report> {
    if ds == [] then map[]
    else
      var d := ds[|ds| - 1];
      ResultsOf(ds[..|ds| - 1])[d.name := d.report]
  }

  function TurnsOf(ds: seq<Round>): seq<string> {
    if ds == [] then [] else TurnsOf(ds[..|ds| - 1]) + ds[|ds| - 1].turn
  }

  lemma LeadOneMore(p: Past, ds: seq<Round>, mid: Past, d: Round, world: World)
    requires Lead(p, ds, mid, world) && IsRound(mid, d, world)
    ensures Lead(p, ds + [d], After(mid, d, world), world)
  {
    assert (ds + [d])[..|ds|] == ds;
  }

  // ----- What a round adds -----

  /** `n`'s log grew by at most `k` entries, by exactly `k` if no run raised. */
  ghost predicate Grew(before: Log, after: Log, n: string, k: nat, quiet: bool) {
    && n in before && n in after
    && before[n] <= after[n]
    && |after[n]| <= |before[n]| + k
    && (quiet ==> |after[n]| == |before[n]| + k)
  }

  lemma GrewTwice(before: Log, mid: Log, after: Log, n: string, k: nat, l: nat, quiet: bool)
    requires Grew(before, mid, n, k, quiet) && Grew(mid, after, n, l, quiet)
    ensures Grew(before, after, n, k + l, quiet)
  {
  }

  /** A check whose own runs never raise; the aggregate's never do. */
  ghost predicate NeverRaises(c: Check, world: World) {
    c.Probe? ==> forall t :: world(c.id, t).Ran?
  }

  lemma CallGrew(p: Past, m: string, n: string, world: World)
    requires n in p.checks && n in p.log && m in p.checks && p.checks[m].Probe?
    ensures Grew(p.log, Called(p, m, world).log, n, if n == m then 1 else 0, NeverRaises(p.checks[n], world))
  {
  }

  /** Calling probes once each. */
  lemma {:induction false} CallsGrew(p: Past, names: seq<string>, n: string, world: World)
    requires Real(p, world) && NoRepeats(names) && n in p.checks
    requires forall m <- names :: m in p.checks && p.checks[m].Probe?
    ensures var q := CalledAll(p, names, world);
            && q.checks == p.checks && q.since == p.since && q.trace == p.trace + names && Real(q, world)
            && Grew(p.log, q.log, n, if n in names then 1 else 0, NeverRaises(p.checks[n], world))
    decreases |names|
  {
    if names != [] {
      var m := |names| - 1;
      var mid := CalledAll(p, names[..m], world);
      CallsGrew(p, names[..m], n, world);
      RealAfterCall(mid, names[m], world);
      CallGrew(mid, names[m], n, world);
      GrewTwice(p.log, mid.log, Called(mid, names[m], world).log, n, if n in names[..m] then 1 else 0,
                if n == names[m] then 1 else 0, NeverRaises(p.checks[n], world));
      assert names == names[..m] + [names[m]];
    }
  }

  /** How many runs of `n` one run of `name` makes. */
  function Share(name: string, n: string, checks: map<string, Check>): nat
    requires name in checks
  {
    if n == name || checks[name].Aggregate? then 1 else 0
  }

  /** Each check's log grew by what one run of `name` makes it grow. */
  ghost predicate GrewAlong(before: Log, log: Log, name: string, checks: map<string, Check>, world: World)
    requires name in checks
  {
    forall n <- checks :: Grew(before, log, n, Share(name, n, checks), NeverRaises(checks[n], world))
  }

  /** The verdict on running every other check once, in calls from `start` up to `end`. */
  ghost predicate IsVerdictOfRuns(v: Report, start: nat, end: nat, checks: map<string, Check>, world: World) {
    exists names ::
      ListsOthers(names, checks) && start + |names| <= end && IsVerdict(v, RunReports(names, start, checks, world))
  }

  /** A report of a check that was run in calls from `start` up to `end`. */
  ghost predicate Answers(n: string, r: Report, start: nat, end: nat, checks: map<string, Check>, world: World)
    requires n in checks
  {
    match checks[n]
    case Probe(_) => exists t :: start <= t < end && r == ReportOf(n, t, checks, world)
    case Aggregate => exists t :: start <= t <= end && IsVerdictOfRuns(r, t, end, checks, world)
  }

  lemma AnswersWithin(n: string, r: Report, start: nat, end: nat, start': nat, end': nat,
                      checks: map<string, Check>, world: World)
    requires n in checks && Answers(n, r, start, end, checks, world) && start' <= start && end <= end'
    ensures Answers(n, r, start', end', checks, world)
  {
    if checks[n].Aggregate? {
      var t :| start <= t <= end && IsVerdictOfRuns(r, t, end, checks, world);
      assert IsVerdictOfRuns(r, t, end', checks, world);
    }
  }

  /** Everything that a round adds. */
  ghost predicate RoundAdded(p: Past, q: Past, d: Round, world: World)
    requires d.name in p.checks
  {
    && q.checks == p.checks && q.since == p.since && q.trace == p.trace + d.turn && Real(q, world)
    && GrewAlong(p.log, q.log, d.name, p.checks, world)
    && Answers(d.name, d.report, |p.trace|, |q.trace|, p.checks, world)
    && d.name in p.log && d.name in q.log
    && (q.log[d.name] == p.log[d.name] || q.log[d.name] == p.log[d.name] + [d.report])
  }

  lemma ProbeRound(p: Past, d: Round, world: World)
    requires Real(p, world) && IsRound(p, d, world) && p.checks[d.name].Probe?
    ensures RoundAdded(p, After(p, d, world), d, world)
  {
    RealAfterCall(p, d.name, world);
    forall n | n in p.checks
      ensures Grew(p.log, After(p, d, world).log, n, Share(d.name, n, p.checks), NeverRaises(p.checks[n], world))
    {
      CallGrew(p, d.name, n, world);
    }
  }

  /** A log after the nested runs and the verdict. */
  lemma NestedGrew(p: Past, names: seq<string>, v: Report, n: string, world: World)
    requires Real(p, world) && Aggregates(p.checks) && ListsOthers(names, p.checks) && n in p.checks
    requires OnlyApplication(p.checks)
    ensures var q := Entered(CalledAll(p, names, world), APPLICATION, v);
            && Grew(p.log, q.log, n, 1, NeverRaises(p.checks[n], world))
            && (n == APPLICATION ==> q.log[n] == p.log[n] + [v])
  {
    CallsGrew(p, names, n, world);
    var mid := CalledAll(p, names, world);
    if n == APPLICATION {
      assert Grew(p.log, mid.log, n, 0, NeverRaises(p.checks[n], world));
      assert mid.log[n] == p.log[n];
    }
  }

  /** The past after the nested runs and the verdict. */
  lemma NestedReal(p: Past, names: seq<string>, v: Report, world: World)
    requires Real(p, world) && Aggregates(p.checks) && ListsOthers(names, p.checks) && OnlyApplication(p.checks)
    ensures var q := Entered(CalledAll(p, names, world), APPLICATION, v);
            q.checks == p.checks && q.since == p.since && q.trace == p.trace + names && Real(q, world)
  {
    CallsGrew(p, names, APPLICATION, world);
    RealAfterVerdict(CalledAll(p, names, world), APPLICATION, v, world);
  }

  /** A round of the application check adds the reports of all others and its own verdict. */
  lemma ApplicationRound(p: Past, d: Round, world: World)
    requires Real(p, world) && IsRound(p, d, world) && Aggregates(p.checks) && d.name == APPLICATION
    requires OnlyApplication(p.checks)
    ensures RoundAdded(p, After(p, d, world), d, world)
    ensures After(p, d, world).log[APPLICATION] == p.log[APPLICATION] + [d.report]
  {
    NestedReal(p, d.turn, d.report, world);
    forall n | n in p.checks
      ensures Grew(p.log, After(p, d, world).log, n, Share(d.name, n, p.checks), NeverRaises(p.checks[n], world))
    {
      NestedGrew(p, d.turn, d.report, n, world);
    }
    NestedGrew(p, d.turn, d.report, APPLICATION, world);
    VerdictShown(d, |p.trace|, |After(p, d, world).trace|, p.checks, world);
  }

  lemma VerdictShown(d: Round, start: nat, end: nat, checks: map<string, Check>, world: World)
    requires Aggregates(checks) && d.name == APPLICATION && start + |d.turn| == end
    requires ListsOthers(d.turn, checks) && IsVerdict(d.report, RunReports(d.turn, start, checks, world))
    ensures Answers(d.name, d.report, start, end, checks, world)
  {
    assert IsVerdictOfRuns(d.report, start, end, checks, world);
  }

  // ----- What all rounds add -----

  /** How many runs of `n` are done once the checks in `done` have had their round. */
  function Due(n: string, done: map<string, Report>, checks: map<string, Check>): nat {
    (if n in done then 1 else 0) + if n != APPLICATION && APPLICATION in done && Aggregates(checks) then 1 else 0
  }

  /** Each result is the report of a run of its check. */
  ghost predicate AllAnswered(results: map<string, Report>, start: nat, t: nat,
                              checks: map<string, Check>, world: World) {
    forall n <- results :: n in checks && Answers(n, results[n], start, t, checks, world)
  }

  /** Each check's log grew by what the checks in `results` make it grow. */
  ghost predicate GrewByDue(before: Log, log: Log, results: map<string, Report>,
                            checks: map<string, Check>, world: World) {
    forall n <- checks :: Grew(before, log, n, Due(n, results, checks), NeverRaises(checks[n], world))
  }

  /** How often `n` has been called once the checks in `done` have had their round. */
  function CallsDue(n: string, done: map<string, Report>, checks: map<string, Check>): nat
    requires n in checks
  {
    if checks[n].Probe? then Due(n, done, checks) else 0
  }

  ghost predicate CalledByDue(turns: seq<string>, done: map<string, Report>, checks: map<string, Check>) {
    forall n <- checks :: multiset(turns)[n] == CallsDue(n, done, checks)
  }

  /** The application check enters its result, once it has one. */
  ghost predicate VerdictEntered(before: Log, log: Log, done: map<string, Report>) {
    && APPLICATION in before && APPLICATION in log
    && log[APPLICATION] == before[APPLICATION] + if APPLICATION in done then [done[APPLICATION]] else []
  }

  lemma AnsweredOneMore(results: map<string, Report>, start: nat, from: nat, t: nat, checks: map<string, Check>,
                        world: World, n: string, r: Report)
    requires AllAnswered(results, start, from, checks, world) && start <= from <= t
    requires n in checks && Answers(n, r, from, t, checks, world)
    ensures AllAnswered(results[n := r], start, t, checks, world)
  {
    AnswersWithin(n, r, from, t, start, t, checks, world);
    forall k | k in results ensures k in checks && Answers(k, results[k], start, t, checks, world) {
      AnswersWithin(k, results[k], start, from, start, t, checks, world);
    }
  }

  lemma DueOneMore(n: string, k: string, results: map<string, Report>, r: Report, checks: map<string, Check>)
    requires n in checks && n !in results && (checks[n].Aggregate? ==> n == APPLICATION)
    ensures Due(k, results[n := r], checks) == Due(k, results, checks) + Share(n, k, checks)
  {
  }

  lemma GrewOneMoreDue(before: Log, mid: Log, log: Log, results: map<string, Report>, checks: map<string, Check>,
                       world: World, n: string, r: Report)
    requires GrewByDue(before, mid, results, checks, world) && n in checks && n !in results
    requires (checks[n].Aggregate? ==> n == APPLICATION) && GrewAlong(mid, log, n, checks, world)
    ensures GrewByDue(before, log, results[n := r], checks, world)
  {
    forall k | k in checks
      ensures Grew(before, log, k, Due(k, results[n := r], checks), NeverRaises(checks[k], world))
    {
      DueOneMore(n, k, results, r, checks);
      GrewTwice(before, mid, log, k, Due(k, results, checks), Share(n, k, checks), NeverRaises(checks[k], world));
    }
  }

  lemma {:induction false} NoRepeatsCount(names: seq<string>, n: string)
    requires NoRepeats(names)
    ensures multiset(names)[n] == if n in names then 1 else 0
    decreases |names|
  {
    if names != [] {
      var m := |names| - 1;
      NoRepeatsCount(names[..m], n);
      assert names == names[..m] + [names[m]];
    }
  }

  lemma TurnCount(d: Round, n: string, checks: map<string, Check>)
    requires d.name in checks && n in checks && OnlyApplication(checks)
    requires if checks[d.name].Probe? then d.turn == [d.name] else ListsOthers(d.turn, checks)
    ensures multiset(d.turn)[n] == if checks[n].Probe? then Share(d.name, n, checks) else 0
  {
    if checks[d.name].Aggregate? {
      NoRepeatsCount(d.turn, n);
    }
  }

  lemma CalledOneMore(turns: seq<string>, d: Round, done: map<string, Report>, checks: map<string, Check>)
    requires CalledByDue(turns, done, checks) && d.name in checks && d.name !in done && OnlyApplication(checks)
    requires if checks[d.name].Probe? then d.turn == [d.name] else ListsOthers(d.turn, checks)
    ensures CalledByDue(turns + d.turn, done[d.name := d.report], checks)
  {
    forall n | n in checks ensures multiset(turns + d.turn)[n] == CallsDue(n, done[d.name := d.report], checks) {
      TurnCount(d, n, checks);
      DueOneMore(d.name, n, done, d.report, checks);
    }
  }

  /** Everything that rounds of different checks add. */
  ghost predicate Added(p: Past, q: Past, ds: seq<Round>, world: World) {
    var results := ResultsOf(ds);
    && q.checks == p.checks && q.since == p.since && q.trace == p.trace + TurnsOf(ds) && Real(q, world)
    && AllAnswered(results, |p.trace|, |q.trace|, p.checks, world)
    && GrewByDue(p.log, q.log, results, p.checks, world)
    && CalledByDue(TurnsOf(ds), results, p.checks)
    && (Aggregates(p.checks) ==> VerdictEntered(p.log, q.log, results))
  }

  lemma RoundsStart(p: Past, world: World)
    requires Real(p, world)
    ensures Added(p, p, [], world)
  {
  }

  lemma VerdictOneMore(before: Log, mid: Past, q: Past, done: map<string, Report>, d: Round, world: World)
    requires d.name in mid.checks && RoundAdded(mid, q, d, world) && d.name !in done
    requires Aggregates(mid.checks) && VerdictEntered(before, mid.log, done)
    requires d.name == APPLICATION || mid.checks[d.name].Probe?
    ensures VerdictEntered(before, q.log, done[d.name := d.report])
  {
    var k := Share(d.name, APPLICATION, mid.checks);
    assert Grew(mid.log, q.log, APPLICATION, k, NeverRaises(mid.checks[APPLICATION], world));
    if d.name != APPLICATION {
      assert q.log[APPLICATION] == mid.log[APPLICATION];
    }
  }

  lemma RoundAdds(p: Past, mid: Past, ds: seq<Round>, d: Round, world: World)
    requires Added(p, mid, ds, world) && IsRound(mid, d, world) && d.name !in ResultsOf(ds) && OnlyApplication(p.checks)
    ensures Added(p, After(mid, d, world), ds + [d], world)
  {
    if mid.checks[d.name].Probe? {
      ProbeRound(mid, d, world);
    } else {
      ApplicationRound(mid, d, world);
    }
    AddedOneMore(p, mid, After(mid, d, world), ds, d, world);
  }

  lemma AddedOneMore(p: Past, mid: Past, q: Past, ds: seq<Round>, d: Round, world: World)
    requires Added(p, mid, ds, world) && d.name in p.checks && d.name !in ResultsOf(ds) && OnlyApplication(p.checks)
    requires RoundAdded(mid, q, d, world)
    requires if p.checks[d.name].Probe? then d.turn == [d.name] else ListsOthers(d.turn, p.checks)
    ensures Added(p, q, ds + [d], world)
  {
    var results, checks := ResultsOf(ds), p.checks;
    LastRound(ds, d);
    Regroup(p.trace, TurnsOf(ds), d.turn);
    AnsweredOneMore(results, |p.trace|, |mid.trace|, |q.trace|, checks, world, d.name, d.report);
    GrewOneMoreDue(p.log, mid.log, q.log, results, checks, world, d.name, d.report);
    CalledOneMore(TurnsOf(ds), d, results, checks);
    if Aggregates(checks) {
      VerdictOneMore(p.log, mid, q, results, d, world);
    }
  }

  lemma LastRound(ds: seq<Round>, d: Round)
    ensures ResultsOf(ds + [d]) == ResultsOf(ds)[d.name := d.report] && TurnsOf(ds + [d]) == TurnsOf(ds) + d.turn
  {
    assert (ds + [d])[..|ds|] == ds;
  }

  lemma Regroup(a: seq<string>, b: seq<string>, c: seq<string>)
    ensures (a + b) + c == a + (b + c)
  {
  }

  /** Where running everything stands. */
  ghost predicate AllPartway(p: Past, q: Past, ds: seq<Round>, todo: set<string>, results: map<string, Report>,
                             world: World) {
    && OnlyApplication(p.checks) && results == ResultsOf(ds) && IsRest(todo, results, p.checks)
    && Lead(p, ds, q, world) && Added(p, q, ds, world)
  }

  ghost predicate IsRest(todo: set<string>, results: map<string, Report>, checks: map<string, Check>) {
    (forall n :: n in todo <==> n in checks && n !in results) && forall n <- results :: n in checks
  }

  lemma Fewer(todo: set<string>, n: string)
    requires n in todo
    ensures |todo - {n}| < |todo|
  {
  }

  lemma RestOneMore(todo: set<string>, results: map<string, Report>, checks: map<string, Check>, n: string, r: Report)
    requires IsRest(todo, results, checks) && n in todo
    ensures IsRest(todo - {n}, results[n := r], checks)
  {
  }

  lemma AllPartwayStep(p: Past, mid: Past, q: Past, ds: seq<Round>, todo: set<string>, results: map<string, Report>,
                       world: World, d: Round)
    requires AllPartway(p, mid, ds, todo, results, world) && d.name in todo && IsRound(mid, d, world)
    requires q == After(mid, d, world)
    ensures AllPartway(p, q, ds + [d], todo - {d.name}, results[d.name := d.report], world)
  {
    RoundAdds(p, mid, ds, d, world);
    LeadOneMore(p, ds, mid, d, world);
    LastRound(ds, d);
    RestOneMore(todo, ResultsOf(ds), p.checks, d.name, d.report);
  }

  /** Running every check adds one call of each probe, two when the application check calls it again, and as
      many entries if it never raises; the application check enters the result it has in the answer. */
  lemma AllRoundsAdd(p: Past, q: Past, ds: seq<Round>, n: string, world: World)
    requires Added(p, q, ds, world) && ResultsOf(ds).Keys == p.checks.Keys && n in p.checks
    ensures var k := if n != APPLICATION && Aggregates(p.checks) then 2 else 1;
            && Grew(p.log, q.log, n, k, NeverRaises(p.checks[n], world))
            && multiset(TurnsOf(ds))[n] == (if p.checks[n].Probe? then k else 0)
            && Answers(n, ResultsOf(ds)[n], |p.trace|, |q.trace|, p.checks, world)
    ensures n == APPLICATION && Aggregates(p.checks) ==> q.log[n] == p.log[n] + [ResultsOf(ds)[n]]
  {
    var results := ResultsOf(ds);
    assert n in results && (APPLICATION in results <==> APPLICATION in p.checks);
    assert Due(n, results, p.checks) == if n != APPLICATION && Aggregates(p.checks) then 2 else 1;
  }

  /** The end of a sequence, of at most a hundred entries. */
  predicate IsEnd(h: seq<Report>, all: seq<Report>) {
    && |h| == (if |all| > 100 then 100 else |all|)
    && forall i :: 0 <= i < |h| ==> h[i] == all[|all| - |h| + i]
  }

  lemma RecentIsEnd(rs: seq<Report>)
    ensures IsEnd(Recent(rs), rs)
  {
  }

  /** The history of a probe is the end of what its calls since its registration reported without raising. */
  lemma HistoryIsEndOfRuns(p: Past, n: string, id: string, world: World)
    requires Real(p, world) && n in p.checks && p.checks[n] == Probe(id)
    ensures n in p.since && n in Histories(p)
    ensures IsEnd(Histories(p)[n], Kept(n, id, p.trace, p.since[n], world))
  {
    assert LogIsKept(n, p, world);
    RecentIsEnd(p.log[n]);
  }

  /** What `get_status` answers: an error, one check's reports, or the last report of every check. */
  datatype StatusAnswer =
    | UnknownCheck
    | One(current: Option<Report>, all: seq<Report>)
    | Every(currents: map<string, Option<Report>>)

  function LastOf(rs: seq<Report>): Option<Report> {
    if rs == [] then None else Some(rs[|rs| - 1])
  }

  lemma LastOfRecent(rs: seq<Report>)
    ensures LastOf(Recent(rs)) == LastOf(rs)
  {
  }

  /** The other checks are split into those still to run and those that have. */
  ghost predicate Partway(todo: set<string>, names: seq<string>, checks: map<string, Check>) {
    && NoRepeats(names)
    && (forall n :: n in todo <==> n in checks && n != APPLICATION && n !in names)
    && (forall n <- names :: n in checks && n != APPLICATION)
  }

  lemma PartwayStep(todo: set<string>, names: seq<string>, checks: map<string, Check>, n: string)
    requires Partway(todo, names, checks) && n in todo
    ensures n in checks && n != APPLICATION && Partway(todo - {n}, names + [n], checks)
  {
    assert (names + [n])[..|names|] == names;
  }

  lemma NoneRemaining(names: seq<string>, checks: map<string, Check>)
    requires Partway({}, names, checks)
    ensures ListsOthers(names, checks)
  {
  }

  lemma OneMoreRun(p: Past, names: seq<string>, start: nat, checks: map<string, Check>, world: World, n: string)
    ensures CalledAll(p, names + [n], world) == Called(CalledAll(p, names, world), n, world)
    ensures RunReports(names + [n], start, checks, world) ==
            RunReports(names, start, checks, world) + [ReportOf(n, start + |names|, checks, world)]
  {
    assert (names + [n])[..|names|] == names;
  }

  /** Where the nested runs stand. */
  ghost predicate OthersPartway(p: Past, q: Past, todo: set<string>, names: seq<string>, rs: seq<Report>,
                                world: World) {
    && OnlyApplication(p.checks) && Partway(todo, names, p.checks) && q == CalledAll(p, names, world)
    && q.checks == p.checks && |q.trace| == |p.trace| + |names|
    && rs == RunReports(names, |p.trace|, p.checks, world)
  }

  lemma OthersPartwayStep(p: Past, q: Past, todo: set<string>, names: seq<string>, rs: seq<Report>, world: World,
                          n: string)
    requires OthersPartway(p, q, todo, names, rs, world) && n in todo
    ensures n in p.checks && p.checks[n].Probe?
    ensures OthersPartway(p, Called(q, n, world), todo - {n}, names + [n],
                          rs + [ReportOf(n, |q.trace|, q.checks, world)], world)
  {
    PartwayStep(todo, names, p.checks, n);
    OneMoreRun(p, names, |p.trace|, p.checks, world, n);
  }

  // ----- The checks -----

  class HealthCheck {
    const world: World
    var checks: map<string, Check>
    var history: Log
    /** How many probes have been called. */
    var calls: nat
    ghost var past: Past

    /** The history of every check is the end of its log, and the log of a probe tells what it reported. */
    ghost predicate Valid()
      reads this
    {
      checks == past.checks && calls == |past.trace| && history == Histories(past) && Real(past, world)
    }

    constructor (world: World)
      ensures Valid() && past == Past(map[], map[], [], map[]) && this.world == world
    {
      this.world := world;
      checks, history, calls := map[], map[], 0;
      past := Past(map[], map[], [], map[]);
    }

    /** Registering a check under a known name replaces it and forgets its history. */
    method RegisterCheck(name: string, check: Check)
      requires Valid()
      modifies this`checks, this`history, this`past
      ensures Valid() && past == Registered(old(past), name, check)
      ensures checks == old(checks)[name := check] && history == old(history)[name := []]
    {
      RealAfterRegistration(past, name, check, world);
      checks := checks[name := check];
      history := history[name := []];
      past := Registered(past, name, check);
    }

    /** Append a report to a history and keep the last hundred. */
    method Record(name: string, r: Report)
      requires name in past.log && history == Histories(past)
      modifies this`history, this`past
      ensures past == Entered(old(past), name, r) && history == Histories(past)
      ensures history == old(history)[name := Recent(past.log[name])]
    {
      RecentOneMore(past.log[name], r);
      var h := history[name] + [r];
      if |h| > LIMIT {
        h := h[1..];
      }
      history := history[name := h];
      past := Entered(past, name, r);
    }

    /** A probe that raises is reported unhealthy and leaves no entry. */
    method RunProbe(name: string) returns (r: Report)
      requires Valid() && name in checks && checks[name].Probe?
      modifies this`history, this`calls, this`past
      ensures Valid() && calls == old(calls) + 1 && past == Called(old(past), name, world)
      ensures r == ReportOf(name, old(calls), checks, world)
      ensures match world(checks[name].id, old(calls))
              case Ran(report) =>
                r == report && past.log == old(past).log[name := old(past).log[name] + [report]]
              case Raised => r == Report(name, Unhealthy, None) && past.log == old(past).log
    {
      RealAfterCall(past, name, world);
      var a := world(checks[name].id, calls);
      calls := calls + 1;
      ghost var trace := past.trace + [name];
      if a.Ran? {
        Record(name, a.report);
        r := a.report;
      } else {
        r := Report(name, Unhealthy, None);
      }
      past := past.(trace := trace);
    }

    // ----- The application check -----

    /** The nested runs of the application check: every other check once, in some order. */
    method RunOthers() returns (names: seq<string>, rs: seq<Report>)
      requires Valid() && OnlyApplication(checks)
      modifies this`history, this`calls, this`past
      ensures Valid() && ListsOthers(names, checks) && past == CalledAll(old(past), names, world)
      ensures rs == RunReports(names, old(calls), checks, world)
    {
      names, rs := [], [];
      var todo := checks.Keys - {APPLICATION};
      while todo != {}
        invariant Valid() && OthersPartway(old(past), past, todo, names, rs, world)
        decreases |todo|
      {
        var n :| n in todo;
        OthersPartwayStep(old(past), past, todo, names, rs, world, n);
        var r := RunProbe(n);
        Fewer(todo, n);
        names, rs, todo := names + [n], rs + [r], todo - {n};
      }
      NoneRemaining(names, checks);
    }

    /** The verdict on the others, entered in the check's own history. */
    method RunApplication() returns (v: Report, ghost round: Round)
      requires Valid() && Aggregates(checks) && OnlyApplication(checks)
      modifies this`history, this`calls, this`past
      ensures Valid() && round.name == APPLICATION && v == round.report
      ensures IsRound(old(past), round, world) && past == After(old(past), round, world)
    {
      var names, rs := RunOthers();
      v := Judge(rs);
      round := Round(APPLICATION, names, v);
      RealAfterVerdict(past, APPLICATION, v, world);
      Record(APPLICATION, v);
    }

    // ----- Running one check and all of them -----

    /** Run one check; `None` is the error for an unknown name. */
    method RunCheck(name: string) returns (r: Option<Report>, ghost round: Round)
      requires Valid() && (name in checks && checks[name].Aggregate? ==> OnlyApplication(checks))
      modifies this`history, this`calls, this`past
      ensures Valid() && (r.Some? <==> name in checks)
      ensures name !in checks ==> past == old(past)
      ensures name in checks ==> round.name == name && r == Some(round.report)
      ensures name in checks ==> IsRound(old(past), round, world) && past == After(old(past), round, world)
    {
      if name !in checks {
        return None, Round("", [], Report("", Unknown, None));
      }
      if checks[name].Probe? {
        var report := RunProbe(name);
        r, round := Some(report), Round(name, [name], report);
      } else {
        var report;
        report, round := RunApplication();
        r := Some(report);
      }
    }

    /** Run everything: each check once, and each other one once more from within the application check. */
    method RunAllChecks() returns (results: map<string, Report>, ghost rounds: seq<Round>)
      requires Valid() && OnlyApplication(checks)
      modifies this`history, this`calls, this`past
      ensures Valid() && (forall n :: n in results <==> n in checks) && results == ResultsOf(rounds)
      ensures Lead(old(past), rounds, past, world) && Added(old(past), past, rounds, world)
    {
      results, rounds := map[], [];
      var todo := checks.Keys;
      ghost var start := past;
      RoundsStart(start, world);
      while todo != {}
        invariant Valid() && AllPartway(start, past, rounds, todo, results, world)
        decreases |todo|
      {
        var n :| n in todo;
        results, rounds := RunNext(n, todo, results, start, rounds);
        Fewer(todo, n);
        todo := todo - {n};
      }
    }

    /** One step of running everything. */
    method RunNext(n: string, ghost todo: set<string>, done: map<string, Report>, ghost start: Past,
                   ghost before: seq<Round>)
      returns (results: map<string, Report>, ghost rounds: seq<Round>)
      requires Valid() && AllPartway(start, past, before, todo, done, world) && n in todo
      modifies this`history, this`calls, this`past
      ensures Valid() && AllPartway(start, past, rounds, todo - {n}, results, world)
    {
      ghost var mid := past;
      ghost var round;
      var report;
      report, round := RunCheck(n);
      AllPartwayStep(start, mid, past, before, todo, done, world, round);
      results, rounds := done[n := report.value], before + [round];
    }

    /** `get_status(name)`: the history of a check and its last entry, or the last entries of all checks when
        no name or the empty one is given. */
    method GetStatus(name: Option<string>) returns (answer: StatusAnswer)
      requires Valid()
      ensures match name
              case Some(n) =>
                if n == "" then answer.Every?
                else answer == if n in checks then One(LastOf(past.log[n]), Recent(past.log[n])) else UnknownCheck
              case None => answer.Every?
      ensures answer.Every? ==> answer.currents.Keys == checks.Keys
      ensures answer.Every? ==> forall n <- checks :: answer.currents[n] == LastOf(past.log[n])
    {
      if name.Some? && name.value != "" {
        if name.value !in history {
          return UnknownCheck;
        }
        var h := history[name.value];
        LastOfRecent(past.log[name.value]);
        return One(LastOf(h), h);
      }
      var currents := GetCurrents();
      answer := Every(currents);
    }

    method GetCurrents() returns (currents: map<string, Option<Report>>)
      requires Valid()
      ensures currents.Keys == checks.Keys && forall n <- checks :: currents[n] == LastOf(past.log[n])
    {
      forall n | n in checks ensures LastOf(history[n]) == LastOf(past.log[n]) {
        LastOfRecent(past.log[n]);
      }
      currents := map n | n in history :: LastOf(history[n]);
    }
  }
}
