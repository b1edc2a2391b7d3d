/** The environment variables that name the Host Factory directories and the image resolution settings. */
module HostFactoryVars {
  import opened Wrappers
  import opened ConfigTrees
  import opened PathWrites
  import opened Assignments
  import opened EnvMapping

  function Env(vars: Environ, name: string): Option<string> {
    if name in vars then Some(vars[name]) else None
  }

  /** Python's truth of an optional string. */
  predicate Truthy(v: Option<string>) {
    v.Some? && v.value != ""
  }

  /** `os.path.join` with a relative second component, on POSIX. */
  function JoinPath(dir: string, name: string): string {
    if dir == "" || dir[|dir| - 1] == '/' then dir + name else dir + "/" + name
  }

  function Put(path: Path, value: string): Op
    requires path != []
  {
    Step(path, Always, Text(value))
  }

  const LOG_FILE_PATH: Path := ["logging", "file_path"]
  const JSON_BASE: Path := ["storage", "json_strategy", "base_path"]
  const SQL_NAME: Path := ["storage", "sql_strategy", "name"]
  const STORE_PATH: Path := ["events", "store_path"]
  const EVENTS_PATH: Path := ["events", "default_events_path"]
  const SNAPSHOT_STORE: Path := ["events", "snapshot_store_path"]
  const SNAPSHOTS_PATH: Path := ["events", "default_snapshots_path"]
  const AMI_ENABLED: Path := ["template", "ami_resolution", "enabled"]
  const AMI_FALLBACK: Path := ["template", "ami_resolution", "fallback_on_failure"]
  const AMI_CACHE: Path := ["template", "ami_resolution", "persistent_cache_file"]

  function LogOps(vars: Environ): (ops: seq<Op>)
    ensures forall o <- ops :: o.path == LOG_FILE_PATH && o.path != SQL_NAME && o.guard == Always
  {
    var logdir, workdir := Env(vars, "HF_PROVIDER_LOGDIR"), Env(vars, "HF_PROVIDER_WORKDIR");
    if Truthy(logdir) then [Put(LOG_FILE_PATH, JoinPath(logdir.value, "app.log"))]
    else if Truthy(workdir) then [Put(LOG_FILE_PATH, JoinPath(JoinPath(workdir.value, "logs"), "app.log"))]
    else []
  }

  function StorageOps(vars: Environ): (ops: seq<Op>)
    ensures forall o <- ops :: ((o.path == JSON_BASE && o.guard == Always) || o.path == SQL_NAME)
  {
    var workdir := Env(vars, "HF_PROVIDER_WORKDIR");
    if Truthy(workdir) then
      [Put(JSON_BASE, workdir.value),
       Step(SQL_NAME, IfDefault("type", Text("sqlite")), Text(JoinPath(workdir.value, "database.db")))]
    else []
  }

  function EventOps(vars: Environ): (ops: seq<Op>)
    ensures forall o <- ops :: o.path == STORE_PATH || o.path == EVENTS_PATH
    ensures forall o <- ops :: o.path != SQL_NAME && o.guard == Always
  {
    var eventsdir, workdir := Env(vars, "HF_PROVIDER_EVENTSDIR"), Env(vars, "HF_PROVIDER_WORKDIR");
    if Truthy(eventsdir) then [Put(STORE_PATH, eventsdir.value), Put(EVENTS_PATH, eventsdir.value)]
    else if Truthy(workdir) then [Put(EVENTS_PATH, JoinPath(workdir.value, "events"))]
    else []
  }

  function SnapshotOps(vars: Environ): (ops: seq<Op>)
    ensures forall o <- ops :: o.path == SNAPSHOT_STORE || o.path == SNAPSHOTS_PATH
    ensures forall o <- ops :: o.path != SQL_NAME && o.guard == Always
  {
    var snapshotsdir, workdir := Env(vars, "HF_PROVIDER_SNAPSHOTSDIR"), Env(vars, "HF_PROVIDER_WORKDIR");
    if Truthy(snapshotsdir) then [Put(SNAPSHOT_STORE, snapshotsdir.value), Put(SNAPSHOTS_PATH, snapshotsdir.value)]
    else if Truthy(workdir) then [Put(SNAPSHOTS_PATH, JoinPath(workdir.value, "snapshots"))]
    else []
  }

  function AmiOps(vars: Environ, convert: string -> Tree): (ops: seq<Op>)
    ensures forall o <- ops :: o.path == AMI_ENABLED || o.path == AMI_FALLBACK || o.path == AMI_CACHE
    ensures forall o <- ops :: o.path != SQL_NAME && o.guard == Always
  {
    var enabled := Env(vars, "HF_TEMPLATE_AMI_RESOLUTION_ENABLED");
    var fallback := Env(vars, "HF_TEMPLATE_AMI_RESOLUTION_FALLBACK_ON_FAILURE");
    var cache := Env(vars, "HF_TEMPLATE_AMI_RESOLUTION_CACHE_FILE");
    if Truthy(enabled) || Truthy(fallback) || Truthy(cache) then
      (if enabled.Some? then [Step(AMI_ENABLED, Always, convert(enabled.value))] else []) +
      (if fallback.Some? then [Step(AMI_FALLBACK, Always, convert(fallback.value))] else []) +
      (if cache.Some? then [Put(AMI_CACHE, cache.value)] else [])
    else []
  }

  function HostFactoryOps(vars: Environ, convert: string -> Tree): (ops: seq<Op>)
    ensures forall o <- ops :: HostFactoryPath(o.path) && (o.path != SQL_NAME ==> o.guard == Always)
  {
    LogOps(vars) + (StorageOps(vars) + (EventOps(vars) + (SnapshotOps(vars) + AmiOps(vars, convert))))
  }

  // ----- The paths written -----

  predicate HostFactoryPath(p: Path) {
    || p == LOG_FILE_PATH || p == JSON_BASE || p == SQL_NAME
    || p == STORE_PATH || p == EVENTS_PATH || p == SNAPSHOT_STORE || p == SNAPSHOTS_PATH
    || p == AMI_ENABLED || p == AMI_FALLBACK || p == AMI_CACHE
  }

  const SQL_TYPE: Path := ["storage", "sql_strategy", "type"]

  /** Which of the paths it is, told from lengths and single characters. */
  function PathIndex(p: Path): int
    requires HostFactoryPath(p) || p == SQL_TYPE
  {
    if |p| == 2 then
      match |p[1]| case 9 => 0 case 10 => 3 case 22 => 6 case _ => if p[1][0] == 'd' then 4 else 5
    else
      match |p[2]| case 9 => 1 case 4 => if p[2][0] == 'n' then 2 else 10 case 7 => 7 case 19 => 8 case _ => 9
  }

  lemma PathsIndexed()
    ensures PathIndex(LOG_FILE_PATH) == 0 && PathIndex(JSON_BASE) == 1 && PathIndex(SQL_NAME) == 2
    ensures PathIndex(STORE_PATH) == 3 && PathIndex(EVENTS_PATH) == 4
    ensures PathIndex(SNAPSHOT_STORE) == 5 && PathIndex(SNAPSHOTS_PATH) == 6
    ensures PathIndex(AMI_ENABLED) == 7 && PathIndex(AMI_FALLBACK) == 8 && PathIndex(AMI_CACHE) == 9
    ensures PathIndex(SQL_TYPE) == 10
  {
  }

  /** No written path equals or extends another, or the guard's. */
  lemma PathsApart(p: Path, q: Path)
    requires (HostFactoryPath(p) || p == SQL_TYPE) && (HostFactoryPath(q) || q == SQL_TYPE) && p != q
    ensures Apart(p, q)
  {
    if |p| == |q| {
      ApartIfSameLength(p, q);
    } else {
      assert p[0][0] != q[0][0] by { assert p[0][0] in {'l', 'e'} <==> |p| == 2; }
    }
  }

  lemma {:induction false} ApartIfSameLength(p: Path, q: Path)
    requires |p| == |q| && p != q
    ensures Apart(p, q)
    decreases |p|
  {
    if p[0] == q[0] {
      assert p == [p[0]] + p[1..] && q == [q[0]] + q[1..];
      ApartIfSameLength(p[1..], q[1..]);
    }
  }

  // ----- What they hold afterwards -----

  /** The value the directories and image settings ask for at a path, if any. */
  function Wanted(vars: Environ, convert: string -> Tree, p: Path): Option<Tree> {
    var workdir, logdir := Env(vars, "HF_PROVIDER_WORKDIR"), Env(vars, "HF_PROVIDER_LOGDIR");
    var eventsdir, snapshotsdir := Env(vars, "HF_PROVIDER_EVENTSDIR"), Env(vars, "HF_PROVIDER_SNAPSHOTSDIR");
    var enabled, fallback, cache := Env(vars, "HF_TEMPLATE_AMI_RESOLUTION_ENABLED"),
      Env(vars, "HF_TEMPLATE_AMI_RESOLUTION_FALLBACK_ON_FAILURE"), Env(vars, "HF_TEMPLATE_AMI_RESOLUTION_CACHE_FILE");
    var ami := Truthy(enabled) || Truthy(fallback) || Truthy(cache);
    if p == LOG_FILE_PATH then
      if Truthy(logdir) then Some(Text(JoinPath(logdir.value, "app.log")))
      else if Truthy(workdir) then Some(Text(JoinPath(JoinPath(workdir.value, "logs"), "app.log"))) else None
    else if p == JSON_BASE then if Truthy(workdir) then Some(Text(workdir.value)) else None
    else if p == SQL_NAME then if Truthy(workdir) then Some(Text(JoinPath(workdir.value, "database.db"))) else None
    else if p == STORE_PATH then if Truthy(eventsdir) then Some(Text(eventsdir.value)) else None
    else if p == EVENTS_PATH then
      if Truthy(eventsdir) then Some(Text(eventsdir.value))
      else if Truthy(workdir) then Some(Text(JoinPath(workdir.value, "events"))) else None
    else if p == SNAPSHOT_STORE then if Truthy(snapshotsdir) then Some(Text(snapshotsdir.value)) else None
    else if p == SNAPSHOTS_PATH then
      if Truthy(snapshotsdir) then Some(Text(snapshotsdir.value))
      else if Truthy(workdir) then Some(Text(JoinPath(workdir.value, "snapshots"))) else None
    else if p == AMI_ENABLED then if ami && enabled.Some? then Some(convert(enabled.value)) else None
    else if p == AMI_FALLBACK then if ami && fallback.Some? then Some(convert(fallback.value)) else None
    else if p == AMI_CACHE then if ami && cache.Some? then Some(Text(cache.value)) else None
    else None
  }

  lemma WantedByGroup(vars: Environ, convert: string -> Tree, p: Path)
    requires HostFactoryPath(p)
    ensures ValueFor(HostFactoryOps(vars, convert), p) == Wanted(vars, convert, p)
  {
    PathsIndexed();
    var log, storage, events := LogOps(vars), StorageOps(vars), EventOps(vars);
    var snapshots, ami := SnapshotOps(vars), AmiOps(vars, convert);
    ValueForConcat(log, storage + (events + (snapshots + ami)), p);
    ValueForConcat(storage, events + (snapshots + ami), p);
    ValueForConcat(events, snapshots + ami, p);
    ValueForConcat(snapshots, ami, p);
    WantedLog(vars, convert, p);
    WantedStorage(vars, convert, p);
    WantedEvents(vars, convert, p);
    WantedSnapshots(vars, convert, p);
    WantedAmi(vars, convert, p);
  }

  predicate InGroup(p: Path, lo: int, hi: int)
    requires HostFactoryPath(p)
  {
    lo <= PathIndex(p) <= hi
  }

  lemma WantedLog(vars: Environ, convert: string -> Tree, p: Path)
    requires HostFactoryPath(p)
    ensures ValueFor(LogOps(vars), p) == if InGroup(p, 0, 0) then Wanted(vars, convert, p) else None
  {
    PathsIndexed();
    ValueForShort(LogOps(vars), p);
  }

  lemma WantedStorage(vars: Environ, convert: string -> Tree, p: Path)
    requires HostFactoryPath(p)
    ensures ValueFor(StorageOps(vars), p) == if InGroup(p, 1, 2) then Wanted(vars, convert, p) else None
  {
    PathsIndexed();
    ValueForShort(StorageOps(vars), p);
  }

  lemma WantedEvents(vars: Environ, convert: string -> Tree, p: Path)
    requires HostFactoryPath(p)
    ensures ValueFor(EventOps(vars), p) == if InGroup(p, 3, 4) then Wanted(vars, convert, p) else None
  {
    PathsIndexed();
    ValueForShort(EventOps(vars), p);
  }

  lemma WantedSnapshots(vars: Environ, convert: string -> Tree, p: Path)
    requires HostFactoryPath(p)
    ensures ValueFor(SnapshotOps(vars), p) == if InGroup(p, 5, 6) then Wanted(vars, convert, p) else None
  {
    PathsIndexed();
    ValueForShort(SnapshotOps(vars), p);
  }

  lemma WantedAmi(vars: Environ, convert: string -> Tree, p: Path)
    requires HostFactoryPath(p)
    ensures ValueFor(AmiOps(vars, convert), p) == if InGroup(p, 7, 9) then Wanted(vars, convert, p) else None
  {
    PathsIndexed();
    ValueForShort(AmiOps(vars, convert), p);
  }

  lemma ValueForShort(ops: seq<Op>, p: Path)
    requires |ops| <= 3
    ensures ValueFor(ops, p) ==
            if |ops| > 2 && ops[2].path == p then Some(ops[2].value)
            else if |ops| > 1 && ops[1].path == p then Some(ops[1].value)
            else if |ops| > 0 && ops[0].path == p then Some(ops[0].value)
            else None
  {
    if |ops| > 0 {
      ValueForCons(ops);
      if |ops| > 1 {
        ValueForCons(ops[1..]);
        if |ops| > 2 {
          ValueForCons(ops[1..][1..]);
        }
      }
    }
  }

  lemma ValueForCons(ops: seq<Op>)
    requires |ops| > 0
    ensures |ops[1..]| == |ops| - 1 && forall i :: 0 <= i < |ops| - 1 ==> ops[1..][i] == ops[i + 1]
  {
  }

  /** Every listed setting but the guarded one holds what is wanted, or what it held before. */
  lemma HostFactoryDecides(t: Tree, vars: Environ, convert: string -> Tree, p: Path)
    requires HostFactoryPath(p) && p != SQL_NAME
    ensures var r := ApplyAll(t, HostFactoryOps(vars, convert));
            r.Some? ==> Resolve(r.value, p) == Assigned(Wanted(vars, convert, p), Resolve(t, p))
  {
    var ops := HostFactoryOps(vars, convert);
    forall o | o in ops && o.path != p ensures Apart(o.path, p) {
      PathsApart(o.path, p);
    }
    WantedByGroup(vars, convert, p);
    ApplyAllReads(t, ops, p);
  }

  function SqlNameFrom(t: Tree, vars: Environ, convert: string -> Tree): Found {
    var wanted := Wanted(vars, convert, SQL_NAME);
    var replaced := Resolve(t, SQL_TYPE) in {Missing, At(Text("sqlite"))};
    Assigned(if replaced then wanted else None, Resolve(t, SQL_NAME))
  }

  /** The database name is set to the work directory's exactly when the SQL storage is of the default type. */
  lemma SqlNameDecided(t: Tree, vars: Environ, convert: string -> Tree)
    ensures var r := ApplyAll(t, HostFactoryOps(vars, convert));
            r.Some? ==> Resolve(r.value, SQL_NAME) == SqlNameFrom(t, vars, convert)
  {
    var log, storage := LogOps(vars), StorageOps(vars);
    var after := EventOps(vars) + (SnapshotOps(vars) + AmiOps(vars, convert));
    assert log + (storage + after) == HostFactoryOps(vars, convert);
    OthersNotSql(vars, convert);
    if ApplyAll(t, log + (storage + after)).Some? {
      ApplyAllSplit(t, log, storage + after);
      OthersKeepSql(t, log, vars, convert);
      var t1 := ApplyAll(t, log).value;
      ApplyAllSplit(t1, storage, after);
      SqlStorage(t1, vars, convert);
      OthersKeepSql(ApplyAll(t1, storage).value, after, vars, convert);
    }
  }

  lemma OthersNotSql(vars: Environ, convert: string -> Tree)
    ensures forall o <- LogOps(vars) :: HostFactoryPath(o.path) && o.path != SQL_NAME
    ensures var after := EventOps(vars) + (SnapshotOps(vars) + AmiOps(vars, convert));
            forall o <- after :: HostFactoryPath(o.path) && o.path != SQL_NAME
  {
  }

  /** Other assignments leave the database name and the storage type alone. */
  lemma OthersKeepSql(t: Tree, ops: seq<Op>, vars: Environ, convert: string -> Tree)
    requires forall o <- ops :: HostFactoryPath(o.path) && o.path != SQL_NAME
    ensures var r := ApplyAll(t, ops);
            r.Some? ==> Resolve(r.value, SQL_NAME) == Resolve(t, SQL_NAME) &&
                        SqlNameFrom(r.value, vars, convert) == SqlNameFrom(t, vars, convert)
  {
    OthersApartFromSql(ops);
    ApplyAllElsewhere(t, ops, SQL_NAME);
    ApplyAllElsewhere(t, ops, SQL_TYPE);
  }

  lemma OthersApartFromSql(ops: seq<Op>)
    requires forall o <- ops :: HostFactoryPath(o.path) && o.path != SQL_NAME
    ensures forall o <- ops :: Apart(o.path, SQL_NAME) && Apart(o.path, SQL_TYPE)
  {
    PathsIndexed();
    forall o | o in ops ensures Apart(o.path, SQL_NAME) && Apart(o.path, SQL_TYPE) {
      PathsApart(o.path, SQL_NAME);
      PathsApart(o.path, SQL_TYPE);
    }
  }

  lemma SqlStorage(t: Tree, vars: Environ, convert: string -> Tree)
    ensures var r := ApplyAll(t, StorageOps(vars));
            r.Some? ==> Resolve(r.value, SQL_NAME) == SqlNameFrom(t, vars, convert)
  {
    PathsIndexed();
    var ops := StorageOps(vars);
    WantedSql(vars, convert);
    if ops != [] {
      var json, sql := ops[0], ops[1];
      assert ops == [json] + [sql];
      ApplyAllSplit(t, [json], [sql]);
      OthersKeepSql(t, [json], vars, convert);
      if ApplyAll(t, [json]).Some? {
        SqlAssigned(ApplyAll(t, [json]).value, vars, convert, sql.value);
      }
    }
  }

  lemma WantedSql(vars: Environ, convert: string -> Tree)
    ensures var ops := StorageOps(vars);
            if ops == [] then Wanted(vars, convert, SQL_NAME) == None
            else |ops| == 2 && ops[0].path == JSON_BASE &&
                 exists v :: ops[1] == SqlStep(v) && Wanted(vars, convert, SQL_NAME) == Some(v)
  {
    PathsIndexed();
    if StorageOps(vars) != [] {
      var v := Text(JoinPath(Env(vars, "HF_PROVIDER_WORKDIR").value, "database.db"));
      assert StorageOps(vars)[1] == SqlStep(v);
    }
  }

  /** The assignment of a database name. */
  function SqlStep(v: Tree): Op {
    Step(SQL_NAME, IfDefault("type", Text("sqlite")), v)
  }

  lemma SqlAssigned(t: Tree, vars: Environ, convert: string -> Tree, v: Tree)
    requires Wanted(vars, convert, SQL_NAME) == Some(v)
    ensures var r := ApplyAll(t, [SqlStep(v)]);
            r.Some? ==> Resolve(r.value, SQL_NAME) == SqlNameFrom(t, vars, convert)
  {
    assert [SqlStep(v)][1..] == [];
    assert SQL_NAME[..2] + ["type"] == SQL_TYPE;
    ApplyGuarded(t, SQL_NAME, "type", Text("sqlite"), v);
  }

  /** The writes reach these paths only. */
  lemma HostFactoryKeepsOthers(t: Tree, vars: Environ, convert: string -> Tree, q: Path)
    requires forall p :: HostFactoryPath(p) ==> Apart(p, q)
    ensures var r := ApplyAll(t, HostFactoryOps(vars, convert));
            r.Some? ==> Resolve(r.value, q) == Resolve(t, q)
  {
    ApplyAllElsewhere(t, HostFactoryOps(vars, convert), q);
  }
}
