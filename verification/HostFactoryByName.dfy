/** The Host Factory settings by name: what stands at each path after the whole overlay. */
module HostFactoryByName {
  import opened Wrappers
  import opened ConfigTrees
  import opened EnvMapping
  import opened HostFactoryVars
  import opened Assignments
  import opened EnvOverlay

  /** A variable is set to more than the empty string. */
  predicate Given(vars: Environ, name: string) {
    name in vars && vars[name] != ""
  }

  /** A directory given without a slash at its end. */
  predicate GivenDir(vars: Environ, name: string) {
    Given(vars, name) && vars[name][|vars[name]| - 1] != '/'
  }

  ghost predicate Overlaid(t: Tree, vars: Environ, order: seq<string>, convert: string -> Tree, r: Tree) {
    (forall n <- order :: n in vars) && Overlay(t, vars, order, convert) == Some(r)
  }

  lemma JoinedWith(dir: string, name: string, tail: string)
    requires dir != "" && dir[|dir| - 1] != '/' && tail == "/" + name
    ensures JoinPath(dir, name) == dir + tail
  {
  }

  lemma JoinedTwice(dir: string)
    requires dir != "" && dir[|dir| - 1] != '/'
    ensures JoinPath(JoinPath(dir, "logs"), "app.log") == dir + "/logs/app.log"
  {
    assert "/logs" == "/" + "logs" && "/logs/app.log" == "/logs" + "/" + "app.log";
    assert dir + "/logs" == dir + "/" + "logs";
    assert (dir + "/logs")[|dir + "/logs"| - 1] == 's';
  }

  /** Two slashes are never put in a row. */
  lemma JoinedAtSlash(dir: string, name: string)
    ensures JoinPath(dir + "/", name) == dir + "/" + name
    ensures JoinPath("", name) == name
  {
  }

  // ----- What is wanted -----

  lemma LogFileWanted(vars: Environ, convert: string -> Tree)
    ensures var w := Wanted(vars, convert, LOG_FILE_PATH);
            if Given(vars, "HF_PROVIDER_LOGDIR") then
              GivenDir(vars, "HF_PROVIDER_LOGDIR") ==> w == Some(Text(vars["HF_PROVIDER_LOGDIR"] + "/app.log"))
            else if Given(vars, "HF_PROVIDER_WORKDIR") then
              GivenDir(vars, "HF_PROVIDER_WORKDIR") ==> w == Some(Text(vars["HF_PROVIDER_WORKDIR"] + "/logs/app.log"))
            else w == None
  {
    if GivenDir(vars, "HF_PROVIDER_LOGDIR") {
      JoinedWith(vars["HF_PROVIDER_LOGDIR"], "app.log", "/app.log");
    }
    if GivenDir(vars, "HF_PROVIDER_WORKDIR") {
      JoinedTwice(vars["HF_PROVIDER_WORKDIR"]);
    }
  }

  /** A setting in a directory of its own, or under the work directory. */
  predicate InDirectory(w: Option<Tree>, vars: Environ, own: string, tail: string) {
    if Given(vars, own) then w == Some(Text(vars[own]))
    else if Given(vars, "HF_PROVIDER_WORKDIR") then
      GivenDir(vars, "HF_PROVIDER_WORKDIR") ==> w == Some(Text(vars["HF_PROVIDER_WORKDIR"] + tail))
    else w == None
  }

  lemma DirectoriesWanted(vars: Environ, convert: string -> Tree)
    ensures InDirectory(Wanted(vars, convert, EVENTS_PATH), vars, "HF_PROVIDER_EVENTSDIR", "/events")
    ensures InDirectory(Wanted(vars, convert, SNAPSHOTS_PATH), vars, "HF_PROVIDER_SNAPSHOTSDIR", "/snapshots")
  {
    PathsIndexed();
    if GivenDir(vars, "HF_PROVIDER_WORKDIR") {
      JoinedWith(vars["HF_PROVIDER_WORKDIR"], "events", "/events");
      JoinedWith(vars["HF_PROVIDER_WORKDIR"], "snapshots", "/snapshots");
    }
  }

  lemma StoresWanted(vars: Environ, convert: string -> Tree)
    ensures Wanted(vars, convert, JSON_BASE) ==
            if Given(vars, "HF_PROVIDER_WORKDIR") then Some(Text(vars["HF_PROVIDER_WORKDIR"])) else None
    ensures Wanted(vars, convert, STORE_PATH) ==
            if Given(vars, "HF_PROVIDER_EVENTSDIR") then Some(Text(vars["HF_PROVIDER_EVENTSDIR"])) else None
    ensures Wanted(vars, convert, SNAPSHOT_STORE) ==
            if Given(vars, "HF_PROVIDER_SNAPSHOTSDIR") then Some(Text(vars["HF_PROVIDER_SNAPSHOTSDIR"])) else None
  {
    PathsIndexed();
  }

  lemma DatabaseWanted(vars: Environ, convert: string -> Tree)
    ensures var w := Wanted(vars, convert, SQL_NAME);
            && (w.Some? <==> Given(vars, "HF_PROVIDER_WORKDIR"))
            && (GivenDir(vars, "HF_PROVIDER_WORKDIR") ==> w == Some(Text(vars["HF_PROVIDER_WORKDIR"] + "/database.db")))
  {
    PathsIndexed();
    if GivenDir(vars, "HF_PROVIDER_WORKDIR") {
      JoinedWith(vars["HF_PROVIDER_WORKDIR"], "database.db", "/database.db");
    }
  }

  lemma ImagesWanted(vars: Environ, convert: string -> Tree)
    ensures var enabled, fallback, cache := "HF_TEMPLATE_AMI_RESOLUTION_ENABLED",
              "HF_TEMPLATE_AMI_RESOLUTION_FALLBACK_ON_FAILURE", "HF_TEMPLATE_AMI_RESOLUTION_CACHE_FILE";
            var any := Given(vars, enabled) || Given(vars, fallback) || Given(vars, cache);
            && Wanted(vars, convert, AMI_ENABLED) ==
               (if any && enabled in vars then Some(convert(vars[enabled])) else None)
            && Wanted(vars, convert, AMI_FALLBACK) ==
               (if any && fallback in vars then Some(convert(vars[fallback])) else None)
            && Wanted(vars, convert, AMI_CACHE) == (if any && cache in vars then Some(Text(vars[cache])) else None)
  {
    PathsIndexed();
  }

  // ----- What stands at the paths -----

  /** What the files, or the mapped variables, hold. */
  lemma Elsewhere(t: Tree, vars: Environ, order: seq<string>, convert: string -> Tree, r: Tree, p: Path)
    requires Overlaid(t, vars, order, convert, r) && HostFactoryPath(p) && p != SQL_NAME
    ensures Resolve(r, p) == Assigned(Wanted(vars, convert, p), MappedSource(t, vars, convert, p))
  {
    EnvironmentDecides(t, vars, order, convert, p);
  }

  lemma Sources(t: Tree, vars: Environ, convert: string -> Tree)
    ensures MappedSource(t, vars, convert, LOG_FILE_PATH) ==
            if "LOG_FILE" in vars then At(convert(vars["LOG_FILE"])) else Resolve(t, LOG_FILE_PATH)
    ensures MappedSource(t, vars, convert, STORE_PATH) ==
            if "EVENTS_STORE_PATH" in vars then At(convert(vars["EVENTS_STORE_PATH"])) else Resolve(t, STORE_PATH)
    ensures forall p :: p != LOG_FILE_PATH && p != STORE_PATH ==> MappedSource(t, vars, convert, p) == Resolve(t, p)
  {
    PathsIndexed();
  }

  /** The log file: in the log directory, else under the work directory, else where `LOG_FILE` or the files
      put it. */
  lemma LogFile(t: Tree, vars: Environ, order: seq<string>, convert: string -> Tree, r: Tree)
    requires Overlaid(t, vars, order, convert, r)
    ensures var found := Resolve(r, ["logging", "file_path"]);
            if Given(vars, "HF_PROVIDER_LOGDIR") then
              GivenDir(vars, "HF_PROVIDER_LOGDIR") ==> found == At(Text(vars["HF_PROVIDER_LOGDIR"] + "/app.log"))
            else if Given(vars, "HF_PROVIDER_WORKDIR") then
              GivenDir(vars, "HF_PROVIDER_WORKDIR") ==> found == At(Text(vars["HF_PROVIDER_WORKDIR"] + "/logs/app.log"))
            else if "LOG_FILE" in vars then found == At(convert(vars["LOG_FILE"]))
            else found == Resolve(t, ["logging", "file_path"])
  {
    LogFileWanted(vars, convert);
    Sources(t, vars, convert);
    Elsewhere(t, vars, order, convert, r, LOG_FILE_PATH);
  }

  /** The storage: in the work directory. */
  lemma Storage(t: Tree, vars: Environ, order: seq<string>, convert: string -> Tree, r: Tree)
    requires Overlaid(t, vars, order, convert, r)
    ensures Resolve(r, ["storage", "json_strategy", "base_path"]) ==
            if Given(vars, "HF_PROVIDER_WORKDIR") then At(Text(vars["HF_PROVIDER_WORKDIR"]))
            else Resolve(t, ["storage", "json_strategy", "base_path"])
  {
    PathsIndexed();
    StoresWanted(vars, convert);
    Sources(t, vars, convert);
    Elsewhere(t, vars, order, convert, r, JSON_BASE);
  }

  /** The database: in the work directory, when its type is the default. */
  lemma Database(t: Tree, vars: Environ, order: seq<string>, convert: string -> Tree, r: Tree)
    requires Overlaid(t, vars, order, convert, r)
    ensures var kind, name := Resolve(t, ["storage", "sql_strategy", "type"]), ["storage", "sql_strategy", "name"];
            if Given(vars, "HF_PROVIDER_WORKDIR") && (kind == Missing || kind == At(Text("sqlite"))) then
              GivenDir(vars, "HF_PROVIDER_WORKDIR") ==>
                Resolve(r, name) == At(Text(vars["HF_PROVIDER_WORKDIR"] + "/database.db"))
            else Resolve(r, name) == Resolve(t, name)
  {
    DatabaseWanted(vars, convert);
    EnvironmentDecides(t, vars, order, convert, SQL_NAME);
  }

  /** The event store and the snapshots: in directories of their own, their defaults else under the work
      directory. */
  lemma EventStores(t: Tree, vars: Environ, order: seq<string>, convert: string -> Tree, r: Tree)
    requires Overlaid(t, vars, order, convert, r)
    ensures Resolve(r, ["events", "store_path"]) ==
            if Given(vars, "HF_PROVIDER_EVENTSDIR") then At(Text(vars["HF_PROVIDER_EVENTSDIR"]))
            else if "EVENTS_STORE_PATH" in vars then At(convert(vars["EVENTS_STORE_PATH"]))
            else Resolve(t, ["events", "store_path"])
    ensures Resolve(r, ["events", "snapshot_store_path"]) ==
            if Given(vars, "HF_PROVIDER_SNAPSHOTSDIR") then At(Text(vars["HF_PROVIDER_SNAPSHOTSDIR"]))
            else Resolve(t, ["events", "snapshot_store_path"])
  {
    PathsIndexed();
    StoresWanted(vars, convert);
    Sources(t, vars, convert);
    Elsewhere(t, vars, order, convert, r, STORE_PATH);
    Elsewhere(t, vars, order, convert, r, SNAPSHOT_STORE);
  }

  /** As `InDirectory`, of what is found, which is what the files hold if no directory is given. */
  predicate FoundInDirectory(r: Tree, t: Tree, p: Path, vars: Environ, own: string, tail: string) {
    if Given(vars, own) then Resolve(r, p) == At(Text(vars[own]))
    else if Given(vars, "HF_PROVIDER_WORKDIR") then
      GivenDir(vars, "HF_PROVIDER_WORKDIR") ==> Resolve(r, p) == At(Text(vars["HF_PROVIDER_WORKDIR"] + tail))
    else Resolve(r, p) == Resolve(t, p)
  }

  lemma DefaultDirectories(t: Tree, vars: Environ, order: seq<string>, convert: string -> Tree, r: Tree)
    requires Overlaid(t, vars, order, convert, r)
    ensures FoundInDirectory(r, t, ["events", "default_events_path"], vars, "HF_PROVIDER_EVENTSDIR", "/events")
    ensures FoundInDirectory(r, t, ["events", "default_snapshots_path"], vars, "HF_PROVIDER_SNAPSHOTSDIR", "/snapshots")
  {
    PathsIndexed();
    DirectoriesWanted(vars, convert);
    Sources(t, vars, convert);
    Elsewhere(t, vars, order, convert, r, EVENTS_PATH);
    Elsewhere(t, vars, order, convert, r, SNAPSHOTS_PATH);
  }

  /** The image resolution: nothing unless one of its variables is more than empty, and then each that is set. */
  lemma ImageResolution(t: Tree, vars: Environ, order: seq<string>, convert: string -> Tree, r: Tree)
    requires Overlaid(t, vars, order, convert, r)
    ensures var enabled, fallback, cache := "HF_TEMPLATE_AMI_RESOLUTION_ENABLED",
              "HF_TEMPLATE_AMI_RESOLUTION_FALLBACK_ON_FAILURE", "HF_TEMPLATE_AMI_RESOLUTION_CACHE_FILE";
            var any := Given(vars, enabled) || Given(vars, fallback) || Given(vars, cache);
            && Resolve(r, ["template", "ami_resolution", "enabled"]) ==
               (if any && enabled in vars then At(convert(vars[enabled]))
                else Resolve(t, ["template", "ami_resolution", "enabled"]))
            && Resolve(r, ["template", "ami_resolution", "fallback_on_failure"]) ==
               (if any && fallback in vars then At(convert(vars[fallback]))
                else Resolve(t, ["template", "ami_resolution", "fallback_on_failure"]))
            && Resolve(r, ["template", "ami_resolution", "persistent_cache_file"]) ==
               (if any && cache in vars then At(Text(vars[cache]))
                else Resolve(t, ["template", "ami_resolution", "persistent_cache_file"]))
  {
    PathsIndexed();
    ImagesWanted(vars, convert);
    Sources(t, vars, convert);
    Elsewhere(t, vars, order, convert, r, AMI_ENABLED);
    Elsewhere(t, vars, order, convert, r, AMI_FALLBACK);
    Elsewhere(t, vars, order, convert, r, AMI_CACHE);
  }
}
