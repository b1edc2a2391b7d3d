/** The environment's writes on top of the merged files: the mapped variables, the Host Factory
    directories, and the legacy `HF_` variables, in that order.
 */
module EnvOverlay {
  import opened Wrappers
  import opened Ascii
  import opened LegacyNames
  import opened ConfigTrees
  import opened PathWrites
  import opened Assignments
  import opened EnvMapping
  import opened HostFactoryVars

  // ----- The legacy variables -----

  const HF_ENV_VARS: set<string> := {
    "HF_PROVIDER_WORKDIR", "HF_PROVIDER_LOGDIR", "HF_PROVIDER_CONFDIR", "HF_PROVIDER_EVENTSDIR",
    "HF_PROVIDER_SNAPSHOTSDIR", "HF_PROVIDER_NAME", "HF_TEMPLATE_AMI_RESOLUTION_ENABLED",
    "HF_TEMPLATE_AMI_RESOLUTION_FALLBACK_ON_FAILURE", "HF_TEMPLATE_AMI_RESOLUTION_CACHE_FILE"
  }

  predicate IsLegacy(name: string) {
    "HF_" <= name && name !in HF_ENV_VARS
  }

  /** Where a legacy variable is written. */
  function LegacyPath(name: string): Path
    requires IsLegacy(name)
  {
    SplitDouble(Upper(name[3..]))
  }

  function LegacyOps(vars: Environ, order: seq<string>, convert: string -> Tree): (ops: seq<Op>)
    requires forall n <- order :: n in vars
    ensures forall o <- ops :: o.guard == Always && forall part <- o.path, c <- part :: !IsLower(c)
  {
    if order == [] then []
    else
      var n := order[0];
      (if IsLegacy(n) then [Step(LegacyPath(n), Always, convert(vars[n]))] else []) +
      LegacyOps(vars, order[1..], convert)
  }

  // ----- What the writes leave alone -----

  /** The whole environment overlay; `None` when an assignment raises. */
  function Overlay(t: Tree, vars: Environ, order: seq<string>, convert: string -> Tree): Option<Tree>
    requires forall n <- order :: n in vars
  {
    match WriteAll(t, MappedSettings(vars, convert))
    case None => None
    case Some(t1) =>
      match ApplyAll(t1, HostFactoryOps(vars, convert))
      case None => None
      case Some(t2) => ApplyAll(t2, LegacyOps(vars, order, convert))
  }

  predicate HasLower(s: string) {
    exists c <- s :: IsLower(c)
  }

  /** Legacy variables only reach upper-cased keys, so no path starting at a lower-case key changes. */
  lemma LegacyKeepsLowerCase(t: Tree, vars: Environ, order: seq<string>, convert: string -> Tree, q: Path)
    requires forall n <- order :: n in vars
    requires q != [] && HasLower(q[0])
    ensures var r := ApplyAll(t, LegacyOps(vars, order, convert));
            r.Some? ==> Resolve(r.value, q) == Resolve(t, q)
  {
    var ops := LegacyOps(vars, order, convert);
    forall o | o in ops ensures Apart(o.path, q) {
      assert o.path[0] in o.path && o.path[0] != q[0];
    }
    ApplyAllElsewhere(t, ops, q);
  }

  /** The entries of the two mapped settings that the Host Factory directories also concern. */
  const LOG_FILE_ENTRY: nat := 17
  const STORE_PATH_ENTRY: nat := 21

  /** A mapped variable decides its setting, except for the log file and the event store path, which the
      Host Factory directories may override. */
  lemma MappedVariableWins(t: Tree, vars: Environ, order: seq<string>, convert: string -> Tree, j: nat)
    requires forall n <- order :: n in vars
    requires j < |ENV_MAPPING| && ENV_MAPPING[j].0 in vars && !HostFactoryPath(ENV_MAPPING[j].1)
    ensures var r := Overlay(t, vars, order, convert);
            r.Some? ==> Resolve(r.value, ENV_MAPPING[j].1) == At(convert(vars[ENV_MAPPING[j].0]))
  {
    if Overlay(t, vars, order, convert).Some? {
      var q := ENV_MAPPING[j].1;
      OverriddenMappings();
      MappedSettingHolds(t, vars, convert, j);
      var t1 := WriteAll(t, MappedSettings(vars, convert)).value;
      MappedApartFromHostFactory(j);
      HostFactoryKeepsOthers(t1, vars, convert, q);
      var t2 := ApplyAll(t1, HostFactoryOps(vars, convert)).value;
      MappedLowerCase(j);
      LegacyKeepsLowerCase(t2, vars, order, convert, q);
    }
  }

  lemma MappedLowerCase(j: nat)
    requires j < |ENV_MAPPING|
    ensures ENV_MAPPING[j].1 != [] && HasLower(ENV_MAPPING[j].1[0])
  {
    assert IsLower(ENV_MAPPING[j].1[0][0]);
  }

  lemma MappedApartFromHostFactory(j: nat)
    requires j < |ENV_MAPPING| && j != LOG_FILE_ENTRY && j != STORE_PATH_ENTRY
    ensures forall p :: HostFactoryPath(p) ==> Apart(p, ENV_MAPPING[j].1)
  {
    MappingIndexed(j);
    var q := ENV_MAPPING[j].1;
    forall p | HostFactoryPath(p) ensures Apart(p, q) {
      assert |p[0]| in {6, 7, 8};
      if p[0] == q[0] {
        assert |q| == 2 && |p[0]| in {6, 7};
        assert j >= 16;
        assert p[1] != q[1];
      }
    }
  }

  /** What a Host Factory setting holds before the directories are looked at. */
  function MappedSource(t: Tree, vars: Environ, convert: string -> Tree, p: Path): Found {
    if p == LOG_FILE_PATH && "LOG_FILE" in vars then At(convert(vars["LOG_FILE"]))
    else if p == STORE_PATH && "EVENTS_STORE_PATH" in vars then At(convert(vars["EVENTS_STORE_PATH"]))
    else Resolve(t, p)
  }

  lemma MappedApartFromOther(j: nat, p: Path)
    requires j < |ENV_MAPPING| && HostFactoryPath(p)
    requires (p == LOG_FILE_PATH ==> j != LOG_FILE_ENTRY) && (p == STORE_PATH ==> j != STORE_PATH_ENTRY)
    ensures Apart(ENV_MAPPING[j].1, p)
  {
    if j == LOG_FILE_ENTRY {
      PathsApart(LOG_FILE_PATH, p);
    } else if j == STORE_PATH_ENTRY {
      PathsApart(STORE_PATH, p);
    } else {
      MappedApartFromHostFactory(j);
      ApartSymmetric(p, ENV_MAPPING[j].1);
    }
  }

  lemma MappedDecides(t: Tree, vars: Environ, convert: string -> Tree, p: Path)
    requires HostFactoryPath(p)
    ensures var r := WriteAll(t, MappedSettings(vars, convert));
            r.Some? ==> Resolve(r.value, p) == MappedSource(t, vars, convert, p)
  {
    OverriddenMappings();
    if p == LOG_FILE_PATH && "LOG_FILE" in vars {
      MappedSettingHolds(t, vars, convert, LOG_FILE_ENTRY);
    } else if p == STORE_PATH && "EVENTS_STORE_PATH" in vars {
      MappedSettingHolds(t, vars, convert, STORE_PATH_ENTRY);
    } else {
      forall j | 0 <= j < |ENV_MAPPING| && ENV_MAPPING[j].0 in vars ensures Apart(ENV_MAPPING[j].1, p) {
        MappedApartFromOther(j, p);
      }
      MappedKeepsOthers(t, vars, convert, p);
    }
  }

  lemma OverriddenMappings()
    ensures ENV_MAPPING[LOG_FILE_ENTRY] == ("LOG_FILE", LOG_FILE_PATH)
    ensures ENV_MAPPING[STORE_PATH_ENTRY] == ("EVENTS_STORE_PATH", STORE_PATH)
    ensures LOG_FILE_PATH != STORE_PATH
  {
    PathsIndexed();
  }

  lemma MappedApartFromSqlType(j: nat)
    requires j < |ENV_MAPPING|
    ensures Apart(ENV_MAPPING[j].1, SQL_TYPE)
  {
    MappingIndexed(j);
    var q := ENV_MAPPING[j].1;
    assert q[0] != SQL_TYPE[0] by {
      assert |q[0]| == 7 ==> q[0][0] == 'l';
    }
  }

  /** The mapped variables leave the database settings alone. */
  lemma MappedKeepsSql(t: Tree, vars: Environ, convert: string -> Tree)
    ensures var r := WriteAll(t, MappedSettings(vars, convert));
            r.Some? ==> SqlNameFrom(r.value, vars, convert) == SqlNameFrom(t, vars, convert)
  {
    PathsIndexed();
    forall j | 0 <= j < |ENV_MAPPING| && ENV_MAPPING[j].0 in vars
      ensures Apart(ENV_MAPPING[j].1, SQL_NAME) && Apart(ENV_MAPPING[j].1, SQL_TYPE)
    {
      MappedApartFromOther(j, SQL_NAME);
      MappedApartFromSqlType(j);
    }
    MappedKeepsOthers(t, vars, convert, SQL_NAME);
    MappedKeepsOthers(t, vars, convert, SQL_TYPE);
  }

  /** What the overlay leaves at a Host Factory path of a configuration. */
  function Decided(t: Tree, vars: Environ, convert: string -> Tree, p: Path): Found {
    if p == SQL_NAME then SqlNameFrom(t, vars, convert)
    else Assigned(Wanted(vars, convert, p), MappedSource(t, vars, convert, p))
  }

  /** What the first two groups of writes leave there. */
  lemma SettingsDecide(t: Tree, t1: Tree, vars: Environ, convert: string -> Tree, p: Path)
    requires HostFactoryPath(p) && WriteAll(t, MappedSettings(vars, convert)) == Some(t1)
    ensures var r := ApplyAll(t1, HostFactoryOps(vars, convert));
            r.Some? ==> Resolve(r.value, p) == Decided(t, vars, convert, p)
  {
    if p == SQL_NAME {
      MappedKeepsSql(t, vars, convert);
      SqlNameDecided(t1, vars, convert);
    } else {
      MappedDecides(t, vars, convert, p);
      HostFactoryDecides(t1, vars, convert, p);
    }
  }

  /** The precedence behind every setting the Host Factory variables concern: they come first, then the
      mapped variable if there is one, then the files; the database name needs the default storage type. */
  lemma EnvironmentDecides(t: Tree, vars: Environ, order: seq<string>, convert: string -> Tree, p: Path)
    requires (forall n <- order :: n in vars) && HostFactoryPath(p)
    ensures var r := Overlay(t, vars, order, convert);
            r.Some? ==> Resolve(r.value, p) == Decided(t, vars, convert, p)
  {
    if Overlay(t, vars, order, convert).Some? {
      var t1 := WriteAll(t, MappedSettings(vars, convert)).value;
      SettingsDecide(t, t1, vars, convert, p);
      assert IsLower(p[0][0]);
      LegacyKeepsLowerCase(ApplyAll(t1, HostFactoryOps(vars, convert)).value, vars, order, convert, p);
    }
  }
}
