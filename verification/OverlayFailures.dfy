/** When laying the environment over a configuration raises. */
module OverlayFailures {
  import opened Wrappers
  import opened Ascii
  import opened ConfigTrees
  import opened PathWrites
  import opened Assignments
  import opened EnvMapping
  import opened HostFactoryVars
  import opened EnvOverlay

  // ----- The mapped and the Host Factory writes -----

  /** The writes before the legacy ones. */
  function SettingOps(vars: Environ, convert: string -> Tree): seq<Op> {
    AsOps(MappedSettings(vars, convert)) + HostFactoryOps(vars, convert)
  }

  /** Where they go: to a path of the table, or to one of the Host Factory's. */
  ghost predicate SettingPath(p: Path) {
    HostFactoryPath(p) || exists j :: 0 <= j < |ENV_MAPPING| && p == ENV_MAPPING[j].1
  }

  lemma SettingOpsPaths(vars: Environ, convert: string -> Tree)
    ensures forall o <- SettingOps(vars, convert) :: SettingPath(o.path)
  {
    var ws := MappedSettings(vars, convert);
    MappedOnlySet(vars, convert, 0);
    forall o | o in AsOps(ws) ensures SettingPath(o.path) {
      var i :| 0 <= i < |ws| && AsOps(ws)[i] == o;
      assert ws[i] in ws && o.path == ws[i].path;
    }
  }

  /** A path of the table is one of the Host Factory's, or apart from all of them. */
  lemma MappedNotNested(j: nat, p: Path)
    requires j < |ENV_MAPPING| && HostFactoryPath(p) && p != ENV_MAPPING[j].1
    ensures Apart(ENV_MAPPING[j].1, p) && Apart(p, ENV_MAPPING[j].1)
  {
    OverriddenMappings();
    MappedApartFromOther(j, p);
    ApartSymmetric(ENV_MAPPING[j].1, p);
  }

  lemma SettingsNotNested(p: Path, q: Path)
    requires SettingPath(p) && SettingPath(q) && p != q
    ensures Apart(p, q)
  {
    if HostFactoryPath(p) && HostFactoryPath(q) {
      PathsApart(p, q);
    } else if HostFactoryPath(p) {
      var j :| 0 <= j < |ENV_MAPPING| && q == ENV_MAPPING[j].1;
      MappedNotNested(j, p);
    } else {
      var i :| 0 <= i < |ENV_MAPPING| && p == ENV_MAPPING[i].1;
      if HostFactoryPath(q) {
        MappedNotNested(i, q);
      } else {
        var j :| 0 <= j < |ENV_MAPPING| && q == ENV_MAPPING[j].1;
        MappingApart(i, j);
      }
    }
  }

  /** The configuration after the mapped and the Host Factory writes; `None` when one of them raises. */
  function WithSettings(t: Tree, vars: Environ, convert: string -> Tree): Option<Tree> {
    var r := WriteAll(t, MappedSettings(vars, convert));
    if r.None? then None else ApplyAll(r.value, HostFactoryOps(vars, convert))
  }

  /** They raise exactly when the configuration blocks a path that is written. */
  lemma SettingsFailIff(t: Tree, vars: Environ, convert: string -> Tree)
    ensures WithSettings(t, vars, convert) == ApplyAll(t, SettingOps(vars, convert))
    ensures WithSettings(t, vars, convert).None? <==>
            exists o <- SettingOps(vars, convert) :: Resolve(t, o.path) == Blocked
  {
    var ws, ops := MappedSettings(vars, convert), SettingOps(vars, convert);
    ApplyAllAlways(t, ws);
    ApplyAllSplit(t, AsOps(ws), HostFactoryOps(vars, convert));
    SettingOpsPaths(vars, convert);
    forall o, x | o in ops && x in ops && o.path != x.path ensures Apart(o.path, x.path) {
      SettingsNotNested(o.path, x.path);
    }
    ApplyAllFailsIff(t, ops);
  }

  // ----- The legacy writes -----

  /** Two configurations hold the same under every key without a lower-case letter. */
  ghost predicate SameUpper(t: Tree, u: Tree) {
    t.Dict? && u.Dict? &&
    forall k: string :: !HasLower(k) ==>
      (k in t.entries <==> k in u.entries) && (k in t.entries ==> t.entries[k] == u.entries[k])
  }

  lemma {:induction false} LegacyAgrees(t: Tree, u: Tree, ops: seq<Op>)
    requires SameUpper(t, u) && forall o <- ops :: o.guard == Always && !HasLower(o.path[0])
    ensures ApplyAll(t, ops).None? <==> ApplyAll(u, ops).None?
    decreases |ops|
  {
    if ops != [] {
      var o := ops[0];
      var t', u' := Apply(t, o.path, o.guard, o.value), Apply(u, o.path, o.guard, o.value);
      assert !HasLower(o.path[0]);
      if t'.Some? && u'.Some? {
        LegacyAgrees(t'.value, u'.value, ops[1..]);
      }
    }
  }

  lemma {:induction false} SettingsKeepUpper(t: Tree, ops: seq<Op>)
    requires t.Dict? && forall o <- ops :: HasLower(o.path[0])
    ensures ApplyAll(t, ops).Some? ==> SameUpper(t, ApplyAll(t, ops).value)
    decreases |ops|
  {
    if ops != [] {
      var o := ops[0];
      var t' := Apply(t, o.path, o.guard, o.value);
      assert HasLower(o.path[0]);
      if t'.Some? {
        SettingsKeepUpper(t'.value, ops[1..]);
      }
    }
  }

  lemma SettingPathsAreLower(p: Path)
    requires SettingPath(p)
    ensures p != [] && HasLower(p[0])
  {
    if HostFactoryPath(p) {
      assert IsLower(p[0][0]);
    } else {
      var j :| 0 <= j < |ENV_MAPPING| && p == ENV_MAPPING[j].1;
      MappedLowerCase(j);
    }
  }

  lemma LegacyPathsAreUpper(vars: Environ, order: seq<string>, convert: string -> Tree)
    requires forall n <- order :: n in vars
    ensures forall o <- LegacyOps(vars, order, convert) :: o.guard == Always && !HasLower(o.path[0])
  {
    forall o | o in LegacyOps(vars, order, convert) ensures !HasLower(o.path[0]) {
      assert o.path[0] in o.path;
    }
  }

  /** The whole overlay raises exactly when the files block a path that a mapped or a Host Factory variable
      writes, or the legacy variables alone would raise on the files. */
  lemma OverlayFailsIff(t: Tree, vars: Environ, order: seq<string>, convert: string -> Tree)
    requires t.Dict? && forall n <- order :: n in vars
    ensures Overlay(t, vars, order, convert).None? <==>
            || (exists o <- SettingOps(vars, convert) :: Resolve(t, o.path) == Blocked)
            || ApplyAll(t, LegacyOps(vars, order, convert)).None?
  {
    SettingsFailIff(t, vars, convert);
    var r := WithSettings(t, vars, convert);
    if r.Some? {
      SettingOpsPaths(vars, convert);
      forall o | o in SettingOps(vars, convert) ensures HasLower(o.path[0]) {
        SettingPathsAreLower(o.path);
      }
      SettingsKeepUpper(t, SettingOps(vars, convert));
      LegacyPathsAreUpper(vars, order, convert);
      LegacyAgrees(t, r.value, LegacyOps(vars, order, convert));
    }
  }
}
