/** Loading a configuration: files merged in increasing precedence, then the environment on top,
    all of it in place on one dictionary.
 */
module ConfigLoader {
  import opened Wrappers
  import opened ConfigTrees
  import opened ConfigHeap
  import opened PathWrites
  import opened EnvMapping
  import opened HostFactoryVars
  import opened EnvOverlay
  import opened Assignments
  import opened HeapAssignments

  /** Lay the environment over a configuration. */
  method LoadFromEnv(config: ConfigDict, vars: Environ, order: seq<string>, convert: string -> Tree) returns (ok: bool)
    requires config.Valid() && forall n <- order :: n in vars
    modifies config.repr
    ensures config.Valid() && fresh(config.repr - old(config.repr))
    ensures var r := Overlay(old(Dict(config.model)), vars, order, convert);
            if ok then r == Some(Dict(config.model)) else r == None
  {
    ghost var start := Dict(config.model);
    var ws := MappedSettings(vars, convert);
    ApplyAllAlways(start, ws);
    ok := AssignAll(config, AsOps(ws));
    if ok {
      ok := AssignAll(config, HostFactoryOps(vars, convert));
      if ok {
        ok := AssignAll(config, LegacyOps(vars, order, convert));
      }
    }
  }

  /** The contents of a configuration file, absent when the file is. */
  type File = Option<map<string, Tree>>

  /** What a file contributes to the merge. */
  function Layer(f: File): (layer: Tree)
    ensures layer == match f case Some(entries) => Dict(entries) case None => EMPTY
  {
    Dict(f.GetOr(map[]))
  }

  /** Python's truth of an optional dictionary. */
  predicate Present(f: File) {
    f.Some? && f.value != map[]
  }

  method MergeFile(config: ConfigDict, file: File)
    requires config.Valid()
    modifies config.repr
    ensures config.Valid() && fresh(config.repr - old(config.repr))
    ensures Dict(config.model) == MergeTree(old(Dict(config.model)), Layer(file))
  {
    MergeEmpty(Dict(config.model));
    if Present(file) {
      var parsed := Parse(Dict(file.value));
      MergeConfig(config, parsed.dict);
    }
  }

  /** Load everything.  The merges share objects between the layers, yet the result is the layered tree
      with the environment on top; `None` means an environment write raised. */
  method Load(defaults: File, main: File, explicit: File, vars: Environ, order: seq<string>, convert: string -> Tree)
    returns (config: Option<ConfigDict>)
    requires forall n <- order :: n in vars
    ensures var r := Overlay(Layered(Layer(defaults), Layer(main), Layer(explicit)), vars, order, convert);
            if config.Some? then config.value.Valid() && r == Some(Dict(config.value.model)) else r == None
  {
    var d: ConfigDict;
    if Present(defaults) {
      var parsed := Parse(Dict(defaults.value));
      d := parsed.dict;
    } else {
      d := new ConfigDict();
    }
    MergeFile(d, main);
    MergeFile(d, explicit);
    var ok := LoadFromEnv(d, vars, order, convert);
    config := if ok then Some(d) else None;
  }

  /** The setting at a path that no write of the environment comes near is the one of the highest file
      that decides it. */
  lemma FileSettingSurvives(defaults: File, main: File, explicit: File,
                            vars: Environ, order: seq<string>, convert: string -> Tree, q: Path)
    requires forall n <- order :: n in vars
    requires q != [] && HasLower(q[0])
    requires forall p :: HostFactoryPath(p) ==> Apart(p, q)
    requires forall i :: 0 <= i < |ENV_MAPPING| && ENV_MAPPING[i].0 in vars ==> Apart(ENV_MAPPING[i].1, q)
    ensures var files := Layered(Layer(defaults), Layer(main), Layer(explicit));
            var r := Overlay(files, vars, order, convert);
            r.Some? ==> Resolve(r.value, q) == Resolve(files, q)
  {
    var files := Layered(Layer(defaults), Layer(main), Layer(explicit));
    if Overlay(files, vars, order, convert).Some? {
      MappedKeepsOthers(files, vars, convert, q);
      var t1 := WriteAll(files, MappedSettings(vars, convert)).value;
      HostFactoryKeepsOthers(t1, vars, convert, q);
      LegacyKeepsLowerCase(ApplyAll(t1, HostFactoryOps(vars, convert)).value, vars, order, convert, q);
    }
  }
}
