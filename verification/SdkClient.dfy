/** The SDK client: one method per registered query or command handler, discovered by name. */
module SdkClient {
  import opened Wrappers
  import opened Ascii
  import opened NameConversion

  /** A registered query or command class. */
  datatype HandlerType = HandlerType(id: nat, className: string)

  datatype Kind = Query | Command

  datatype MethodInfo = MethodInfo(name: string, kind: Kind, original: HandlerType)

  /** The method table: what is callable under each name. */
  type Table = map<string, MethodInfo>

  function Suffix(kind: Kind): string {
    if kind == Query then "Query" else "Command"
  }

  /** The method name of a handler class: its own without the kind's suffix, in snake case. */
  function MethodName(kind: Kind, t: HandlerType): string {
    var n, s := t.className, Suffix(kind);
    CamelToSnake(if |s| <= |n| && n[|n| - |s|..] == s then n[..|n| - |s|] else n)
  }

  /** A class named for its kind gives the positional snake form of what precedes the suffix, once; any
      other class that of its whole name. */
  lemma MethodNameIsPositional(kind: Kind, t: HandlerType, base: string)
    ensures t.className == base + Suffix(kind) ==> MethodName(kind, t) == Snake(base)
    ensures (forall b: string :: t.className != b + Suffix(kind)) ==> MethodName(kind, t) == Snake(t.className)
    ensures kind == Query && t.className == base + "Query" ==> MethodName(kind, t) == Snake(base)
    ensures kind == Command && t.className == base + "Command" ==> MethodName(kind, t) == Snake(base)
  {
    var n, s := t.className, Suffix(kind);
    CamelToSnakeIsPositional(base);
    CamelToSnakeIsPositional(n);
    if n == base + s {
      assert n[..|n| - |s|] == base;
    } else if |s| <= |n| && n[|n| - |s|..] == s {
      assert n == n[..|n| - |s|] + s;
    }
  }

  function Info(kind: Kind, t: HandlerType): MethodInfo {
    MethodInfo(MethodName(kind, t), kind, t)
  }

  function Infos(kind: Kind, ts: seq<HandlerType>): (infos: seq<MethodInfo>)
    ensures |infos| == |ts| && forall i :: 0 <= i < |ts| ==> infos[i] == Info(kind, ts[i])
  {
    seq(|ts|, i requires 0 <= i < |ts| => Info(kind, ts[i]))
  }

  /** The table after some methods have been entered in registration order. */
  function Entered(table: Table, infos: seq<MethodInfo>): Table {
    if infos == [] then table
    else
      var n := |infos| - 1;
      Entered(table, infos[..n])[infos[n].name := infos[n]]
  }

  function Discovered(queries: seq<HandlerType>, commands: seq<HandlerType>): Table {
    Entered(Entered(map[], Infos(Query, queries)), Infos(Command, commands))
  }

  /** The handlers registered for one kind; absent when the registry cannot be read. */
  type Registry = Option<seq<HandlerType>>

  function DiscoveredFrom(queries: Registry, commands: Registry): Option<Table> {
    if queries.Some? && commands.Some? then Some(Discovered(queries.value, commands.value)) else None
  }

  /** The position of the last method with a name. */
  function LastNamed(infos: seq<MethodInfo>, name: string): (r: Option<nat>)
    ensures r.Some? ==> r.value < |infos| && infos[r.value].name == name
    ensures forall j :: (if r.Some? then r.value + 1 else 0) <= j < |infos| ==> infos[j].name != name
    decreases |infos|
  {
    if infos == [] then None
    else
      var n := |infos| - 1;
      if infos[n].name == name then Some(n)
      else
        assert forall j :: 0 <= j < n ==> infos[..n][j] == infos[j];
        LastNamed(infos[..n], name)
  }

  lemma {:induction false} EnteredAt(table: Table, infos: seq<MethodInfo>, name: string)
    ensures var t, last := Entered(table, infos), LastNamed(infos, name);
            if last.Some? then name in t && t[name] == infos[last.value]
            else (name in t <==> name in table) && (name in t ==> t[name] == table[name])
    decreases |infos|
  {
    if infos != [] {
      EnteredAt(table, infos[..|infos| - 1], name);
    }
  }

  lemma EnteredOneMore(table: Table, infos: seq<MethodInfo>, i: nat)
    requires i < |infos|
    ensures Entered(table, infos[..i + 1]) == Entered(table, infos[..i])[infos[i].name := infos[i]]
  {
    assert infos[..i + 1][..i] == infos[..i];
  }

  /** A name is in the table exactly when some handler has it; commands win over queries, and among the
      handlers of the winning kind the one registered last. */
  lemma DiscoveredAt(queries: seq<HandlerType>, commands: seq<HandlerType>, name: string)
    ensures var d := Discovered(queries, commands);
            var c, q := LastNamed(Infos(Command, commands), name), LastNamed(Infos(Query, queries), name);
            if c.Some? then name in d && d[name] == Info(Command, commands[c.value])
            else if q.Some? then name in d && d[name] == Info(Query, queries[q.value])
            else name !in d
    ensures name in Discovered(queries, commands) ==>
              var info := Discovered(queries, commands)[name];
              && info.name == name
              && (if exists t <- commands :: MethodName(Command, t) == name then
                    info.kind == Command && info.original in commands
                  else
                    info.kind == Query && info.original in queries)
  {
    NamedByAll(commands, name);
    EnteredAt(map[], Infos(Query, queries), name);
    EnteredAt(Entered(map[], Infos(Query, queries)), Infos(Command, commands), name);
  }

  /** A kind in which no handler has the name. */
  lemma NamedByAll(ts: seq<HandlerType>, name: string)
    ensures LastNamed(Infos(Command, ts), name).None? ==> forall t <- ts :: MethodName(Command, t) != name
  {
    var infos := Infos(Command, ts);
    forall i | 0 <= i < |ts| ensures infos[i].name == MethodName(Command, ts[i]) {
      assert infos[i] == Info(Command, ts[i]);
    }
  }

  class MethodDiscovery {
    var infoCache: Table

    constructor ()
      ensures infoCache == map[]
    {
      infoCache := map[];
    }

    /** Enter every registered handler; `None` is the error when a registry cannot be read. */
    method DiscoverCqrsMethods(queries: Registry, commands: Registry) returns (methods: Option<Table>)
      modifies this
      ensures methods == DiscoveredFrom(queries, commands)
      ensures infoCache == Entered(Entered(old(infoCache), Infos(Query, queries.GetOr([]))),
                                   Infos(Command, if queries.Some? then commands.GetOr([]) else []))
    {
      var table: Table := map[];
      if queries.None? {
        return None;
      }
      table := EnterAll(table, Query, queries.value);
      if commands.None? {
        return None;
      }
      table := EnterAll(table, Command, commands.value);
      methods := Some(table);
    }

    /** One of the two loops, over the handlers of one kind. */
    method EnterAll(before: Table, kind: Kind, ts: seq<HandlerType>) returns (table: Table)
      modifies this
      ensures table == Entered(before, Infos(kind, ts))
      ensures infoCache == Entered(old(infoCache), Infos(kind, ts))
    {
      table := before;
      ghost var infos := Infos(kind, ts);
      for i := 0 to |ts|
        invariant table == Entered(before, infos[..i])
        invariant infoCache == Entered(old(infoCache), infos[..i])
      {
        EnteredOneMore(before, infos, i);
        EnteredOneMore(old(infoCache), infos, i);
        table := Enter(table, Info(kind, ts[i]));
      }
      assert infos[..|ts|] == infos;
    }

    method Enter(before: Table, info: MethodInfo) returns (table: Table)
      modifies this
      ensures table == before[info.name := info] && infoCache == old(infoCache)[info.name := info]
    {
      infoCache := infoCache[info.name := info];
      table := before[info.name := info];
    }
  }

  // ----- The client -----

  /** The class's own properties, which cannot be assigned. */
  const PROPERTIES: set<string> := {"provider", "initialized", "config"}

  /** All public attributes of the class. */
  const CLASS_ATTRIBUTES: set<string> := PROPERTIES + {
    "initialize", "cleanup", "list_available_methods", "get_method_info", "get_methods_by_type", "get_stats"
  }

  /** The table can be installed: no method has the name of a property. */
  predicate Installable(t: Table) {
    t.Keys !! PROPERTIES
  }

  /** The attributes by name. */
  lemma ClassAttributesAre(t: Table, n: string)
    ensures Installable(t) <==> "provider" !in t && "initialized" !in t && "config" !in t
    ensures n in CLASS_ATTRIBUTES <==>
            || n == "provider" || n == "initialized" || n == "config" || n == "initialize" || n == "cleanup"
            || n == "list_available_methods" || n == "get_method_info" || n == "get_methods_by_type" || n == "get_stats"
  {
  }

  /** The registered handlers cannot be installed. */
  predicate Clashes(queries: Registry, commands: Registry) {
    var found := DiscoveredFrom(queries, commands);
    found.Some? && !Installable(found.value)
  }

  lemma EmptyInstalls()
    ensures Installable(map[])
  {
  }

  /** A query handler whose method cannot be installed. */
  lemma ProviderQueryClashes(id: nat)
    ensures !Installable(Discovered([HandlerType(id, "ProviderQuery")], []))
  {
    var t := HandlerType(id, "ProviderQuery");
    ProviderQueryName(t);
    OnlyQuery(t);
    assert "provider" in PROPERTIES;
  }

  lemma ProviderQueryName(t: HandlerType)
    requires t.className == "ProviderQuery"
    ensures MethodName(Query, t) == "provider"
  {
    assert t.className == "Provider" + Suffix(Query);
    MethodNameIsPositional(Query, t, "Provider");
    SnakeOfProvider();
  }

  /** The only handler there is, is offered. */
  lemma OnlyQuery(t: HandlerType)
    ensures MethodName(Query, t) in Discovered([t], [])
  {
    var name := MethodName(Query, t);
    assert Infos(Query, [t])[0] == Info(Query, t);
    DiscoveredAt([t], [], name);
  }

  lemma SnakeOfProvider()
    ensures Snake("Provider") == "provider"
  {
    BrokenLower("Provider", 1, 8);
    assert Broken("Provider", 0) == ['P'] + Broken("Provider", 1);
    assert Broken("Provider", 0) == "Provider";
    assert Lower("Provider") == "provider";
  }

  /** The attributes after all methods but those in `todo` have been assigned. */
  function Installed(attributes: Table, methods: Table, todo: set<string>): Table {
    attributes + (methods - todo)
  }

  lemma InstalledOneMore(attributes: Table, methods: Table, todo: set<string>, n: string)
    requires n in todo && n in methods
    ensures Installed(attributes, methods, todo - {n}) == Installed(attributes, methods, todo)[n := methods[n]]
  {
  }

  lemma NoneInstalled(attributes: Table, methods: Table, todo: set<string>)
    requires todo == methods.Keys
    ensures Installed(attributes, methods, todo) == attributes
  {
    assert methods - todo == map[];
  }

  lemma AllInstalled(attributes: Table, methods: Table, todo: set<string>)
    requires todo == {}
    ensures Installed(attributes, methods, todo) == attributes + methods
  {
    assert methods - todo == methods;
  }

  class Sdk {
    var discovery: MethodDiscovery?
    var methods: Table
    /** The attributes added to the instance. */
    var attributes: Table
    var initialized: bool

    /** While initialised the method table, the discovery cache and the attributes agree; otherwise there
        are no methods and no attributes. */
    ghost predicate Valid()
      reads this, discovery
    {
      if initialized then
        discovery != null && methods == attributes == discovery.infoCache && Installable(methods)
      else
        methods == attributes == map[]
    }

    constructor ()
      ensures Valid() && !initialized && discovery == null
    {
      discovery, methods, attributes, initialized := null, map[], map[], false;
    }

    /** `appStarts` and `hasBuses` say whether the application comes up and offers its buses.  An error is
        raised when it does not, when a registry cannot be read, or when a property is in the way. */
    method Initialize(appStarts: bool, hasBuses: bool, queries: Registry, commands: Registry) returns (ok: bool)
      modifies this
      ensures old(initialized) ==> ok && methods == old(methods) && discovery == old(discovery)
      ensures old(initialized) ==> attributes == old(attributes)
      ensures var found := DiscoveredFrom(queries, commands);
              !old(initialized) ==> ok == (appStarts && hasBuses && found.Some? && Installable(found.value))
      ensures initialized == ok
      ensures !old(initialized) && ok ==>
                && fresh(discovery) && Some(methods) == DiscoveredFrom(queries, commands)
                && discovery.infoCache == methods && attributes == old(attributes) + methods
      ensures old(Valid()) ==>
                (Valid() <==> old(initialized) || !appStarts || !hasBuses || !Clashes(queries, commands))
    {
      if initialized {
        return true;
      }
      if !appStarts || !hasBuses {
        return false;
      }
      ok := DiscoverAndInstall(queries, commands);
      initialized := ok;
    }

    method DiscoverAndInstall(queries: Registry, commands: Registry) returns (ok: bool)
      modifies this
      ensures initialized == old(initialized)
      ensures var found := DiscoveredFrom(queries, commands);
              && (ok <==> found.Some? && Installable(found.value))
              && methods == (if found.Some? then found.value else old(methods))
              && (found.None? ==> attributes == old(attributes))
      ensures ok ==> fresh(discovery) && discovery.infoCache == methods && attributes == old(attributes) + methods
      ensures Clashes(queries, commands) ==> methods != map[]
    {
      discovery := new MethodDiscovery();
      var found := discovery.DiscoverCqrsMethods(queries, commands);
      if found.None? {
        return false;
      }
      methods := found.value;
      EmptyInstalls();
      ok := AddAttributes();
    }

    /** One `setattr` per method; it raises at the name of a property. */
    method AddAttributes() returns (ok: bool)
      modifies this`attributes
      ensures ok <==> Installable(methods)
      ensures ok ==> attributes == old(attributes) + methods
    {
      var todo := methods.Keys;
      NoneInstalled(attributes, methods, todo);
      while todo != {}
        invariant todo <= methods.Keys && forall n <- methods :: n in todo || n !in PROPERTIES
        invariant attributes == Installed(old(attributes), methods, todo)
        decreases |todo|
      {
        var n :| n in todo;
        if n in PROPERTIES {
          return false;
        }
        InstalledOneMore(old(attributes), methods, todo, n);
        attributes := attributes[n := methods[n]];
        todo := todo - {n};
      }
      AllInstalled(old(attributes), methods, todo);
      ok := true;
    }

    /** Deleting the attribute raises: the class has it, and the instance has none of its own to delete. */
    predicate Undeletable(n: string)
      reads this
    {
      n in PROPERTIES || (n in CLASS_ATTRIBUTES && n !in attributes)
    }

    method Cleanup() returns (ok: bool)
      modifies this
      ensures !initialized && methods == map[] && discovery == old(discovery)
      ensures ok <==> discovery == null || forall n <- discovery.infoCache :: !old(Undeletable(n))
      ensures ok <==> discovery == null || forall n <- discovery.infoCache ::
                n !in PROPERTIES && (n in CLASS_ATTRIBUTES ==> n in old(attributes))
      ensures ok && discovery == null ==> attributes == old(attributes)
      ensures ok && discovery != null ==> attributes == old(attributes) - discovery.infoCache.Keys
      ensures forall n <- attributes :: n in old(attributes)
      ensures old(Valid()) ==> Valid() && (old(initialized) ==> ok)
    {
      initialized := false;
      methods := map[];
      ok := true;
      if discovery != null {
        ok := DeleteAttributes();
      }
    }

    method DeleteAttributes() returns (ok: bool)
      requires discovery != null
      modifies this`attributes
      ensures ok <==> forall n <- discovery.infoCache :: !old(Undeletable(n))
      ensures ok ==> attributes == old(attributes) - discovery.infoCache.Keys
      ensures forall n <- attributes :: n in old(attributes)
    {
      var all := discovery.infoCache.Keys;
      var todo := all;
      while todo != {}
        invariant todo <= all && attributes == old(attributes) - (all - todo)
        invariant forall n <- all - todo :: !old(Undeletable(n))
        decreases |todo|
      {
        var n :| n in todo;
        if n in attributes || n in CLASS_ATTRIBUTES {
          if Undeletable(n) {
            return false;
          }
          attributes := attributes - {n};
        }
        todo := todo - {n};
      }
      ok := true;
    }

    /** `None` is the error raised before initialisation. */
    method ListAvailableMethods() returns (names: Option<set<string>>)
      ensures names == if initialized then Some(methods.Keys) else None
    {
      names := if initialized then Some(methods.Keys) else None;
    }

    method GetMethodsByType(kind: Kind) returns (names: Option<set<string>>)
      ensures names.Some? <==> initialized
      ensures initialized && discovery == null ==> names == Some({})
      ensures initialized && Valid() ==> names == Some(set n | n in attributes && attributes[n].kind == kind)
    {
      if !initialized {
        return None;
      }
      if discovery == null {
        return Some({});
      }
      names := Some(set n | n in discovery.infoCache && discovery.infoCache[n].kind == kind);
    }
  }

  // ----- Runs -----

  datatype Op =
    | Initialize(appStarts: bool, hasBuses: bool, queries: Registry, commands: Registry)
    | Cleanup

  /** The methods in force after some operations, if any are. */
  function Current(ops: seq<Op>): Option<Table> {
    if ops == [] then None
    else
      var before := Current(ops[..|ops| - 1]);
      match ops[|ops| - 1]
      case Cleanup => None
      case Initialize(app, buses, queries, commands) =>
        if before.None? && app && buses then DiscoveredFrom(queries, commands) else before
  }

  predicate NoneClashes(ops: seq<Op>) {
    forall o <- ops :: o.Initialize? ==> !Clashes(o.queries, o.commands)
  }

  /** What a client offers. */
  function Offered(sdk: Sdk): Option<Table>
    reads sdk
  {
    if sdk.initialized then Some(sdk.methods) else None
  }

  /** In every sequence of initialisations and clean-ups in which no handler takes a property's name, the
      client offers exactly the methods of the initialisation in force, under all its views, and none when
      there is none in force. */
  method RunAll(ops: seq<Op>)
    returns (sdk: Sdk, listed: Option<set<string>>, commands: Option<set<string>>, queries: Option<set<string>>)
    ensures NoneClashes(ops) ==> sdk.Valid() && Offered(sdk) == Current(ops)
    ensures NoneClashes(ops) ==> sdk.attributes == Current(ops).GetOr(map[]) && sdk.methods == sdk.attributes
    ensures NoneClashes(ops) ==> listed == match Current(ops) case Some(t) => Some(t.Keys) case None => None
    ensures listed.Some? <==> commands.Some? && queries.Some?
    ensures NoneClashes(ops) && listed.Some? ==>
              commands.value + queries.value == listed.value && commands.value !! queries.value
  {
    sdk := new Sdk();
    for i := 0 to |ops|
      invariant fresh(sdk)
      invariant NoneClashes(ops) ==> sdk.Valid() && Offered(sdk) == Current(ops[..i])
    {
      assert ops[..i + 1][..i] == ops[..i];
      assert ops[i] in ops;
      match ops[i]
      case Initialize(app, buses, qs, cs) =>
        var _ := sdk.Initialize(app, buses, qs, cs);
      case Cleanup =>
        var _ := sdk.Cleanup();
    }
    assert ops[..|ops|] == ops;
    listed := sdk.ListAvailableMethods();
    commands := sdk.GetMethodsByType(Command);
    queries := sdk.GetMethodsByType(Query);
    if NoneClashes(ops) && listed.Some? {
      assert forall n <- listed.value :: sdk.attributes[n].kind == Command || sdk.attributes[n].kind == Query;
    }
  }
}
