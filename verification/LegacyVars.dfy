/** What the legacy `HF_` variables do, and when their order matters. */
module LegacyVars {
  import opened Wrappers
  import opened Ascii
  import opened LegacyNames
  import opened ConfigTrees
  import opened PathWrites
  import opened WriteOrder
  import opened Assignments
  import opened EnvMapping
  import opened HostFactoryVars
  import opened EnvOverlay
  import opened OverlayFailures

  function LegacySetting(name: string, vars: Environ, convert: string -> Tree): Setting
    requires IsLegacy(name) && name in vars
  {
    Setting(LegacyPath(name), convert(vars[name]))
  }

  function LegacySettings(vars: Environ, order: seq<string>, convert: string -> Tree): (ws: seq<Setting>)
    requires forall n <- order :: n in vars
    ensures forall w <- ws :: w.path != []
    ensures forall w <- ws :: exists n <- order :: IsLegacy(n) && w == LegacySetting(n, vars, convert)
  {
    if order == [] then []
    else
      (if IsLegacy(order[0]) then [LegacySetting(order[0], vars, convert)] else []) +
      LegacySettings(vars, order[1..], convert)
  }

  lemma AsOpsCons(w: Setting, ws: seq<Setting>)
    requires w.path != [] && forall x <- ws :: x.path != []
    ensures AsOps([w] + ws) == [Step(w.path, Always, w.value)] + AsOps(ws)
  {
  }

  /** The legacy writes as settings. */
  lemma {:induction false} LegacyOpsAreSettings(vars: Environ, order: seq<string>, convert: string -> Tree)
    requires forall n <- order :: n in vars
    ensures LegacyOps(vars, order, convert) == AsOps(LegacySettings(vars, order, convert))
    decreases |order|
  {
    if order != [] {
      LegacyOpsAreSettings(vars, order[1..], convert);
      var n, later := order[0], LegacySettings(vars, order[1..], convert);
      if IsLegacy(n) {
        AsOpsCons(LegacySetting(n, vars, convert), later);
      } else {
        assert LegacySettings(vars, order, convert) == later;
      }
    }
  }

  // ----- What a legacy variable decides -----

  /** No other legacy variable is written at, above or below the path of this one. */
  predicate StandsAlone(name: string, order: seq<string>)
    requires IsLegacy(name)
  {
    forall m <- order :: IsLegacy(m) && m != name ==> Apart(LegacyPath(m), LegacyPath(name))
  }

  lemma {:induction false} LegacyValue(vars: Environ, order: seq<string>, convert: string -> Tree, name: string)
    requires (forall n <- order :: n in vars) && IsLegacy(name) && StandsAlone(name, order)
    ensures ValueFor(LegacyOps(vars, order, convert), LegacyPath(name)) ==
            if name in order then Some(convert(vars[name])) else None
    decreases |order|
  {
    if order != [] {
      var n := order[0];
      LegacyValue(vars, order[1..], convert, name);
      var first := if IsLegacy(n) then [Step(LegacyPath(n), Always, convert(vars[n]))] else [];
      ValueForConcat(first, LegacyOps(vars, order[1..], convert), LegacyPath(name));
      if IsLegacy(n) && n != name {
        NotApartFromItself(LegacyPath(name));
      }
      assert first != [] ==> first[1..] == [];
    }
  }

  lemma {:induction false} LegacyApart(vars: Environ, order: seq<string>, convert: string -> Tree, name: string)
    requires (forall n <- order :: n in vars) && IsLegacy(name) && StandsAlone(name, order)
    ensures forall o <- LegacyOps(vars, order, convert) ::
              o.guard == Always && (o.path == LegacyPath(name) || Apart(o.path, LegacyPath(name)))
    decreases |order|
  {
    if order != [] {
      LegacyApart(vars, order[1..], convert, name);
    }
  }

  /** A legacy variable whose path no other one extends, equals or is a prefix of, has its converted value
      there after the whole overlay, whatever the files and the other variables say. */
  lemma LegacyVariableWins(t: Tree, vars: Environ, order: seq<string>, convert: string -> Tree, name: string)
    requires (forall n <- order :: n in vars) && name in order && IsLegacy(name) && StandsAlone(name, order)
    ensures var r := Overlay(t, vars, order, convert);
            r.Some? ==> Resolve(r.value, LegacyPath(name)) == At(convert(vars[name]))
  {
    OverlayEndsWithLegacy(t, vars, order, convert);
    if Overlay(t, vars, order, convert).Some? {
      LegacyApart(vars, order, convert, name);
      LegacyValue(vars, order, convert, name);
      ApplyAllReads(WithSettings(t, vars, convert).value, LegacyOps(vars, order, convert), LegacyPath(name));
    }
  }

  /** The same by the name as it is spelled: what follows `HF_`, in upper case, cut at the double underscores. */
  lemma LegacyVariableIsAt(t: Tree, vars: Environ, order: seq<string>, convert: string -> Tree,
                           rest: string, upper: string, path: Path)
    requires var name := "HF_" + rest;
             (forall n <- order :: n in vars) && name in order && IsLegacy(name) && StandsAlone(name, order)
    requires |upper| == |rest|
    requires forall i :: 0 <= i < |rest| ==>
               upper[i] as int == rest[i] as int - if 97 <= rest[i] as int <= 122 then 32 else 0
    requires IsSplit(path, upper)
    ensures var r := Overlay(t, vars, order, convert);
            r.Some? ==> Resolve(r.value, path) == At(convert(vars["HF_" + rest]))
  {
    LegacyPathIs(rest, upper, path);
    LegacyVariableWins(t, vars, order, convert, "HF_" + rest);
  }

  lemma LegacyPathIs(rest: string, upper: string, path: Path)
    requires IsLegacy("HF_" + rest) && |upper| == |rest| && IsSplit(path, upper)
    requires forall i :: 0 <= i < |rest| ==>
               upper[i] as int == rest[i] as int - if 97 <= rest[i] as int <= 122 then 32 else 0
    ensures LegacyPath("HF_" + rest) == path
  {
    assert ("HF_" + rest)[3..] == rest;
    forall i | 0 <= i < |rest| ensures upper[i] == Upper(rest)[i] {
      CasesInPlace(rest, i);
    }
    assert upper == Upper(rest);
    SplitDoubleIsTheOnly(path, upper);
  }

  /** The legacy variables by name. */
  lemma LegacyNamesAre(name: string)
    ensures IsLegacy(name) <==>
            && |name| >= 3 && name[..3] == "HF_"
            && name != "HF_PROVIDER_WORKDIR" && name != "HF_PROVIDER_LOGDIR" && name != "HF_PROVIDER_CONFDIR"
            && name != "HF_PROVIDER_EVENTSDIR" && name != "HF_PROVIDER_SNAPSHOTSDIR" && name != "HF_PROVIDER_NAME"
            && name != "HF_TEMPLATE_AMI_RESOLUTION_ENABLED"
            && name != "HF_TEMPLATE_AMI_RESOLUTION_FALLBACK_ON_FAILURE"
            && name != "HF_TEMPLATE_AMI_RESOLUTION_CACHE_FILE"
  {
  }

  /** A name without a double underscore goes to one root key. */
  lemma LegacyRootKey(upper: string)
    requires NoDouble(upper)
    ensures IsSplit([upper], upper)
  {
  }

  // ----- Their order -----

  lemma {:induction false} LegacyConcat(vars: Environ, a: seq<string>, b: seq<string>, convert: string -> Tree)
    requires (forall n <- a :: n in vars) && (forall n <- b :: n in vars)
    ensures forall n <- a + b :: n in vars
    ensures LegacySettings(vars, a + b, convert) == LegacySettings(vars, a, convert) + LegacySettings(vars, b, convert)
    decreases |a|
  {
    if a == [] {
      assert a + b == b;
    } else {
      assert (a + b)[0] == a[0] && (a + b)[1..] == a[1..] + b;
      LegacyConcat(vars, a[1..], b, convert);
    }
  }

  /** The environment in another order gives the settings in another order. */
  lemma {:induction false} LegacyPermuted(vars: Environ, a: seq<string>, b: seq<string>, convert: string -> Tree)
    requires (forall n <- a :: n in vars) && (forall n <- b :: n in vars) && multiset(a) == multiset(b)
    ensures multiset(LegacySettings(vars, a, convert)) == multiset(LegacySettings(vars, b, convert))
    decreases |a|
  {
    if a == [] {
      assert |b| == |multiset(b)| == 0;
    } else {
      var i := Extract(a, b);
      var pre, post := b[..i], b[i + 1..];
      assert b == pre + [a[0]] + post && a == [] + [a[0]] + a[1..] && [] + a[1..] == a[1..];
      LegacyPermuted(vars, a[1..], pre + post, convert);
      LegacyInsert(vars, pre, a[0], post, convert);
      LegacyInsert(vars, [], a[0], a[1..], convert);
    }
  }

  lemma LegacyInsert(vars: Environ, pre: seq<string>, n: string, post: seq<string>, convert: string -> Tree)
    requires n in vars && (forall m <- pre :: m in vars) && (forall m <- post :: m in vars)
    ensures forall m <- pre + [n] + post :: m in vars
    ensures multiset(LegacySettings(vars, pre + [n] + post, convert)) ==
            multiset(LegacySettings(vars, [n], convert)) + multiset(LegacySettings(vars, pre + post, convert))
  {
    LegacyConcat(vars, pre, [n], convert);
    LegacyConcat(vars, pre + [n], post, convert);
    LegacyConcat(vars, pre, post, convert);
  }

  /** Every legacy variable stands alone, and the environment holds it once. */
  ghost predicate AllAlone(order: seq<string>) {
    forall i, j :: 0 <= i < j < |order| && IsLegacy(order[i]) && IsLegacy(order[j]) ==>
      Apart(LegacyPath(order[i]), LegacyPath(order[j]))
  }

  lemma {:induction false} LegacyPairwiseApart(vars: Environ, order: seq<string>, convert: string -> Tree)
    requires (forall n <- order :: n in vars) && AllAlone(order)
    ensures PairwiseApart(LegacySettings(vars, order, convert))
    decreases |order|
  {
    if order != [] {
      var ws := LegacySettings(vars, order[1..], convert);
      LegacyPairwiseApart(vars, order[1..], convert);
      if IsLegacy(order[0]) {
        forall w | w in ws ensures Apart(LegacyPath(order[0]), w.path) {
          var n :| n in order[1..] && IsLegacy(n) && w == LegacySetting(n, vars, convert);
          var j :| 1 <= j < |order| && order[j] == n;
        }
      }
    }
  }

  /** While no legacy path equals or extends another, the order of the environment does not matter. */
  lemma LegacyOrderIrrelevant(t: Tree, vars: Environ, a: seq<string>, b: seq<string>, convert: string -> Tree)
    requires (forall n <- a :: n in vars) && (forall n <- b :: n in vars) && multiset(a) == multiset(b) && AllAlone(a)
    ensures Overlay(t, vars, a, convert) == Overlay(t, vars, b, convert)
  {
    OverlayEndsWithLegacy(t, vars, a, convert);
    OverlayEndsWithLegacy(t, vars, b, convert);
    var r := WithSettings(t, vars, convert);
    if r.Some? {
      LegacyRunsAgree(r.value, vars, a, b, convert);
    }
  }

  lemma OverlayEndsWithLegacy(t: Tree, vars: Environ, order: seq<string>, convert: string -> Tree)
    requires forall n <- order :: n in vars
    ensures var r := WithSettings(t, vars, convert);
            Overlay(t, vars, order, convert) ==
            if r.None? then None else ApplyAll(r.value, LegacyOps(vars, order, convert))
  {
  }

  lemma LegacyRunsAgree(t: Tree, vars: Environ, a: seq<string>, b: seq<string>, convert: string -> Tree)
    requires (forall n <- a :: n in vars) && (forall n <- b :: n in vars) && multiset(a) == multiset(b) && AllAlone(a)
    ensures ApplyAll(t, LegacyOps(vars, a, convert)) == ApplyAll(t, LegacyOps(vars, b, convert))
  {
    LegacyPermuted(vars, a, b, convert);
    LegacyPairwiseApart(vars, a, convert);
    LegacyRun(t, vars, a, convert);
    LegacyRun(t, vars, b, convert);
    WriteOrderIrrelevant(t, LegacySettings(vars, a, convert), LegacySettings(vars, b, convert));
  }

  lemma LegacyRun(t: Tree, vars: Environ, order: seq<string>, convert: string -> Tree)
    requires forall n <- order :: n in vars
    ensures ApplyAll(t, LegacyOps(vars, order, convert)) == WriteAll(t, LegacySettings(vars, order, convert))
  {
    LegacyOpsAreSettings(vars, order, convert);
    ApplyAllAlways(t, LegacySettings(vars, order, convert));
  }

  /** For two legacy variables it matters exactly when their writes do not commute. */
  lemma LegacyPairOrderIff(t: Tree, vars: Environ, m: string, n: string, convert: string -> Tree)
    requires m in vars && n in vars && IsLegacy(m) && IsLegacy(n)
    ensures ApplyAll(t, LegacyOps(vars, [m, n], convert)) == ApplyAll(t, LegacyOps(vars, [n, m], convert)) <==>
            Commute(t, LegacySetting(m, vars, convert), LegacySetting(n, vars, convert))
  {
    PairRun(t, vars, m, n, convert);
    PairRun(t, vars, n, m, convert);
  }

  lemma PairRun(t: Tree, vars: Environ, m: string, n: string, convert: string -> Tree)
    requires m in vars && n in vars && IsLegacy(m) && IsLegacy(n)
    ensures ApplyAll(t, LegacyOps(vars, [m, n], convert)) ==
            WriteSetting(WriteSetting(Some(t), LegacySetting(m, vars, convert)), LegacySetting(n, vars, convert))
  {
    var u, w := LegacySetting(m, vars, convert), LegacySetting(n, vars, convert);
    LegacyOpsAreSettings(vars, [m, n], convert);
    assert [m, n][1..] == [n] && [n][1..] == [];
    assert LegacySettings(vars, [n], convert) == [w];
    assert LegacySettings(vars, [m, n], convert) == [u, w];
    ApplyAllAlways(t, [u, w]);
    assert [u, w][1..] == [w];
    if Write(t, u.path, u.value).Some? {
      WriteOne(Write(t, u.path, u.value).value, w);
    }
  }

  /** Two variables whose names differ in case only go to one path, so the later one decides. */
  lemma CaseClash(vars: Environ, convert: string -> Tree)
    requires "HF_A" in vars && "HF_a" in vars && convert(vars["HF_A"]) != convert(vars["HF_a"])
    ensures ApplyAll(EMPTY, LegacyOps(vars, ["HF_A", "HF_a"], convert)) !=
            ApplyAll(EMPTY, LegacyOps(vars, ["HF_a", "HF_A"], convert))
  {
    ClashPaths();
    assert Resolve(EMPTY, ["A"]) == Missing;
    SamePathCommuteIff(EMPTY, ["A"], convert(vars["HF_A"]), convert(vars["HF_a"]));
    LegacyPairOrderIff(EMPTY, vars, "HF_A", "HF_a", convert);
  }

  lemma ClashPaths()
    ensures IsLegacy("HF_A") && IsLegacy("HF_a")
    ensures LegacyPath("HF_A") == LegacyPath("HF_a") == ["A"]
  {
    assert "HF_A"[3..] == "A" && "HF_a"[3..] == "a";
    assert Upper("A") == "A" && Upper("a") == "A";
    assert "A"[1..] == "";
    assert SplitDouble("") == [""];
    assert ['A'] + "" == "A" && [""][1..] == [];
    assert !("__" <= "A");
    assert SplitDouble("A") == ["A"];
    assert |"HF_A"| == 4;
  }
}
