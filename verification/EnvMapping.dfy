/** The environment variables that are mapped to settings, by table. */
module EnvMapping {
  import opened Wrappers
  import opened ConfigTrees
  import opened PathWrites

  const ENV_MAPPING: seq<(string, Path)> := [
    ("AWS_REGION", ["aws", "region"]),
    ("AWS_PROFILE", ["aws", "profile"]),
    ("AWS_ROLE_ARN", ["aws", "role_arn"]),
    ("AWS_ACCESS_KEY_ID", ["aws", "access_key_id"]),
    ("AWS_SECRET_ACCESS_KEY", ["aws", "secret_access_key"]),
    ("AWS_SESSION_TOKEN", ["aws", "session_token"]),
    ("AWS_ENDPOINT_URL", ["aws", "endpoint_url"]),
    ("AWS_CREDENTIAL_FILE", ["aws", "credential_file"]),
    ("AWS_KEY_FILE", ["aws", "key_file"]),
    ("AWS_PROXY_HOST", ["aws", "proxy_host"]),
    ("AWS_PROXY_PORT", ["aws", "proxy_port"]),
    ("AWS_CONNECTION_TIMEOUT_MS", ["aws", "connection_timeout_ms"]),
    ("AWS_REQUEST_RETRY_ATTEMPTS", ["aws", "request_retry_attempts"]),
    ("AWS_INSTANCE_PENDING_TIMEOUT_SEC", ["aws", "instance_pending_timeout_sec"]),
    ("AWS_DESCRIBE_REQUEST_RETRY_ATTEMPTS", ["aws", "describe_request_retry_attempts"]),
    ("AWS_DESCRIBE_REQUEST_INTERVAL", ["aws", "describe_request_interval"]),
    ("LOG_LEVEL", ["logging", "level"]),
    ("LOG_FILE", ["logging", "file_path"]),
    ("LOG_CONSOLE_ENABLED", ["logging", "console_enabled"]),
    ("ACCEPT_PROPAGATED_LOG_SETTING", ["logging", "accept_propagated_setting"]),
    ("EVENTS_STORE_TYPE", ["events", "store_type"]),
    ("EVENTS_STORE_PATH", ["events", "store_path"]),
    ("EVENTS_PUBLISHER_TYPE", ["events", "publisher_type"]),
    ("EVENTS_ENABLE_LOGGING", ["events", "enable_logging"]),
    ("ENVIRONMENT", ["environment"]),
    ("DEBUG", ["debug"]),
    ("REQUEST_TIMEOUT", ["request_timeout"]),
    ("MAX_MACHINES_PER_REQUEST", ["max_machines_per_request"])
  ]

  /** Position of a mapped path in the table, told from lengths and single characters. */
  function MappedIndex(p: Path): int {
    if |p| == 1 then
      match |p[0]| case 11 => 24 case 5 => 25 case 15 => 26 case 24 => 27 case _ => -1
    else if |p| != 2 || p[1] == "" then -1
    else if |p[0]| == 3 then
      match |p[1]|
      case 6 => 0 case 7 => 1
      case 8 => if p[1][0] == 'r' then 2 else 8
      case 13 => if p[1][0] == 'a' then 3 else 5
      case 17 => 4 case 12 => 6 case 15 => 7
      case 10 => if p[1][6] == 'h' then 9 else 10
      case 21 => 11 case 22 => 12 case 28 => 13 case 31 => 14 case 25 => 15
      case _ => -1
    else if |p[0]| == 7 then
      match |p[1]| case 5 => 16 case 9 => 17 case 15 => 18 case 25 => 19 case _ => -1
    else
      match |p[1]|
      case 10 => if p[1][6] == 't' then 20 else 21
      case 14 => if p[1][0] == 'p' then 22 else 23
      case _ => -1
  }

  lemma MappingIndexed(i: nat)
    requires i < |ENV_MAPPING|
    ensures MappedIndex(ENV_MAPPING[i].1) == i
    ensures if i < 24 then |ENV_MAPPING[i].1| == 2 && |ENV_MAPPING[i].1[0]| in {3, 6, 7}
            else |ENV_MAPPING[i].1| == 1 && |ENV_MAPPING[i].1[0]| in {5, 11, 15, 24}
  {
  }

  /** No mapped path equals or extends another. */
  lemma MappingApart(i: nat, j: nat)
    requires i < |ENV_MAPPING| && j < |ENV_MAPPING| && i != j
    ensures Apart(ENV_MAPPING[i].1, ENV_MAPPING[j].1)
  {
    MappingIndexed(i);
    MappingIndexed(j);
    var p, q := ENV_MAPPING[i].1, ENV_MAPPING[j].1;
    if |p| == |q| == 1 {
      assert p == [p[0]] && q == [q[0]];
    } else if |p| == |q| == 2 {
      assert p == [p[0], p[1]] && q == [q[0], q[1]];
    }
  }

  type Environ = map<string, string>

  /** The assignments of the mapped variables from the `i`th on, in table order. */
  function MappedFrom(vars: Environ, convert: string -> Tree, i: nat): (ws: seq<Setting>)
    requires i <= |ENV_MAPPING|
    ensures forall w <- ws :: exists j :: i <= j < |ENV_MAPPING| && w.path == ENV_MAPPING[j].1
    decreases |ENV_MAPPING| - i
  {
    if i == |ENV_MAPPING| then []
    else
      var (name, path) := ENV_MAPPING[i];
      (if name in vars then [Setting(path, convert(vars[name]))] else []) + MappedFrom(vars, convert, i + 1)
  }

  function MappedSettings(vars: Environ, convert: string -> Tree): (ws: seq<Setting>)
    ensures forall w <- ws :: w.path != []
  {
    var ws := MappedFrom(vars, convert, 0);
    assert forall w <- ws :: w.path != [] by {
      forall w | w in ws ensures w.path != [] {
        var j :| 0 <= j < |ENV_MAPPING| && w.path == ENV_MAPPING[j].1;
        MappingIndexed(j);
      }
    }
    ws
  }

  lemma {:induction false} MappedPairwiseApart(vars: Environ, convert: string -> Tree, i: nat)
    requires i <= |ENV_MAPPING|
    ensures PairwiseApart(MappedFrom(vars, convert, i))
    decreases |ENV_MAPPING| - i
  {
    if i < |ENV_MAPPING| {
      MappedPairwiseApart(vars, convert, i + 1);
      MappingIndexed(i);
      var rest := MappedFrom(vars, convert, i + 1);
      forall w | w in rest ensures Apart(ENV_MAPPING[i].1, w.path) {
        var j :| i + 1 <= j < |ENV_MAPPING| && w.path == ENV_MAPPING[j].1;
        MappingApart(i, j);
      }
    }
  }

  lemma {:induction false} MappedContains(vars: Environ, convert: string -> Tree, i: nat, j: nat)
    requires i <= j < |ENV_MAPPING| && ENV_MAPPING[j].0 in vars
    ensures Setting(ENV_MAPPING[j].1, convert(vars[ENV_MAPPING[j].0])) in MappedFrom(vars, convert, i)
    decreases j - i
  {
    if i < j {
      MappedContains(vars, convert, i + 1, j);
    }
  }

  /** The mapped variables raise exactly when one of their paths is blocked, and otherwise are one deep
      merge exactly when no JSON object among their values meets a dictionary it does not cover. */
  lemma MappedOverlayIsMergeIff(base: Tree, vars: Environ, convert: string -> Tree)
    requires base.Dict?
    ensures var ws := MappedSettings(vars, convert);
            && (WriteAll(base, ws).None? <==> exists w <- ws :: Resolve(base, w.path) == Blocked)
            && (WriteAll(base, ws).Some? ==>
                  (WriteAll(base, ws).value == MergeTree(base, Built(ws)) <==> forall w <- ws :: Absorbs(base, w)))
  {
    var ws := MappedSettings(vars, convert);
    MappedPairwiseApart(vars, convert, 0);
    WriteAllFailsIff(base, ws);
    if WriteAll(base, ws).Some? {
      OverlayIsMergeIff(base, ws);
    }
  }

  /** The order in which the mapped variables are applied never matters. */
  lemma MappedOrderIrrelevant(base: Tree, vars: Environ, convert: string -> Tree, vs: seq<Setting>)
    requires multiset(vs) == multiset(MappedSettings(vars, convert))
    ensures forall v <- vs :: v.path != []
    ensures WriteAll(base, vs) == WriteAll(base, MappedSettings(vars, convert))
  {
    MappedPairwiseApart(vars, convert, 0);
    WriteOrderIrrelevant(base, MappedSettings(vars, convert), vs);
  }

  /** The family where the overlay is not a merge is inhabited: one variable with a JSON object replaces a
      whole dictionary of the files. */
  lemma MappedOverlayNotAlwaysMerge(convert: string -> Tree) returns (base: Tree, vars: Environ)
    requires convert("{}") == EMPTY
    ensures base.Dict? && vars == map["AWS_REGION" := "{}"]
    ensures var ws := MappedSettings(vars, convert);
            && (forall w <- ws :: w.path != [])
            && WriteAll(base, ws).Some?
            && WriteAll(base, ws).value != MergeTree(base, Built(ws))
  {
    vars := map["AWS_REGION" := "{}"];
    var region := Dict(map["name" := Text("x")]);
    base := Dict(map["aws" := Dict(map["region" := region])]);
    var ws := MappedSettings(vars, convert);
    MappedOnlyRegion(vars, convert, 1);
    assert ws == [Setting(["aws", "region"], EMPTY)];
    var w := ws[0];
    assert Resolve(base, w.path) == At(region) by {
      assert w.path[1..] == ["region"];
    }
    assert "name" in region.entries && "name" !in EMPTY.entries;
    assert !Absorbs(base, w);
    MappedOverlayIsMergeIff(base, vars, convert);
  }

  lemma {:induction false} MappedOnlyRegion(vars: Environ, convert: string -> Tree, i: nat)
    requires 1 <= i <= |ENV_MAPPING| && vars.Keys == {"AWS_REGION"}
    ensures MappedFrom(vars, convert, i) == []
    decreases |ENV_MAPPING| - i
  {
    if i < |ENV_MAPPING| {
      NamesDiffer(i);
      MappedOnlyRegion(vars, convert, i + 1);
    }
  }

  lemma NamesDiffer(i: nat)
    requires 1 <= i < |ENV_MAPPING|
    ensures ENV_MAPPING[i].0 != "AWS_REGION"
  {
    assert |ENV_MAPPING[i].0| != |"AWS_REGION"|;
  }

  lemma MappedOnlySet(vars: Environ, convert: string -> Tree, i: nat)
    requires i <= |ENV_MAPPING|
    ensures forall w <- MappedFrom(vars, convert, i) ::
              exists j :: 0 <= j < |ENV_MAPPING| && ENV_MAPPING[j].0 in vars && w.path == ENV_MAPPING[j].1
    decreases |ENV_MAPPING| - i
  {
    if i < |ENV_MAPPING| {
      MappedOnlySet(vars, convert, i + 1);
    }
  }

  /** A mapped variable that is set decides its setting. */
  lemma MappedSettingHolds(t: Tree, vars: Environ, convert: string -> Tree, j: nat)
    requires j < |ENV_MAPPING| && ENV_MAPPING[j].0 in vars
    ensures var r := WriteAll(t, MappedSettings(vars, convert));
            r.Some? ==> Resolve(r.value, ENV_MAPPING[j].1) == At(convert(vars[ENV_MAPPING[j].0]))
  {
    if WriteAll(t, MappedSettings(vars, convert)).Some? {
      MappedPairwiseApart(vars, convert, 0);
      MappedContains(vars, convert, 0, j);
      WriteAllReads(t, MappedSettings(vars, convert));
    }
  }

  /** What stands apart from the paths of all variables that are set stays as it was. */
  lemma MappedKeepsOthers(t: Tree, vars: Environ, convert: string -> Tree, p: Path)
    requires forall j :: 0 <= j < |ENV_MAPPING| && ENV_MAPPING[j].0 in vars ==> Apart(ENV_MAPPING[j].1, p)
    ensures var r := WriteAll(t, MappedSettings(vars, convert));
            r.Some? ==> Resolve(r.value, p) == Resolve(t, p)
  {
    if WriteAll(t, MappedSettings(vars, convert)).Some? {
      MappedPairwiseApart(vars, convert, 0);
      MappedOnlySet(vars, convert, 0);
      WriteAllReads(t, MappedSettings(vars, convert));
    }
  }

  // ----- The table entry by entry -----

  lemma AwsEntries()
    ensures ENV_MAPPING[0] == ("AWS_REGION", ["aws", "region"])
    ensures ENV_MAPPING[1] == ("AWS_PROFILE", ["aws", "profile"])
    ensures ENV_MAPPING[2] == ("AWS_ROLE_ARN", ["aws", "role_arn"])
    ensures ENV_MAPPING[3] == ("AWS_ACCESS_KEY_ID", ["aws", "access_key_id"])
    ensures ENV_MAPPING[4] == ("AWS_SECRET_ACCESS_KEY", ["aws", "secret_access_key"])
    ensures ENV_MAPPING[5] == ("AWS_SESSION_TOKEN", ["aws", "session_token"])
    ensures ENV_MAPPING[6] == ("AWS_ENDPOINT_URL", ["aws", "endpoint_url"])
  {
  }

  lemma SymphonyEntries()
    ensures ENV_MAPPING[7] == ("AWS_CREDENTIAL_FILE", ["aws", "credential_file"])
    ensures ENV_MAPPING[8] == ("AWS_KEY_FILE", ["aws", "key_file"])
    ensures ENV_MAPPING[9] == ("AWS_PROXY_HOST", ["aws", "proxy_host"])
    ensures ENV_MAPPING[10] == ("AWS_PROXY_PORT", ["aws", "proxy_port"])
    ensures ENV_MAPPING[11] == ("AWS_CONNECTION_TIMEOUT_MS", ["aws", "connection_timeout_ms"])
    ensures ENV_MAPPING[12] == ("AWS_REQUEST_RETRY_ATTEMPTS", ["aws", "request_retry_attempts"])
    ensures ENV_MAPPING[13] == ("AWS_INSTANCE_PENDING_TIMEOUT_SEC", ["aws", "instance_pending_timeout_sec"])
    ensures ENV_MAPPING[14] == ("AWS_DESCRIBE_REQUEST_RETRY_ATTEMPTS", ["aws", "describe_request_retry_attempts"])
    ensures ENV_MAPPING[15] == ("AWS_DESCRIBE_REQUEST_INTERVAL", ["aws", "describe_request_interval"])
  {
  }

  lemma LoggingAndEventsEntries()
    ensures ENV_MAPPING[16] == ("LOG_LEVEL", ["logging", "level"])
    ensures ENV_MAPPING[18] == ("LOG_CONSOLE_ENABLED", ["logging", "console_enabled"])
    ensures ENV_MAPPING[19] == ("ACCEPT_PROPAGATED_LOG_SETTING", ["logging", "accept_propagated_setting"])
    ensures ENV_MAPPING[20] == ("EVENTS_STORE_TYPE", ["events", "store_type"])
    ensures ENV_MAPPING[22] == ("EVENTS_PUBLISHER_TYPE", ["events", "publisher_type"])
    ensures ENV_MAPPING[23] == ("EVENTS_ENABLE_LOGGING", ["events", "enable_logging"])
  {
  }

  lemma ApplicationEntries()
    ensures ENV_MAPPING[24] == ("ENVIRONMENT", ["environment"])
    ensures ENV_MAPPING[25] == ("DEBUG", ["debug"])
    ensures ENV_MAPPING[26] == ("REQUEST_TIMEOUT", ["request_timeout"])
    ensures ENV_MAPPING[27] == ("MAX_MACHINES_PER_REQUEST", ["max_machines_per_request"])
  {
  }
}
