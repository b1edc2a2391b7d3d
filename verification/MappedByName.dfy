/** The mapped variables by name: where each is found after the whole overlay. */
module MappedByName {
  import opened Wrappers
  import opened ConfigTrees
  import opened PathWrites
  import opened EnvMapping
  import opened HostFactoryVars
  import opened EnvOverlay

  /** What a variable of the environment does: if it is set, its converted value stands at a path. */
  predicate Sets(name: string, path: Path, vars: Environ, convert: string -> Tree, r: Tree) {
    name in vars ==> Resolve(r, path) == At(convert(vars[name]))
  }

  lemma EntrySets(t: Tree, vars: Environ, order: seq<string>, convert: string -> Tree, r: Tree, j: nat)
    requires (forall n <- order :: n in vars) && Overlay(t, vars, order, convert) == Some(r)
    requires j < |ENV_MAPPING| && j != LOG_FILE_ENTRY && j != STORE_PATH_ENTRY
    ensures Sets(ENV_MAPPING[j].0, ENV_MAPPING[j].1, vars, convert, r)
  {
    if ENV_MAPPING[j].0 in vars {
      MappedApartFromHostFactory(j);
      NotApartFromItself(ENV_MAPPING[j].1);
      MappedVariableWins(t, vars, order, convert, j);
    }
  }

  lemma NamedSets(t: Tree, vars: Environ, order: seq<string>, convert: string -> Tree, r: Tree,
                  j: nat, name: string, path: Path)
    requires (forall n <- order :: n in vars) && Overlay(t, vars, order, convert) == Some(r)
    requires j < |ENV_MAPPING| && j != LOG_FILE_ENTRY && j != STORE_PATH_ENTRY && ENV_MAPPING[j] == (name, path)
    ensures Sets(name, path, vars, convert, r)
  {
    EntrySets(t, vars, order, convert, r, j);
  }

  lemma AwsSettings(t: Tree, vars: Environ, order: seq<string>, convert: string -> Tree, r: Tree)
    requires (forall n <- order :: n in vars) && Overlay(t, vars, order, convert) == Some(r)
    ensures Sets("AWS_REGION", ["aws", "region"], vars, convert, r)
    ensures Sets("AWS_PROFILE", ["aws", "profile"], vars, convert, r)
    ensures Sets("AWS_ROLE_ARN", ["aws", "role_arn"], vars, convert, r)
    ensures Sets("AWS_ACCESS_KEY_ID", ["aws", "access_key_id"], vars, convert, r)
    ensures Sets("AWS_SECRET_ACCESS_KEY", ["aws", "secret_access_key"], vars, convert, r)
    ensures Sets("AWS_SESSION_TOKEN", ["aws", "session_token"], vars, convert, r)
    ensures Sets("AWS_ENDPOINT_URL", ["aws", "endpoint_url"], vars, convert, r)
  {
    AwsEntries();
    NamedSets(t, vars, order, convert, r, 0, "AWS_REGION", ["aws", "region"]);
    NamedSets(t, vars, order, convert, r, 1, "AWS_PROFILE", ["aws", "profile"]);
    NamedSets(t, vars, order, convert, r, 2, "AWS_ROLE_ARN", ["aws", "role_arn"]);
    NamedSets(t, vars, order, convert, r, 3, "AWS_ACCESS_KEY_ID", ["aws", "access_key_id"]);
    NamedSets(t, vars, order, convert, r, 4, "AWS_SECRET_ACCESS_KEY", ["aws", "secret_access_key"]);
    NamedSets(t, vars, order, convert, r, 5, "AWS_SESSION_TOKEN", ["aws", "session_token"]);
    NamedSets(t, vars, order, convert, r, 6, "AWS_ENDPOINT_URL", ["aws", "endpoint_url"]);
  }

  lemma SymphonySettings(t: Tree, vars: Environ, order: seq<string>, convert: string -> Tree, r: Tree)
    requires (forall n <- order :: n in vars) && Overlay(t, vars, order, convert) == Some(r)
    ensures Sets("AWS_CREDENTIAL_FILE", ["aws", "credential_file"], vars, convert, r)
    ensures Sets("AWS_KEY_FILE", ["aws", "key_file"], vars, convert, r)
    ensures Sets("AWS_PROXY_HOST", ["aws", "proxy_host"], vars, convert, r)
    ensures Sets("AWS_PROXY_PORT", ["aws", "proxy_port"], vars, convert, r)
    ensures Sets("AWS_CONNECTION_TIMEOUT_MS", ["aws", "connection_timeout_ms"], vars, convert, r)
    ensures Sets("AWS_REQUEST_RETRY_ATTEMPTS", ["aws", "request_retry_attempts"], vars, convert, r)
    ensures Sets("AWS_INSTANCE_PENDING_TIMEOUT_SEC", ["aws", "instance_pending_timeout_sec"], vars, convert, r)
    ensures Sets("AWS_DESCRIBE_REQUEST_RETRY_ATTEMPTS", ["aws", "describe_request_retry_attempts"], vars, convert, r)
    ensures Sets("AWS_DESCRIBE_REQUEST_INTERVAL", ["aws", "describe_request_interval"], vars, convert, r)
  {
    SymphonyEntries();
    NamedSets(t, vars, order, convert, r, 7, "AWS_CREDENTIAL_FILE", ["aws", "credential_file"]);
    NamedSets(t, vars, order, convert, r, 8, "AWS_KEY_FILE", ["aws", "key_file"]);
    NamedSets(t, vars, order, convert, r, 9, "AWS_PROXY_HOST", ["aws", "proxy_host"]);
    NamedSets(t, vars, order, convert, r, 10, "AWS_PROXY_PORT", ["aws", "proxy_port"]);
    NamedSets(t, vars, order, convert, r, 11, "AWS_CONNECTION_TIMEOUT_MS", ["aws", "connection_timeout_ms"]);
    NamedSets(t, vars, order, convert, r, 12, "AWS_REQUEST_RETRY_ATTEMPTS", ["aws", "request_retry_attempts"]);
    NamedSets(t, vars, order, convert, r, 13, "AWS_INSTANCE_PENDING_TIMEOUT_SEC",
              ["aws", "instance_pending_timeout_sec"]);
    NamedSets(t, vars, order, convert, r, 14, "AWS_DESCRIBE_REQUEST_RETRY_ATTEMPTS",
              ["aws", "describe_request_retry_attempts"]);
    NamedSets(t, vars, order, convert, r, 15, "AWS_DESCRIBE_REQUEST_INTERVAL", ["aws", "describe_request_interval"]);
  }

  lemma LoggingAndEventsSettings(t: Tree, vars: Environ, order: seq<string>, convert: string -> Tree, r: Tree)
    requires (forall n <- order :: n in vars) && Overlay(t, vars, order, convert) == Some(r)
    ensures Sets("LOG_LEVEL", ["logging", "level"], vars, convert, r)
    ensures Sets("LOG_CONSOLE_ENABLED", ["logging", "console_enabled"], vars, convert, r)
    ensures Sets("ACCEPT_PROPAGATED_LOG_SETTING", ["logging", "accept_propagated_setting"], vars, convert, r)
    ensures Sets("EVENTS_STORE_TYPE", ["events", "store_type"], vars, convert, r)
    ensures Sets("EVENTS_PUBLISHER_TYPE", ["events", "publisher_type"], vars, convert, r)
    ensures Sets("EVENTS_ENABLE_LOGGING", ["events", "enable_logging"], vars, convert, r)
  {
    LoggingAndEventsEntries();
    NamedSets(t, vars, order, convert, r, 16, "LOG_LEVEL", ["logging", "level"]);
    NamedSets(t, vars, order, convert, r, 18, "LOG_CONSOLE_ENABLED", ["logging", "console_enabled"]);
    NamedSets(t, vars, order, convert, r, 19, "ACCEPT_PROPAGATED_LOG_SETTING",
              ["logging", "accept_propagated_setting"]);
    NamedSets(t, vars, order, convert, r, 20, "EVENTS_STORE_TYPE", ["events", "store_type"]);
    NamedSets(t, vars, order, convert, r, 22, "EVENTS_PUBLISHER_TYPE", ["events", "publisher_type"]);
    NamedSets(t, vars, order, convert, r, 23, "EVENTS_ENABLE_LOGGING", ["events", "enable_logging"]);
  }

  lemma ApplicationSettings(t: Tree, vars: Environ, order: seq<string>, convert: string -> Tree, r: Tree)
    requires (forall n <- order :: n in vars) && Overlay(t, vars, order, convert) == Some(r)
    ensures Sets("ENVIRONMENT", ["environment"], vars, convert, r)
    ensures Sets("DEBUG", ["debug"], vars, convert, r)
    ensures Sets("REQUEST_TIMEOUT", ["request_timeout"], vars, convert, r)
    ensures Sets("MAX_MACHINES_PER_REQUEST", ["max_machines_per_request"], vars, convert, r)
  {
    ApplicationEntries();
    NamedSets(t, vars, order, convert, r, 24, "ENVIRONMENT", ["environment"]);
    NamedSets(t, vars, order, convert, r, 25, "DEBUG", ["debug"]);
    NamedSets(t, vars, order, convert, r, 26, "REQUEST_TIMEOUT", ["request_timeout"]);
    NamedSets(t, vars, order, convert, r, 27, "MAX_MACHINES_PER_REQUEST", ["max_machines_per_request"]);
  }
}
