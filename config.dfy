/**
 * The configuration loader of internal/config/config.go. `LoadConfig` reads
 * JIRA_API_TOKEN and JIRA_USER_EMAIL, collects the names of those that are
 * empty, in that order, and either reports them all in one error or
 * returns both values.
 */
module Config {
  import opened Wrappers
  import opened GoStrings

  const TokenVar: string := "JIRA_API_TOKEN"
  const EmailVar: string := "JIRA_USER_EMAIL"
  const MissingPrefix: string := "missing required environment variables: "

  /** The loaded configuration. */
  datatype Config = Config(apiToken: string, userEmail: string)

  /** os.Getenv against the environment `env`: the value, or "" when the variable is unset. */
  function Getenv(env: map<string, string>, name: string): string
  {
    if name in env then env[name] else ""
  }

  /** The variables LoadConfig requires, in the order it checks them. */
  function Required(): seq<string>
  {
    [TokenVar, EmailVar]
  }

  /** The names among `names` whose value in `env` is empty, in their order. */
  function EmptyAmong(env: map<string, string>, names: seq<string>): (missing: seq<string>)
    ensures |missing| <= |names|
    ensures forall m :: m in missing <==> m in names && Getenv(env, m) == ""
  {
    if names == [] then []
    else (if Getenv(env, names[0]) == "" then [names[0]] else []) + EmptyAmong(env, names[1..])
  }

  /** The names LoadConfig reports as missing. */
  function MissingVars(env: map<string, string>): seq<string>
  {
    EmptyAmong(env, Required())
  }

  /** JIRA_API_TOKEN is listed when empty, then JIRA_USER_EMAIL when empty. */
  lemma MissingVarsCases(env: map<string, string>)
    ensures MissingVars(env)
         == (if Getenv(env, TokenVar) == "" then [TokenVar] else [])
          + (if Getenv(env, EmailVar) == "" then [EmailVar] else [])
  {
    var names := Required();
    assert names[1..] == [EmailVar] && names[1..][1..] == [];
    var email := if Getenv(env, EmailVar) == "" then [EmailVar] else [];
    assert EmptyAmong(env, names[1..]) == email + [];
    assert email + [] == email;
  }

  /** The error text for a non-empty list of missing names. */
  function MissingMessage(missing: seq<string>): string
  {
    MissingPrefix + Join(missing, ", ")
  }

  /**
   * LoadConfig: exactly one of the configuration and the error is present.
   * The error lists the missing names in the fixed order; the configuration
   * carries the two values as read.
   */
  method LoadConfig(env: map<string, string>) returns (cfg: Option<Config>, err: Option<string>)
    ensures cfg.Some? <==> err.None?
    ensures err.None? <==> Getenv(env, TokenVar) != "" && Getenv(env, EmailVar) != ""
    ensures cfg.Some? ==> cfg.value == Config(Getenv(env, TokenVar), Getenv(env, EmailVar))
    ensures err.Some? ==> MissingVars(env) != [] && err.value == MissingMessage(MissingVars(env))
  {
    var missingVars: seq<string> := [];

    var jiraToken := Getenv(env, TokenVar);
    if jiraToken == "" {
      missingVars := missingVars + [TokenVar];
    }

    var userEmail := Getenv(env, EmailVar);
    if userEmail == "" {
      missingVars := missingVars + [EmailVar];
    }

    MissingVarsCases(env);
    if |missingVars| > 0 {
      return None, Some(MissingPrefix + Join(missingVars, ", "));
    }
    return Some(Config(jiraToken, userEmail)), None;
  }

  /**
   * The missing list has at most two names, no repeats, and names
   * JIRA_API_TOKEN before JIRA_USER_EMAIL when both are missing.
   */
  lemma MissingVarsOrdered(env: map<string, string>)
    ensures var missing := MissingVars(env);
      && |missing| <= 2
      && (forall i, j :: 0 <= i < j < |missing| ==> missing[i] != missing[j])
      && (TokenVar in missing && EmailVar in missing ==> missing == [TokenVar, EmailVar])
  {
    MissingVarsCases(env);
  }

  /** The three error texts the tests expect, one per combination of missing variables. */
  lemma MissingMessages()
    ensures MissingMessage([TokenVar]) == "missing required environment variables: JIRA_API_TOKEN"
    ensures MissingMessage([EmailVar]) == "missing required environment variables: JIRA_USER_EMAIL"
    ensures MissingMessage([TokenVar, EmailVar])
         == "missing required environment variables: JIRA_API_TOKEN, JIRA_USER_EMAIL"
  {
    MessageForOne(TokenVar);
    MessageForOne(EmailVar);
    MessageForTwo(TokenVar, EmailVar);
  }

  lemma MessageForOne(name: string)
    ensures MissingMessage([name]) == MissingPrefix + name
  {
  }

  lemma MessageForTwo(first: string, second: string)
    ensures MissingMessage([first, second]) == MissingPrefix + first + ", " + second
  {
    assert [first, second][1..] == [second];
    assert Join([first, second], ", ") == first + ", " + second;
    assert MissingPrefix + (first + ", " + second) == MissingPrefix + first + ", " + second;
  }

  /** The cases of internal/config/config_test.go, as a caller of LoadConfig sees them. */
  method LoadConfigCases()
  {
    var cfg, err := LoadConfig(map[TokenVar := "test-token-123", EmailVar := "test@example.com"]);
    assert cfg == Some(Config("test-token-123", "test@example.com")) && err == None;

    MissingMessages();
    cfg, err := LoadConfig(map[EmailVar := "test@example.com"]);
    MissingVarsCases(map[EmailVar := "test@example.com"]);
    assert cfg == None && err == Some("missing required environment variables: JIRA_API_TOKEN");

    cfg, err := LoadConfig(map[TokenVar := "test-token-123"]);
    MissingVarsCases(map[TokenVar := "test-token-123"]);
    assert cfg == None && err == Some("missing required environment variables: JIRA_USER_EMAIL");

    cfg, err := LoadConfig(map[]);
    MissingVarsCases(map[]);
    assert cfg == None && err == Some("missing required environment variables: JIRA_API_TOKEN, JIRA_USER_EMAIL");
  }
}
