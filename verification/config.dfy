/** Start-up of run.js: the configuration record read from the environment, the
    credential check that aborts start-up, and the upload endpoint. */
module Config {
  import opened Wrappers
  import opened JsValues
  import opened Env

  /** The settings as read, before any numeric parsing. */
  datatype Config = Config(
    username: Value,
    password: Value,
    nsHost: Value,
    nsBaseUrl: Value,
    nsSecret: Value,
    interval: Value,
    sgvLimit: Value,
    maxRetryDuration: Value,
    verbose: bool)

  /** The numeric defaults, written as the decimal text `parseInt` turns them into. */
  const DefaultInterval: string := "60000"
  const DefaultSgvLimit: string := "24"

  /** The path appended to the site address. */
  const EntriesPath: string := "/api/v1/entries.json"

  /** The errors start-up throws. */
  datatype ConfigError = MissingUsername | MissingPassword

  /** The text of each error. */
  function Message(e: ConfigError): string
  {
    match e
    case MissingUsername => "Missing CareLink username"
    case MissingPassword => "Missing CareLink password"
  }

  /** The record `config` of run.js. The maximum retry duration defaults to a
      constant of the client library, which is passed in. Logging is verbose unless
      one of the names for CARELINK_QUIET holds a non-empty value. */
  function LoadConfig(env: Environment, defaultMaxRetryDuration: Value): (c: Config)
    ensures (forall i :: 0 <= i < 4 ==> Candidates("CARELINK_REQUEST_INTERVAL")[i] !in env)
      ==> c.interval == Str(DefaultInterval)
    ensures (forall i :: 0 <= i < 4 ==> Candidates("CARELINK_SGV_LIMIT")[i] !in env)
      ==> c.sgvLimit == Str(DefaultSgvLimit)
    ensures (forall i :: 0 <= i < 4 ==> Candidates("CARELINK_MAX_RETRY_DURATION")[i] !in env)
      ==> c.maxRetryDuration == defaultMaxRetryDuration
    ensures c.nsBaseUrl == ReadEnv(env, "NS", Undefined)
    ensures c.verbose <==> forall i :: 0 <= i < 4 ==> !Truthy(Get(env, Candidates("CARELINK_QUIET")[i]))
  {
    var quiet := ReadEnv(env, "CARELINK_QUIET", Undefined);
    ReadEnvTruthy(env, "CARELINK_QUIET", Undefined);
    Config(
      ReadEnv(env, "CARELINK_USERNAME", Undefined),
      ReadEnv(env, "CARELINK_PASSWORD", Undefined),
      ReadEnv(env, "WEBSITE_HOSTNAME", Undefined),
      ReadEnv(env, "NS", Undefined),
      ReadEnv(env, "API_SECRET", Undefined),
      ReadEnv(env, "CARELINK_REQUEST_INTERVAL", Str(DefaultInterval)),
      ReadEnv(env, "CARELINK_SGV_LIMIT", Str(DefaultSgvLimit)),
      ReadEnv(env, "CARELINK_MAX_RETRY_DURATION", defaultMaxRetryDuration),
      !Truthy(quiet))
  }

  /** The credential check: a missing or empty username is reported whatever the
      password, and the password is looked at only once the username is present. */
  function Validate(c: Config): (r: Result<(), ConfigError>)
    ensures r == Failure(MissingUsername) <==> !Truthy(c.username)
    ensures r == Failure(MissingPassword) <==> Truthy(c.username) && !Truthy(c.password)
    ensures r.Success? <==> Truthy(c.username) && Truthy(c.password)
  {
    if !Truthy(c.username) then Failure(MissingUsername)
    else if !Truthy(c.password) then Failure(MissingPassword)
    else Success(())
  }

  /** The upload address: `NS` when it is non-empty, otherwise "https://" and the
      host name (which reads "undefined" when the host name is unset), followed by
      the entries path. */
  function Endpoint(c: Config): (r: string)
    ensures |r| >= |EntriesPath| && r[|r| - |EntriesPath|..] == EntriesPath
    ensures Truthy(c.nsBaseUrl) ==> |c.nsBaseUrl.s| <= |r| && r[..|c.nsBaseUrl.s|] == c.nsBaseUrl.s
    ensures !Truthy(c.nsBaseUrl) ==> |r| >= 8 && r[..8] == "https://"
  {
    (if Truthy(c.nsBaseUrl) then c.nsBaseUrl.s else "https://" + ToStr(c.nsHost)) + EntriesPath
  }

  /** The site part of an endpoint: everything before the entries path. */
  function SiteOf(endpoint: string): (site: string)
    requires |endpoint| >= |EntriesPath|
    ensures |site| == |endpoint| - |EntriesPath|
  {
    endpoint[..|endpoint| - |EntriesPath|]
  }

  /** Taking the entries path off the endpoint gives back the base address when it is
      non-empty, and "https://" plus the host text otherwise. */
  lemma EndpointSite(c: Config)
    ensures SiteOf(Endpoint(c)) == if Truthy(c.nsBaseUrl) then c.nsBaseUrl.s else "https://" + ToStr(c.nsHost)
  {
  }

  /** With neither a base address nor a host name, the endpoint is the literal
      JavaScript produces by concatenating `undefined`. */
  lemma EndpointWithoutHost(c: Config)
    requires !Truthy(c.nsBaseUrl) && c.nsHost == Undefined
    ensures Endpoint(c) == "https://undefined/api/v1/entries.json"
  {
  }

  /** With the base address read from the environment, the endpoint starts with the
      first non-empty value among the names for NS, or with "https://" when none has one. */
  lemma EndpointFromEnvironment(env: Environment, c: Config)
    requires c.nsBaseUrl == ReadEnv(env, "NS", Undefined)
    ensures forall i ::
      (0 <= i < 4 && Truthy(Get(env, Candidates("NS")[i]))
       && (forall j :: 0 <= j < i ==> !Truthy(Get(env, Candidates("NS")[j]))))
      ==> var base := env[Candidates("NS")[i]];
          |base| <= |Endpoint(c)| && Endpoint(c)[..|base|] == base
    ensures (forall i :: 0 <= i < 4 ==> !Truthy(Get(env, Candidates("NS")[i]))) ==>
      |Endpoint(c)| >= 8 && Endpoint(c)[..8] == "https://"
  {
    ReadEnvTruthy(env, "NS", Undefined);
  }

  /** What start-up yields when it does not throw. */
  datatype Startup = Startup(config: Config, endpoint: string)

  /** The module-level code of run.js up to the endpoint: read the configuration,
      throw on missing credentials, build the endpoint. Whether the username error is
      raised depends on the environment alone: it is raised exactly when none of the
      four names for CARELINK_USERNAME holds a non-empty value. */
  function Start(env: Environment, defaultMaxRetryDuration: Value): (r: Result<Startup, ConfigError>)
    ensures r == Failure(MissingUsername) <==>
      forall i :: 0 <= i < 4 ==> !Truthy(Get(env, Candidates("CARELINK_USERNAME")[i]))
    ensures r == Failure(MissingPassword) <==>
      (exists i :: 0 <= i < 4 && Truthy(Get(env, Candidates("CARELINK_USERNAME")[i])))
      && (forall i :: 0 <= i < 4 ==> !Truthy(Get(env, Candidates("CARELINK_PASSWORD")[i])))
    ensures r.Success? ==> Truthy(r.value.config.username) && Truthy(r.value.config.password)
    ensures r.Success? ==> forall i ::
      (0 <= i < 4 && Truthy(Get(env, Candidates("NS")[i]))
       && (forall j :: 0 <= j < i ==> !Truthy(Get(env, Candidates("NS")[j]))))
      ==> var base := env[Candidates("NS")[i]];
          |base| <= |r.value.endpoint| && r.value.endpoint[..|base|] == base
    ensures r.Success? && (forall i :: 0 <= i < 4 ==> !Truthy(Get(env, Candidates("NS")[i]))) ==>
      |r.value.endpoint| >= 8 && r.value.endpoint[..8] == "https://"
    ensures r.Success? ==>
      |r.value.endpoint| >= |EntriesPath|
      && r.value.endpoint[|r.value.endpoint| - |EntriesPath|..] == EntriesPath
  {
    var c := LoadConfig(env, defaultMaxRetryDuration);
    ReadEnvTruthy(env, "CARELINK_USERNAME", Undefined);
    ReadEnvTruthy(env, "CARELINK_PASSWORD", Undefined);
    match Validate(c)
    case Failure(e) => Failure(e)
    case Success(_) =>
      EndpointFromEnvironment(env, c);
      Success(Startup(c, Endpoint(c)))
  }

  /** The text start-up throws: the username message when none of the names for
      CARELINK_USERNAME holds a non-empty value, the password message otherwise. */
  lemma StartFailureMessage(env: Environment, defaultMaxRetryDuration: Value)
    requires Start(env, defaultMaxRetryDuration).Failure?
    ensures Message(Start(env, defaultMaxRetryDuration).error) ==
      if forall i :: 0 <= i < 4 ==> !Truthy(Get(env, Candidates("CARELINK_USERNAME")[i]))
      then "Missing CareLink username"
      else "Missing CareLink password"
  {
  }
}
