/**
 * EnvValidation (src/infrastructure/config/env.validation.ts): the Joi
 * schema over process.env, the cached validate(), the error formatting and
 * the configuration projections. process.env is a map from name to string
 * value. Joi's conversion of a string to a number is a parameter; the rules
 * the schema uses are modelled as they apply to string values:
 *   - an absent key takes its default, or fails "is required";
 *   - a key with an allow-list fails unless its value is listed;
 *   - a string fails when empty, and .min(n) counts UTF-16 code units;
 *   - keys the schema does not declare are allowed and kept.
 * Every key is checked (abortEarly: false), in the schema's order.
 */
module EnvValidation {
  import opened Wrappers
  import opened Text
  import Seqs

  type Env = map<string, string>

  /** Joi.number()'s conversion of a string value, or None when it is not a number. */
  type NumberParser = string -> Option<int>

  const NodeEnvs: seq<string> := ["development", "production", "test"]
  const LogLevels: seq<string> := ["error", "warn", "info", "debug"]
  const SecretMinLength: nat := 32

  datatype Config = Config(
    nodeEnv: string, port: int, jwtSecret: string, jwtRefreshSecret: string,
    databaseHost: string, databasePort: int, databaseName: string,
    databaseUsername: string, databasePassword: string,
    logLevel: string, corsOrigin: string, rateLimitWindowMs: int, rateLimitMaxRequests: int)

  /** Why one key failed. */
  datatype Reason = Required | Empty | TooShort(limit: nat) | NotOneOf(valids: seq<string>) | NotANumber

  /** One entry of error.details: the key (its path) and the reason. */
  datatype Detail = Detail(key: string, reason: Reason)

  /**
   * A Joi.string() key: allow-list (empty for none), default (None when
   * required), minimum length. A listed value is accepted at once. With
   * abortEarly off, a value off the list records "must be one of" and is
   * still type-checked, so an empty one also records "is not allowed to be
   * empty"; an empty string stops before the .min rule.
   */
  function StringKey(env: Env, key: string, valids: seq<string>, default: Option<string>, min: nat): (r: Result<string, seq<Detail>>)
    ensures key !in env ==> r == if default.Some? then Ok(default.value) else Err([Detail(key, Required)])
    ensures r.Err? ==> 1 <= |r.error| <= 2 && forall d :: d in r.error ==> d.key == key
    ensures key in env ==>
      (r.Ok? <==> if |valids| > 0 then env[key] in valids else env[key] != "" && Utf16Length(env[key]) >= min)
    ensures key in env && r.Ok? ==> r.value == env[key]
    ensures key in env && |valids| > 0 && env[key] !in valids ==> r.Err? && r.error[0] == Detail(key, NotOneOf(valids))
    ensures key in env && env[key] == "" && (|valids| == 0 || "" !in valids) ==> r.Err? && Detail(key, Empty) in r.error
    ensures r.Ok? ==>
      (|| (key in env && |valids| > 0 && r.value in valids)
       || (key in env && |valids| == 0 && r.value != "" && Utf16Length(r.value) >= min)
       || (key !in env && default == Some(r.value)))
  {
    if key !in env then
      if default.Some? then Ok(default.value) else Err([Detail(key, Required)])
    else
      var v := env[key];
      if |valids| > 0 && v in valids then Ok(v)
      else
        var only := if |valids| > 0 then [Detail(key, NotOneOf(valids))] else [];
        var base := if v == "" then [Detail(key, Empty)]
                    else if Utf16Length(v) < min then [Detail(key, TooShort(min))]
                    else [];
        if only + base == [] then Ok(v) else Err(only + base)
  }

  /** A Joi.number() key with a default. */
  function NumberKey(env: Env, parse: NumberParser, key: string, default: int): (r: Result<int, Detail>)
    ensures key !in env ==> r == Ok(default)
    ensures key in env ==> r == if parse(env[key]).Some? then Ok(parse(env[key]).value) else Err(Detail(key, NotANumber))
  {
    if key !in env then Ok(default)
    else match parse(env[key])
      case None => Err(Detail(key, NotANumber))
      case Some(n) => Ok(n)
  }

  /** The details a number key contributes: its one failure, if any. */
  function ErrorsOf<T>(r: Result<T, Detail>): (ds: seq<Detail>)
    ensures |ds| <= 1 && (ds == [] <==> r.Ok?)
    ensures r.Err? ==> ds == [r.error]
  {
    if r.Err? then [r.error] else []
  }

  /** The details a string key contributes: all of its failures, in Joi's order. */
  function AllErrorsOf<T>(r: Result<T, seq<Detail>>): (ds: seq<Detail>)
    ensures ds == [] <==> r.Ok? || r.error == []
    ensures r.Err? ==> ds == r.error
  {
    if r.Err? then r.error else []
  }

  /** What the schema guarantees of every configuration it accepts. */
  predicate WellFormed(c: Config) {
    && c.nodeEnv in NodeEnvs && c.logLevel in LogLevels
    && Utf16Length(c.jwtSecret) >= SecretMinLength && Utf16Length(c.jwtRefreshSecret) >= SecretMinLength
    && c.databaseName != "" && c.databaseUsername != "" && c.databasePassword != ""
    && c.databaseHost != "" && c.corsOrigin != ""
  }

  /** environmentSchema.validate(process.env): the config, or every failing key in schema order. */
  function Check(env: Env, parse: NumberParser): (r: Result<Config, seq<Detail>>)
    ensures r.Err? ==> |r.error| > 0
    ensures r.Ok? <==>
      && ("JWT_SECRET" in env && env["JWT_SECRET"] != "" && Utf16Length(env["JWT_SECRET"]) >= SecretMinLength)
      && ("JWT_REFRESH_SECRET" in env && env["JWT_REFRESH_SECRET"] != "" && Utf16Length(env["JWT_REFRESH_SECRET"]) >= SecretMinLength)
      && ("DATABASE_NAME" in env && env["DATABASE_NAME"] != "")
      && ("DATABASE_USERNAME" in env && env["DATABASE_USERNAME"] != "")
      && ("DATABASE_PASSWORD" in env && env["DATABASE_PASSWORD"] != "")
      && ("NODE_ENV" in env ==> env["NODE_ENV"] in NodeEnvs)
      && ("LOG_LEVEL" in env ==> env["LOG_LEVEL"] in LogLevels)
      && ("DATABASE_HOST" in env ==> env["DATABASE_HOST"] != "")
      && ("CORS_ORIGIN" in env ==> env["CORS_ORIGIN"] != "")
      && (forall k :: k in NumberKeys && k in env ==> parse(env[k]).Some?)
  {
    var nodeEnv := StringKey(env, "NODE_ENV", NodeEnvs, Some("development"), 0);
    var port := NumberKey(env, parse, "PORT", 3000);
    var jwtSecret := StringKey(env, "JWT_SECRET", [], None, SecretMinLength);
    var jwtRefreshSecret := StringKey(env, "JWT_REFRESH_SECRET", [], None, SecretMinLength);
    var databaseHost := StringKey(env, "DATABASE_HOST", [], Some("localhost"), 0);
    var databasePort := NumberKey(env, parse, "DATABASE_PORT", 5432);
    var databaseName := StringKey(env, "DATABASE_NAME", [], None, 0);
    var databaseUsername := StringKey(env, "DATABASE_USERNAME", [], None, 0);
    var databasePassword := StringKey(env, "DATABASE_PASSWORD", [], None, 0);
    var logLevel := StringKey(env, "LOG_LEVEL", LogLevels, Some("info"), 0);
    var corsOrigin := StringKey(env, "CORS_ORIGIN", [], Some("*"), 0);
    var windowMs := NumberKey(env, parse, "RATE_LIMIT_WINDOW_MS", 900000);
    var maxRequests := NumberKey(env, parse, "RATE_LIMIT_MAX_REQUESTS", 100);
    var errors := Details(env, parse);
    if errors != [] then Err(errors)
    else
      Ok(Config(nodeEnv.value, port.value, jwtSecret.value, jwtRefreshSecret.value, databaseHost.value,
                databasePort.value, databaseName.value, databaseUsername.value, databasePassword.value,
                logLevel.value, corsOrigin.value, windowMs.value, maxRequests.value))
  }

  /** With abortEarly off: the failing details of every key, in schema order. */
  function Details(env: Env, parse: NumberParser): (ds: seq<Detail>)
    ensures ds == [] <==>
      && StringKey(env, "NODE_ENV", NodeEnvs, Some("development"), 0).Ok?
      && NumberKey(env, parse, "PORT", 3000).Ok?
      && StringKey(env, "JWT_SECRET", [], None, SecretMinLength).Ok?
      && StringKey(env, "JWT_REFRESH_SECRET", [], None, SecretMinLength).Ok?
      && StringKey(env, "DATABASE_HOST", [], Some("localhost"), 0).Ok?
      && NumberKey(env, parse, "DATABASE_PORT", 5432).Ok?
      && StringKey(env, "DATABASE_NAME", [], None, 0).Ok?
      && StringKey(env, "DATABASE_USERNAME", [], None, 0).Ok?
      && StringKey(env, "DATABASE_PASSWORD", [], None, 0).Ok?
      && StringKey(env, "LOG_LEVEL", LogLevels, Some("info"), 0).Ok?
      && StringKey(env, "CORS_ORIGIN", [], Some("*"), 0).Ok?
      && NumberKey(env, parse, "RATE_LIMIT_WINDOW_MS", 900000).Ok?
      && NumberKey(env, parse, "RATE_LIMIT_MAX_REQUESTS", 100).Ok?
  {
    var dss := KeyDetails(env, parse);
    Seqs.FlattenEmpty(dss);
    assert forall i :: 0 <= i < 13 ==> dss[i] == KeyDetail(env, parse, i);
    ServerKeysPass(env, parse);
    DatabaseKeysPass(env, parse);
    RemainingKeysPass(env, parse);
    Seqs.Flatten(dss)
  }

  /** The failing details of the schema's i-th key. */
  function KeyDetail(env: Env, parse: NumberParser, i: nat): seq<Detail>
    requires i < 13
  {
    match i
    case 0 => AllErrorsOf(StringKey(env, "NODE_ENV", NodeEnvs, Some("development"), 0))
    case 1 => ErrorsOf(NumberKey(env, parse, "PORT", 3000))
    case 2 => AllErrorsOf(StringKey(env, "JWT_SECRET", [], None, SecretMinLength))
    case 3 => AllErrorsOf(StringKey(env, "JWT_REFRESH_SECRET", [], None, SecretMinLength))
    case 4 => AllErrorsOf(StringKey(env, "DATABASE_HOST", [], Some("localhost"), 0))
    case 5 => ErrorsOf(NumberKey(env, parse, "DATABASE_PORT", 5432))
    case 6 => AllErrorsOf(StringKey(env, "DATABASE_NAME", [], None, 0))
    case 7 => AllErrorsOf(StringKey(env, "DATABASE_USERNAME", [], None, 0))
    case 8 => AllErrorsOf(StringKey(env, "DATABASE_PASSWORD", [], None, 0))
    case 9 => AllErrorsOf(StringKey(env, "LOG_LEVEL", LogLevels, Some("info"), 0))
    case 10 => AllErrorsOf(StringKey(env, "CORS_ORIGIN", [], Some("*"), 0))
    case 11 => ErrorsOf(NumberKey(env, parse, "RATE_LIMIT_WINDOW_MS", 900000))
    case _ => ErrorsOf(NumberKey(env, parse, "RATE_LIMIT_MAX_REQUESTS", 100))
  }

  /** Each key's failing details, one list per key, in the schema's order. */
  function KeyDetails(env: Env, parse: NumberParser): (dss: seq<seq<Detail>>)
    ensures |dss| == 13
  {
    seq(13, i requires 0 <= i < 13 => KeyDetail(env, parse, i))
  }

  /** The server and token keys contribute no details exactly when they pass. */
  lemma ServerKeysPass(env: Env, parse: NumberParser)
    ensures KeyDetail(env, parse, 0) == [] <==> StringKey(env, "NODE_ENV", NodeEnvs, Some("development"), 0).Ok?
    ensures KeyDetail(env, parse, 1) == [] <==> NumberKey(env, parse, "PORT", 3000).Ok?
    ensures KeyDetail(env, parse, 2) == [] <==> StringKey(env, "JWT_SECRET", [], None, SecretMinLength).Ok?
    ensures KeyDetail(env, parse, 3) == [] <==> StringKey(env, "JWT_REFRESH_SECRET", [], None, SecretMinLength).Ok?
    ensures KeyDetail(env, parse, 4) == [] <==> StringKey(env, "DATABASE_HOST", [], Some("localhost"), 0).Ok?
  {
  }

  /** The database keys contribute no details exactly when they pass. */
  lemma DatabaseKeysPass(env: Env, parse: NumberParser)
    ensures KeyDetail(env, parse, 5) == [] <==> NumberKey(env, parse, "DATABASE_PORT", 5432).Ok?
    ensures KeyDetail(env, parse, 6) == [] <==> StringKey(env, "DATABASE_NAME", [], None, 0).Ok?
    ensures KeyDetail(env, parse, 7) == [] <==> StringKey(env, "DATABASE_USERNAME", [], None, 0).Ok?
    ensures KeyDetail(env, parse, 8) == [] <==> StringKey(env, "DATABASE_PASSWORD", [], None, 0).Ok?
  {
  }

  /** The logging, CORS and rate-limit keys contribute no details exactly when they pass. */
  lemma RemainingKeysPass(env: Env, parse: NumberParser)
    ensures KeyDetail(env, parse, 9) == [] <==> StringKey(env, "LOG_LEVEL", LogLevels, Some("info"), 0).Ok?
    ensures KeyDetail(env, parse, 10) == [] <==> StringKey(env, "CORS_ORIGIN", [], Some("*"), 0).Ok?
    ensures KeyDetail(env, parse, 11) == [] <==> NumberKey(env, parse, "RATE_LIMIT_WINDOW_MS", 900000).Ok?
    ensures KeyDetail(env, parse, 12) == [] <==> NumberKey(env, parse, "RATE_LIMIT_MAX_REQUESTS", 100).Ok?
  {
  }

  const NumberKeys: set<string> := {"PORT", "DATABASE_PORT", "RATE_LIMIT_WINDOW_MS", "RATE_LIMIT_MAX_REQUESTS"}

  function ValueOr(env: Env, key: string, default: string): (v: string)
    ensures v == default || (key in env && v == env[key])
  {
    if key in env then env[key] else default
  }

  /** Each value of an accepted config is the variable's value, or the default when it is unset. */
  predicate Defaulted(env: Env, parse: NumberParser, c: Config) {
    && c.nodeEnv == (if "NODE_ENV" in env then env["NODE_ENV"] else "development")
    && c.port == (if "PORT" in env && parse(env["PORT"]).Some? then parse(env["PORT"]).value else 3000)
    && c.jwtSecret == ValueOr(env, "JWT_SECRET", "") && c.jwtRefreshSecret == ValueOr(env, "JWT_REFRESH_SECRET", "")
    && c.databaseHost == (if "DATABASE_HOST" in env then env["DATABASE_HOST"] else "localhost")
    && c.databasePort == (if "DATABASE_PORT" in env && parse(env["DATABASE_PORT"]).Some? then parse(env["DATABASE_PORT"]).value else 5432)
    && c.databaseName == ValueOr(env, "DATABASE_NAME", "")
    && c.databaseUsername == ValueOr(env, "DATABASE_USERNAME", "")
    && c.databasePassword == ValueOr(env, "DATABASE_PASSWORD", "")
    && c.logLevel == (if "LOG_LEVEL" in env then env["LOG_LEVEL"] else "info")
    && c.corsOrigin == (if "CORS_ORIGIN" in env then env["CORS_ORIGIN"] else "*")
    && c.rateLimitWindowMs == (if "RATE_LIMIT_WINDOW_MS" in env && parse(env["RATE_LIMIT_WINDOW_MS"]).Some?
                               then parse(env["RATE_LIMIT_WINDOW_MS"]).value else 900000)
    && c.rateLimitMaxRequests == (if "RATE_LIMIT_MAX_REQUESTS" in env && parse(env["RATE_LIMIT_MAX_REQUESTS"]).Some?
                                  then parse(env["RATE_LIMIT_MAX_REQUESTS"]).value else 100)
  }

  /** An accepted config meets the schema's constraints, and holds each variable's value or its default. */
  lemma CheckAccepted(env: Env, parse: NumberParser)
    requires Check(env, parse).Ok?
    ensures WellFormed(Check(env, parse).value)
    ensures Defaulted(env, parse, Check(env, parse).value)
  {
    RejectionIsDetails(env, parse);
    assert Details(env, parse) == [];
  }

  // ---------------------------------------------------------------------
  // Error text
  // ---------------------------------------------------------------------

  /** Joi's default English message for a detail, with the key as its quoted label. */
  function Message(d: Detail): (m: string)
    ensures "\"" + d.key + "\"" <= m
  {
    var quoted := "\"" + d.key + "\"";
    match d.reason
    case Required => quoted + " is required"
    case Empty => quoted + " is not allowed to be empty"
    case TooShort(n) => quoted + " length must be at least " + Decimal(n) + " characters long"
    case NotOneOf(vs) => quoted + " must be one of [" + Join(vs, ", ") + "]"
    case NotANumber => quoted + " must be a number"
  }

  /** `path (message)` for one detail. */
  function Item(d: Detail): (s: string)
    ensures d.key <= s
  {
    d.key + " (" + Message(d) + ")"
  }

  function Items(ds: seq<Detail>): (items: seq<string>)
    ensures |items| == |ds|
    ensures forall i :: 0 <= i < |ds| ==> items[i] == Item(ds[i])
  {
    seq(|ds|, i requires 0 <= i < |ds| => Item(ds[i]))
  }

  /** formatValidationError: the items joined by ", ". */
  function FormatValidationError(ds: seq<Detail>): (s: string)
    ensures |ds| == 1 ==> s == Item(ds[0])
    ensures |ds| > 0 ==> ds[0].key <= s
  {
    Join(Items(ds), ", ")
  }

  /** Every detail shows up, as `path (message)`, in the formatted text. */
  lemma FormatListsEvery(ds: seq<Detail>, i: nat)
    requires i < |ds|
    ensures exists pre, post :: FormatValidationError(ds) == pre + Item(ds[i]) + post
  {
    JoinContains(Items(ds), ", ", i);
  }

  const FailurePrefix: string := "Environment validation failed: "

  // ---------------------------------------------------------------------
  // The cached validate()
  // ---------------------------------------------------------------------

  /** What validate() returns or throws, and the cache after it. */
  datatype Validated = Validated(result: Result<Config, string>, cache: Option<Config>)

  /** validate(): the cached config if there is one, else check the environment and cache a success. */
  function Validate(cache: Option<Config>, env: Env, parse: NumberParser): (v: Validated)
    ensures cache.Some? ==> v == Validated(Ok(cache.value), cache)
    ensures cache.None? && Check(env, parse).Ok? ==>
      v == Validated(Ok(Check(env, parse).value), Some(Check(env, parse).value))
    ensures cache.None? && Check(env, parse).Err? ==>
      v.cache == None && v.result.Err?
      && v.result.error == FailurePrefix + FormatValidationError(Check(env, parse).error)
  {
    if cache.Some? then Validated(Ok(cache.value), cache)
    else match Check(env, parse)
      case Ok(c) => Validated(Ok(c), Some(c))
      case Err(ds) => Validated(Err(FailurePrefix + FormatValidationError(ds)), None)
  }

  /** resetCache(). */
  function ResetCache(): (cache: Option<Config>)
    ensures cache.None?
  {
    None
  }

  /** Once a validation succeeds, later calls return that config whatever the environment says. */
  lemma CachedConfigSticks(env: Env, later: Env, parse: NumberParser, parseLater: NumberParser)
    requires Check(env, parse).Ok?
    ensures
      var first := Validate(None, env, parse);
      Validate(first.cache, later, parseLater) == Validated(Ok(Check(env, parse).value), first.cache)
  {
  }

  /** After resetCache the environment is read again. */
  lemma ResetRereads(cache: Option<Config>, env: Env, parse: NumberParser)
    ensures Validate(ResetCache(), env, parse).result.Ok? <==> Check(env, parse).Ok?
  {
  }

  /** A missing or short JWT_SECRET is reported under its own key. */
  lemma ShortSecretReported(env: Env, parse: NumberParser)
    requires "JWT_SECRET" !in env || Utf16Length(env["JWT_SECRET"]) < SecretMinLength
    ensures Check(env, parse).Err?
    ensures exists d :: d in Check(env, parse).error && d.key == "JWT_SECRET"
  {
    var d := if "JWT_SECRET" !in env then Detail("JWT_SECRET", Required)
             else if env["JWT_SECRET"] == "" then Detail("JWT_SECRET", Empty)
             else Detail("JWT_SECRET", TooShort(SecretMinLength));
    assert d in KeyDetails(env, parse)[2];
    Seqs.FlattenContains(KeyDetails(env, parse), 2, d);
    RejectionIsDetails(env, parse);
  }

  /** A rejected environment reports exactly the collected details. */
  lemma RejectionIsDetails(env: Env, parse: NumberParser)
    ensures Check(env, parse).Err? <==> Details(env, parse) != []
    ensures Check(env, parse).Err? ==> Check(env, parse).error == Details(env, parse)
  {
  }

  const RequiredKeys: set<string> := {"JWT_SECRET", "JWT_REFRESH_SECRET", "DATABASE_NAME", "DATABASE_USERNAME", "DATABASE_PASSWORD"}

  /** A missing required key leaves a "required" detail among the collected details. */
  lemma RequiredInDetails(env: Env, parse: NumberParser, key: string)
    requires key in RequiredKeys && key !in env
    ensures Detail(key, Required) in Details(env, parse)
  {
    var dss, d := KeyDetails(env, parse), Detail(key, Required);
    if key == "JWT_SECRET" {
      assert dss[2] == [d];
      Seqs.FlattenContains(dss, 2, d);
    } else if key == "JWT_REFRESH_SECRET" {
      assert dss[3] == [d];
      Seqs.FlattenContains(dss, 3, d);
    } else if key == "DATABASE_NAME" {
      assert dss[6] == [d];
      Seqs.FlattenContains(dss, 6, d);
    } else if key == "DATABASE_USERNAME" {
      assert dss[7] == [d];
      Seqs.FlattenContains(dss, 7, d);
    } else {
      assert dss[8] == [d];
      Seqs.FlattenContains(dss, 8, d);
    }
  }

  /** A missing required key makes validation fail, with a "required" detail for that key. */
  lemma RequiredKeyReported(env: Env, parse: NumberParser, key: string)
    requires key in RequiredKeys && key !in env
    ensures Check(env, parse).Err? && Detail(key, Required) in Check(env, parse).error
  {
    RequiredInDetails(env, parse, key);
    RejectionIsDetails(env, parse);
  }

  /** A NODE_ENV or LOG_LEVEL outside its list fails with a "must be one of" detail. */
  lemma AllowListReported(env: Env, parse: NumberParser)
    requires ("NODE_ENV" in env && env["NODE_ENV"] !in NodeEnvs) || ("LOG_LEVEL" in env && env["LOG_LEVEL"] !in LogLevels)
    ensures Check(env, parse).Err?
    ensures "NODE_ENV" in env && env["NODE_ENV"] !in NodeEnvs ==> Detail("NODE_ENV", NotOneOf(NodeEnvs)) in Check(env, parse).error
    ensures "LOG_LEVEL" in env && env["LOG_LEVEL"] !in LogLevels ==> Detail("LOG_LEVEL", NotOneOf(LogLevels)) in Check(env, parse).error
  {
    var dss := KeyDetails(env, parse);
    if "NODE_ENV" in env && env["NODE_ENV"] !in NodeEnvs {
      Seqs.FlattenContains(dss, 0, Detail("NODE_ENV", NotOneOf(NodeEnvs)));
    }
    if "LOG_LEVEL" in env && env["LOG_LEVEL"] !in LogLevels {
      Seqs.FlattenContains(dss, 9, Detail("LOG_LEVEL", NotOneOf(LogLevels)));
    }
    RejectionIsDetails(env, parse);
  }

  /**
   * An empty NODE_ENV fails twice: it is off the allow-list, and it is an
   * empty string. The two details lead the list, in that order.
   */
  lemma EmptyAllowListedTwice(env: Env, parse: NumberParser)
    requires "NODE_ENV" in env && env["NODE_ENV"] == ""
    ensures Check(env, parse).Err?
    ensures Check(env, parse).error[..2] == [Detail("NODE_ENV", NotOneOf(NodeEnvs)), Detail("NODE_ENV", Empty)]
  {
    var dss := KeyDetails(env, parse);
    assert dss[0] == [Detail("NODE_ENV", NotOneOf(NodeEnvs)), Detail("NODE_ENV", Empty)];
    assert Details(env, parse) == dss[0] + Seqs.Flatten(dss[1..]);
    RejectionIsDetails(env, parse);
  }

  /** An empty LOG_LEVEL records both its details too. */
  lemma EmptyLogLevelTwice(env: Env, parse: NumberParser)
    requires "LOG_LEVEL" in env && env["LOG_LEVEL"] == ""
    ensures Check(env, parse).Err?
    ensures Detail("LOG_LEVEL", NotOneOf(LogLevels)) in Check(env, parse).error
    ensures Detail("LOG_LEVEL", Empty) in Check(env, parse).error
  {
    var dss := KeyDetails(env, parse);
    assert dss[9] == [Detail("LOG_LEVEL", NotOneOf(LogLevels)), Detail("LOG_LEVEL", Empty)];
    Seqs.FlattenContains(dss, 9, Detail("LOG_LEVEL", NotOneOf(LogLevels)));
    Seqs.FlattenContains(dss, 9, Detail("LOG_LEVEL", Empty));
    RejectionIsDetails(env, parse);
  }

  /** The optional keys: each has a default. */
  const OptionalKeys: set<string> := {"NODE_ENV", "PORT", "DATABASE_HOST", "DATABASE_PORT", "LOG_LEVEL",
                                      "CORS_ORIGIN", "RATE_LIMIT_WINDOW_MS", "RATE_LIMIT_MAX_REQUESTS"}

  /** The required keys alone are accepted, and everything else takes its default. */
  lemma DefaultsApply(env: Env, parse: NumberParser)
    requires "JWT_SECRET" in env && Utf16Length(env["JWT_SECRET"]) >= SecretMinLength
    requires "JWT_REFRESH_SECRET" in env && Utf16Length(env["JWT_REFRESH_SECRET"]) >= SecretMinLength
    requires "DATABASE_NAME" in env && env["DATABASE_NAME"] != ""
    requires "DATABASE_USERNAME" in env && env["DATABASE_USERNAME"] != ""
    requires "DATABASE_PASSWORD" in env && env["DATABASE_PASSWORD"] != ""
    requires forall k :: k in OptionalKeys ==> k !in env
    ensures Check(env, parse).Ok?
    ensures var c := Check(env, parse).value;
      && c.nodeEnv == "development" && c.port == 3000 && c.databaseHost == "localhost"
      && c.databasePort == 5432 && c.logLevel == "info" && c.corsOrigin == "*"
      && c.rateLimitWindowMs == 900000 && c.rateLimitMaxRequests == 100
  {
    assert env["JWT_SECRET"] != "" && env["JWT_REFRESH_SECRET"] != "";
    assert forall k :: k in NumberKeys ==> k !in env;
    CheckAccepted(env, parse);
  }

  // ---------------------------------------------------------------------
  // Projections
  // ---------------------------------------------------------------------

  predicate IsDevelopment(c: Config) { c.nodeEnv == "development" }
  predicate IsProduction(c: Config) { c.nodeEnv == "production" }
  predicate IsTest(c: Config) { c.nodeEnv == "test" }

  /** An accepted config is in exactly one of the three modes. */
  lemma ExactlyOneMode(c: Config)
    requires WellFormed(c)
    ensures IsDevelopment(c) || IsProduction(c) || IsTest(c)
    ensures !(IsDevelopment(c) && IsProduction(c)) && !(IsDevelopment(c) && IsTest(c)) && !(IsProduction(c) && IsTest(c))
  {
  }

  datatype JwtConfig = JwtConfig(secret: string, refreshSecret: string)
  datatype RateLimitConfig = RateLimitConfig(windowMs: int, maxRequests: int)
  datatype DatabaseConfig = DatabaseConfig(host: string, port: int, database: string, username: string, password: string)

  /** getJWTConfig(): both secrets of an accepted config, each at least 32 units long. */
  function GetJwtConfig(c: Config): (j: JwtConfig)
    requires WellFormed(c)
    ensures Utf16Length(j.secret) >= SecretMinLength && Utf16Length(j.refreshSecret) >= SecretMinLength
    ensures j.secret != "" && j.refreshSecret != ""
  {
    JwtConfig(c.jwtSecret, c.jwtRefreshSecret)
  }

  function GetRateLimitConfig(c: Config): (r: RateLimitConfig)
  {
    RateLimitConfig(c.rateLimitWindowMs, c.rateLimitMaxRequests)
  }

  function GetDatabaseConfig(c: Config): (d: DatabaseConfig)
  {
    DatabaseConfig(c.databaseHost, c.databasePort, c.databaseName, c.databaseUsername, c.databasePassword)
  }

  /** Without overrides the rate-limit config is the middleware's API preset: 100 per 15 minutes. */
  lemma DefaultRateLimit(env: Env, parse: NumberParser)
    requires Check(env, parse).Ok?
    requires "RATE_LIMIT_WINDOW_MS" !in env && "RATE_LIMIT_MAX_REQUESTS" !in env
    ensures GetRateLimitConfig(Check(env, parse).value) == RateLimitConfig(15 * 60 * 1000, 100)
  {
    CheckAccepted(env, parse);
  }
}
