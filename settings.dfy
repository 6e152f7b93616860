/** The job's configuration: the settings the core reads, their
    validation, and the integer reading of environment variables
    (daily-scraper-job/config/settings.py). */
module Config {
  import opened Options
  import opened PyStr

  /** The settings read by the modelled core. Fields set from the
      environment are given as already converted values. */
  datatype Settings = Settings(
    openaiApiKey: Option<string>,
    maxArticles: Option<int>,
    requestDelay: real,
    maxRetries: int,
    chunkSize: int,
    minChunkSize: int,
    dryRun: bool,
    logLevel: string,
    enableHashDetection: bool,
    enableLastmodDetection: bool,
    forceFullUpdate: bool,
    batchSize: int)

  const ApiKeyError := "OPENAI_API_KEY is required when not in dry-run mode"
  const MaxArticlesError := "MAX_ARTICLES must be positive"
  const RequestDelayError := "REQUEST_DELAY must be non-negative"
  const MaxRetriesError := "MAX_RETRIES must be non-negative"
  const ChunkSizeError := "CHUNK_SIZE must be positive"
  const MinChunkSizeError := "MIN_CHUNK_SIZE must be positive"
  const ChunkOrderError := "CHUNK_SIZE must be greater than MIN_CHUNK_SIZE"
  const LogLevelError := "LOG_LEVEL must be one of: DEBUG, INFO, WARNING, ERROR, CRITICAL"

  const LogLevels: seq<string> := ["DEBUG", "INFO", "WARNING", "ERROR", "CRITICAL"]

  /** One validation rule: whether it fails for the settings, and its message. */
  datatype Check = Check(fails: bool, message: string)

  /** The rules in the order `validate` applies them. */
  function Checks(s: Settings): (cs: seq<Check>)
    ensures |cs| == 8
  {
    [ Check(!s.dryRun && (s.openaiApiKey.None? || s.openaiApiKey.value == ""), ApiKeyError),
      Check(s.maxArticles.Some? && s.maxArticles.value <= 0, MaxArticlesError),
      Check(s.requestDelay < 0.0, RequestDelayError),
      Check(s.maxRetries < 0, MaxRetriesError),
      Check(s.chunkSize <= 0, ChunkSizeError),
      Check(s.minChunkSize <= 0, MinChunkSizeError),
      Check(s.chunkSize <= s.minChunkSize, ChunkOrderError),
      Check(s.logLevel !in LogLevels, LogLevelError) ]
  }

  /** The messages of the first `n` rules that fail, in rule order. */
  function FailedMessages(cs: seq<Check>, n: nat): (ms: seq<string>)
    requires n <= |cs|
    ensures |ms| <= n
  {
    if n == 0 then []
    else FailedMessages(cs, n - 1) + (if cs[n - 1].fails then [cs[n - 1].message] else [])
  }

  /** No message is reported exactly when none of the rules fails. */
  lemma {:induction false} FailedMessagesEmpty(cs: seq<Check>, n: nat)
    requires n <= |cs|
    ensures FailedMessages(cs, n) == [] <==> forall k :: 0 <= k < n ==> !cs[k].fails
  {
    if n > 0 {
      FailedMessagesEmpty(cs, n - 1);
    }
  }

  /** A message is reported exactly when one of the rules carrying it fails. */
  lemma {:induction false} FailedMessagesHas(cs: seq<Check>, n: nat, m: string)
    requires n <= |cs|
    ensures m in FailedMessages(cs, n) <==> exists k :: 0 <= k < n && cs[k].fails && cs[k].message == m
  {
    if n > 0 {
      FailedMessagesHas(cs, n - 1, m);
    }
  }

  /** The error list `validate` returns. */
  function Errors(s: Settings): seq<string> {
    FailedMessages(Checks(s), 8)
  }

  /** Every rule the settings must satisfy. */
  predicate IsValid(s: Settings) {
    && (s.dryRun || (s.openaiApiKey.Some? && s.openaiApiKey.value != ""))
    && (s.maxArticles.None? || s.maxArticles.value > 0)
    && s.requestDelay >= 0.0
    && s.maxRetries >= 0
    && s.chunkSize > 0
    && s.minChunkSize > 0
    && s.chunkSize > s.minChunkSize
    && s.logLevel in LogLevels
  }

  /** `validate`: one append per failing rule, in order. */
  method Validate(s: Settings) returns (errors: seq<string>)
    ensures errors == Errors(s)
    ensures errors == [] <==> IsValid(s)
  {
    ghost var cs := Checks(s);
    errors := [];
    if !s.dryRun && (s.openaiApiKey.None? || s.openaiApiKey.value == "") {
      errors := errors + [ApiKeyError];
    }
    assert errors == FailedMessages(cs, 1);
    if s.maxArticles.Some? && s.maxArticles.value <= 0 {
      errors := errors + [MaxArticlesError];
    }
    assert errors == FailedMessages(cs, 2);
    if s.requestDelay < 0.0 {
      errors := errors + [RequestDelayError];
    }
    assert errors == FailedMessages(cs, 3);
    if s.maxRetries < 0 {
      errors := errors + [MaxRetriesError];
    }
    assert errors == FailedMessages(cs, 4);
    if s.chunkSize <= 0 {
      errors := errors + [ChunkSizeError];
    }
    assert errors == FailedMessages(cs, 5);
    if s.minChunkSize <= 0 {
      errors := errors + [MinChunkSizeError];
    }
    assert errors == FailedMessages(cs, 6);
    if s.chunkSize <= s.minChunkSize {
      errors := errors + [ChunkOrderError];
    }
    assert errors == FailedMessages(cs, 7);
    if s.logLevel !in LogLevels {
      errors := errors + [LogLevelError];
    }
    assert errors == FailedMessages(cs, 8);
    ValidIffNoErrors(s);
  }

  /** The error list is empty exactly when every rule holds. */
  lemma ValidIffNoErrors(s: Settings)
    ensures Errors(s) == [] <==> IsValid(s)
  {
    var cs := Checks(s);
    FailedMessagesEmpty(cs, 8);
    if IsValid(s) {
      forall k | 0 <= k < |cs| ensures !cs[k].fails {
      }
    } else if !(s.dryRun || (s.openaiApiKey.Some? && s.openaiApiKey.value != "")) {
      assert cs[0].fails;
    } else if !(s.maxArticles.None? || s.maxArticles.value > 0) {
      assert cs[1].fails;
    } else if s.requestDelay < 0.0 {
      assert cs[2].fails;
    } else if s.maxRetries < 0 {
      assert cs[3].fails;
    } else if s.chunkSize <= 0 {
      assert cs[4].fails;
    } else if s.minChunkSize <= 0 {
      assert cs[5].fails;
    } else if s.chunkSize <= s.minChunkSize {
      assert cs[6].fails;
    } else {
      assert cs[7].fails;
    }
  }

  /** No two rules share a message. */
  lemma MessagesDistinct(s: Settings)
    ensures forall i, j :: 0 <= i < j < 8 ==> Checks(s)[i].message != Checks(s)[j].message
  {
    var cs := Checks(s);
    forall i, j | 0 <= i < j < 8 ensures cs[i].message != cs[j].message {
      assert cs[i].message[..5] != cs[j].message[..5] || |cs[i].message| != |cs[j].message|;
    }
  }

  /** A rule's message is in the error list exactly when the rule fails. */
  lemma Reported(s: Settings, k: nat)
    requires k < 8
    ensures Checks(s)[k].message in Errors(s) <==> Checks(s)[k].fails
  {
    var cs := Checks(s);
    MessagesDistinct(s);
    FailedMessagesHas(cs, 8, cs[k].message);
  }

  /** A chunk size not above the minimum chunk size is reported. */
  lemma ChunkOrderReported(s: Settings)
    ensures ChunkOrderError in Errors(s) <==> s.chunkSize <= s.minChunkSize
  {
    Reported(s, 6);
  }

  /** Non-positive sizes each add their own message. */
  lemma SizeErrorsReported(s: Settings)
    ensures ChunkSizeError in Errors(s) <==> s.chunkSize <= 0
    ensures MinChunkSizeError in Errors(s) <==> s.minChunkSize <= 0
  {
    Reported(s, 4);
    Reported(s, 5);
  }

  /** The API key is demanded only outside dry-run. */
  lemma ApiKeyReported(s: Settings)
    ensures ApiKeyError in Errors(s) <==> !s.dryRun && (s.openaiApiKey.None? || s.openaiApiKey.value == "")
  {
    Reported(s, 0);
  }

  /** An absent article limit passes; a non-positive one, a negative delay
      and a negative retry count do not; the log level must be one of the
      five names. */
  lemma RangeErrorsReported(s: Settings)
    ensures MaxArticlesError in Errors(s) <==> s.maxArticles.Some? && s.maxArticles.value <= 0
    ensures RequestDelayError in Errors(s) <==> s.requestDelay < 0.0
    ensures MaxRetriesError in Errors(s) <==> s.maxRetries < 0
    ensures LogLevelError in Errors(s) <==> s.logLevel !in LogLevels
  {
    Reported(s, 1);
    Reported(s, 2);
    Reported(s, 3);
    Reported(s, 7);
  }

  /** `_get_int_env`: the variable read with `int()`, or the default when
      it is missing or not an integer. */
  function GetIntEnv(env: map<string, string>, key: string, default: Option<int>): (r: Option<int>)
    ensures key !in env ==> r == default
    ensures key in env && ParseInt(env[key]).None? ==> r == default
  {
    if key !in env then default
    else match ParseInt(env[key])
      case None => default
      case Some(v) => Some(v)
  }

  /** A variable holding `str(i)` reads back as `i`. */
  lemma GetIntEnvRoundTrip(env: map<string, string>, key: string, i: int, default: Option<int>)
    ensures GetIntEnv(env[key := IntToString(i)], key, default) == Some(i)
  {
    ParseIntToString(i);
  }
}
