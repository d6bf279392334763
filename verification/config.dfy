/** `Config.Validate` of internal/config/config.go and the retry policy the
    HTTP client takes from a configuration. Only the backend section is
    checked; durations are nanoseconds. */
module Config {
  import opened Wrappers
  import opened GoText
  import opened Transport

  datatype TEIConfig = TEIConfig(
    baseUrl: Bytes,
    timeout: int,
    maxRetries: int,
    retryDelay: int,
    maxConnections: int)

  const BaseUrlRequired: Bytes := Lit("tei.base_url is required")
  const TimeoutNotPositive: Bytes := Lit("tei.timeout must be positive")
  const RetriesNegative: Bytes := Lit("tei.max_retries must be non-negative")
  const ConnectionsNotPositive: Bytes := Lit("tei.max_connections must be positive")

  /** The four checks a loaded configuration must pass. */
  predicate WellFormed(c: TEIConfig) {
    c.baseUrl != [] && c.timeout > 0 && c.maxRetries >= 0 && c.maxConnections > 0
  }

  /** `Config.Validate`: the first failing check, in the order base URL,
      timeout, retries, connections, names the problem; nothing is reported
      exactly when all four pass. The retry delay is not looked at. */
  function Validate(c: TEIConfig): (r: Option<Bytes>)
    ensures r.None? <==> WellFormed(c)
    ensures c.baseUrl == [] ==> r == Some(BaseUrlRequired)
    ensures c.baseUrl != [] && c.timeout <= 0 ==> r == Some(TimeoutNotPositive)
    ensures c.baseUrl != [] && c.timeout > 0 && c.maxRetries < 0 ==> r == Some(RetriesNegative)
    ensures c.baseUrl != [] && c.timeout > 0 && c.maxRetries >= 0 && c.maxConnections <= 0 ==>
      r == Some(ConnectionsNotPositive)
  {
    if c.baseUrl == [] then Some(BaseUrlRequired)
    else if c.timeout <= 0 then Some(TimeoutNotPositive)
    else if c.maxRetries < 0 then Some(RetriesNegative)
    else if c.maxConnections <= 0 then Some(ConnectionsNotPositive)
    else None
  }

  /** The retry policy `NewHTTPClient` copies from the configuration. */
  function ClientPolicy(c: TEIConfig): (p: Policy)
    ensures p.maxRetries == c.maxRetries && p.baseDelay == c.retryDelay
  {
    Policy(c.maxRetries, c.retryDelay)
  }

  /** The retry delay is never checked: a configuration that passes stays
      passing whatever delay it carries, a negative one included. */
  lemma RetryDelayUnchecked(c: TEIConfig, delay: int)
    ensures Validate(c.(retryDelay := delay)) == Validate(c)
  {
  }

  /** A configuration that passes yields a client that makes at least one
      attempt and at most `maxRetries + 1`. */
  lemma ValidConfigAttempts(c: TEIConfig, respond: nat -> Outcome, cancel: nat -> Option<Errors.ContextError>)
    requires Validate(c).None?
    ensures var e := Run(ClientPolicy(c), respond, cancel, 0, None);
      1 <= e.attempts <= c.maxRetries + 1
  {
    RunAttempts(ClientPolicy(c), respond, cancel, 0, None);
  }

  /** The reference run from attempt `a` makes more than `a` and at most
      `maxRetries + 1` attempts in total when `a` is within the budget. */
  lemma {:induction false} RunAttempts(p: Policy, respond: nat -> Outcome, cancel: nat -> Option<Errors.ContextError>,
                                       a: nat, last: Option<Errors.Failure>)
    requires a <= p.maxRetries
    ensures var e := Run(p, respond, cancel, a, last);
      (a == 0 ==> e.attempts >= 1) && a <= e.attempts <= p.maxRetries + 1
    decreases p.maxRetries - a
  {
    if a < p.maxRetries && !(a > 0 && cancel(a).Some?) && Classify(respond(a)).Retry? {
      RunAttempts(p, respond, cancel, a + 1, Some(Classify(respond(a)).err));
    }
  }
}
