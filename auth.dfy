/**
 * The Battle.net credential cache of src/main.rs: `BattleNetAuth` holds an
 * optional bearer token and its optional expiry instant, and
 * `get_battlenet_token` returns the cached token while it is fresh, or runs
 * the OAuth 2.0 client-credentials grant (section 4.4 of RFC 6749) and caches
 * the new token with an expiry 60 seconds earlier than the `expires_in` of
 * the response (section 5.1 of RFC 6749). Instants are natural numbers of
 * seconds on a monotonic clock.
 */
module Auth {
  import opened Wrappers
  import opened Http

  /** Seconds taken off the reported lifetime of a token. */
  const EarlyExpiry: nat := 60

  /** The fields of the token endpoint's JSON answer that the code reads. */
  datatype TokenResponse = TokenResponse(accessToken: string, expiresIn: nat)

  /** The mutable part of a `BattleNetAuth`. */
  datatype AuthState = AuthState(token: Option<string>, expiresAt: Option<nat>)

  /** Both fields are only ever set together, so an expiry implies a token. */
  predicate Consistent(s: AuthState) {
    s.expiresAt.Some? ==> s.token.Some?
  }

  /** `is_expired`, on a state and the current instant. */
  predicate Expired(s: AuthState, now: nat): (e: bool)
    ensures s.expiresAt.None? ==> e
    ensures s.expiresAt.Some? ==> (e <==> s.expiresAt.value <= now)
  {
    match s.expiresAt
    case Some(exp) => now >= exp
    case None => true
  }

  /** `u64::saturating_sub`. */
  function SaturatingSub(a: nat, b: nat): (r: nat)
    ensures r <= a
    ensures a >= b ==> r + b == a
    ensures a < b ==> r == 0
  {
    if a >= b then a - b else 0
  }

  /**
   * One `get_battlenet_token` on a configured handler: the state after it and
   * what it returns. `now` is read by `is_expired`, `refreshedAt` after the
   * token request has completed; `exchange` is that request's outcome.
   */
  function Acquire(s: AuthState, now: nat, refreshedAt: nat, exchange: HttpOutcome<TokenResponse>): (r: (AuthState, Result<string, string>))
    requires Consistent(s)
    ensures !Expired(s, now) ==> r.0 == s && r.1.Ok?
    ensures r.1.Ok? ==> r.0.token == Some(r.1.value) && r.0.expiresAt.Some?
    ensures r.1.Err? ==> r.0 == s
  {
    if !Expired(s, now) then (s, Ok(s.token.value))
    else
      match exchange
      case Unreachable(detail) => (s, Err("OAuth request failed: " + detail))
      case Responded(status, statusText, body) =>
        if !IsSuccess(status) then (s, Err("OAuth returned status " + statusText))
        else
          match body
          case Err(e) => (s, Err("Failed to parse OAuth response: " + e))
          case Ok(grant) =>
            (AuthState(Some(grant.accessToken), Some(refreshedAt + SaturatingSub(grant.expiresIn, EarlyExpiry))),
             Ok(grant.accessToken))
  }

  /** The invariant is kept by every call. */
  lemma AcquireKeepsConsistent(s: AuthState, now: nat, refreshedAt: nat, exchange: HttpOutcome<TokenResponse>)
    requires Consistent(s)
    ensures Consistent(Acquire(s, now, refreshedAt, exchange).0)
  {
  }

  /** Once expired, a cached token stays expired: time only moves towards a refresh. */
  lemma ExpiredStaysExpired(s: AuthState, now: nat, later: nat)
    requires Expired(s, now) && now <= later
    ensures Expired(s, later)
  {
  }

  /** A fresh token is returned from the cache: no exchange is used and nothing changes. */
  lemma CacheHit(s: AuthState, now: nat, refreshedAt: nat, exchange: HttpOutcome<TokenResponse>)
    requires Consistent(s) && !Expired(s, now)
    ensures Acquire(s, now, refreshedAt, exchange) == (s, Ok(s.token.value))
  {
  }

  /**
   * An expired cache is refreshed exactly when the exchange succeeds. A
   * successful refresh stores the new token with an expiry of
   * `expires_in - 60` seconds (never negative) after the refresh; a failed one
   * leaves both fields as they were.
   */
  lemma RefreshOutcome(s: AuthState, now: nat, refreshedAt: nat, exchange: HttpOutcome<TokenResponse>)
    requires Consistent(s) && Expired(s, now) && now <= refreshedAt
    ensures var (s', r) := Acquire(s, now, refreshedAt, exchange);
      && (r.Ok? <==> exchange.Responded? && IsSuccess(exchange.status) && exchange.body.Ok?)
      && (r.Ok? ==>
            && r.value == exchange.body.value.accessToken
            && s'.token == Some(r.value)
            && s'.expiresAt.Some? && now <= refreshedAt <= s'.expiresAt.value
            && (exchange.body.value.expiresIn >= EarlyExpiry ==>
                  s'.expiresAt.value == refreshedAt + exchange.body.value.expiresIn - EarlyExpiry)
            && (exchange.body.value.expiresIn <= EarlyExpiry ==> s'.expiresAt.value == refreshedAt))
      && (r.Err? ==> s' == s)
  {
  }

  /**
   * Callers are serialised by the lock: once one of them has refreshed, every
   * later caller before the new expiry gets the same token without a second
   * exchange. A lifetime of at most 60 seconds is stored as already expired,
   * so the next caller refreshes again.
   */
  lemma SecondCallerReusesToken(
    s: AuthState, now: nat, refreshedAt: nat, exchange: HttpOutcome<TokenResponse>,
    later: nat, laterRefresh: nat, laterExchange: HttpOutcome<TokenResponse>)
    requires Consistent(s)
    requires Acquire(s, now, refreshedAt, exchange).1.Ok?
    ensures var (s', r) := Acquire(s, now, refreshedAt, exchange);
      && s'.expiresAt.Some?
      && (later < s'.expiresAt.value ==> Acquire(s', later, laterRefresh, laterExchange) == (s', r))
  {
  }

  /** A token granted for at most the margin is expired from the instant it is stored. */
  lemma ShortLivedTokenExpiresAtOnce(s: AuthState, now: nat, refreshedAt: nat, exchange: HttpOutcome<TokenResponse>)
    requires Consistent(s) && Expired(s, now)
    requires exchange.Responded? && IsSuccess(exchange.status) && exchange.body.Ok?
    requires exchange.body.value.expiresIn <= EarlyExpiry
    ensures Expired(Acquire(s, now, refreshedAt, exchange).0, refreshedAt)
  {
  }

  class BattleNetAuth {
    const clientId: string
    const clientSecret: string
    var token: Option<string>
    var expiresAt: Option<nat>

    ghost predicate Valid()
      reads this
    {
      Consistent(State())
    }

    function State(): AuthState
      reads this
    {
      AuthState(token, expiresAt)
    }

    /** `BattleNetAuth::new`: credentials and an empty cache. */
    constructor (clientId: string, clientSecret: string)
      ensures Valid()
      ensures this.clientId == clientId && this.clientSecret == clientSecret
      ensures token == None && expiresAt == None
    {
      this.clientId := clientId;
      this.clientSecret := clientSecret;
      token := None;
      expiresAt := None;
    }

    /** `is_expired`: no expiry counts as expired; otherwise expired from the expiry instant on. */
    function IsExpired(now: nat): (expired: bool)
      reads this
      ensures expiresAt.None? ==> expired
      ensures expiresAt.Some? ==> (expired <==> now >= expiresAt.value)
    {
      Expired(State(), now)
    }
  }

  /**
   * `Handler::get_battlenet_token`. A handler without Battle.net credentials
   * has no cache (`auth == null`) and fails with "Battle.net not configured";
   * otherwise the cache answers or is refreshed as `Acquire` says.
   */
  method GetBattlenetToken(auth: BattleNetAuth?, now: nat, refreshedAt: nat, exchange: HttpOutcome<TokenResponse>)
    returns (r: Result<string, string>)
    requires auth != null ==> auth.Valid()
    requires now <= refreshedAt
    modifies auth
    ensures auth == null ==> r == Err("Battle.net not configured")
    ensures auth != null ==> auth.Valid() && (auth.State(), r) == Acquire(old(auth.State()), now, refreshedAt, exchange)
  {
    if auth == null {
      return Err("Battle.net not configured");
    }
    if !auth.IsExpired(now) {
      return Ok(auth.token.value);
    }
    match exchange {
      case Unreachable(detail) =>
        r := Err("OAuth request failed: " + detail);
      case Responded(status, statusText, body) =>
        if !IsSuccess(status) {
          r := Err("OAuth returned status " + statusText);
        } else {
          match body {
            case Err(e) =>
              r := Err("Failed to parse OAuth response: " + e);
            case Ok(grant) =>
              var expires := refreshedAt + SaturatingSub(grant.expiresIn, EarlyExpiry);
              auth.token := Some(grant.accessToken);
              auth.expiresAt := Some(expires);
              r := Ok(grant.accessToken);
          }
        }
    }
  }
}
