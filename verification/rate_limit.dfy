/**
 * The fixed-window rate limiter of RateLimitMiddleware
 * (src/infrastructure/middleware/rateLimit.middleware.ts). The process-wide
 * map of records is an explicit value, Date.now() is a parameter, and a
 * request's handling is split in two steps:
 *   - `Handle`: what happens when the request arrives;
 *   - `Complete`: what the wrapped res.send does when the response goes out.
 */
module RateLimit {
  import opened Wrappers
  import opened Text

  datatype Options = Options(windowMs: int, maxRequests: int, message: string,
                             skipSuccessfulRequests: bool, skipFailedRequests: bool)

  datatype Record = Record(count: int, resetTime: int)

  type Store = map<string, Record>

  const DefaultMessage: string := "Too many requests, please try again later"

  /**
   * The options after destructuring: an absent message or skip flag takes
   * its default, a present one (even "") is kept.
   */
  function Configure(windowMs: int, maxRequests: int, message: Option<string>,
                     skipSuccessful: Option<bool>, skipFailed: Option<bool>): (o: Options)
    ensures o.windowMs == windowMs && o.maxRequests == maxRequests
    ensures o.message == (if message.Some? then message.value else DefaultMessage)
    ensures o.skipSuccessfulRequests <==> skipSuccessful == Some(true)
    ensures o.skipFailedRequests <==> skipFailed == Some(true)
  {
    Options(windowMs, maxRequests, message.GetOr(DefaultMessage),
            skipSuccessful.GetOr(false), skipFailed.GetOr(false))
  }

  /** The X-RateLimit-* headers of a passing, non-first request. */
  datatype Headers = Headers(limit: int, remaining: nat, resetTime: int)

  datatype Decision =
    | Pass(store: Store, headers: Option<Headers>, hooked: bool)
    | Reject(store: Store, message: string, retryAfter: int)

  /** Math.ceil(ms / 1000) for an integer number of milliseconds. */
  function CeilSeconds(ms: int): (s: int)
    ensures (s - 1) * 1000 < ms <= s * 1000
  {
    if ms % 1000 == 0 then ms / 1000 else ms / 1000 + 1
  }

  /** The window has ended strictly before now. */
  predicate Expired(r: Record, now: int) {
    now > r.resetTime
  }

  /** Math.max(0, limit - count). */
  function Remaining(limit: int, count: int): (n: nat)
    ensures n >= limit - count && (n == 0 || n == limit - count)
  {
    if limit - count > 0 then limit - count else 0
  }

  /** The middleware's handling of one arriving request under `key`. */
  function Handle(store: Store, opts: Options, key: string, now: int): (d: Decision)
    ensures key !in store || Expired(store[key], now) ==>
      d == Pass(store[key := Record(1, now + opts.windowMs)], None, false)
    ensures key in store && !Expired(store[key], now) ==>
      d.store == store[key := Record(store[key].count + 1, store[key].resetTime)]
      && (d.Reject? <==> store[key].count + 1 > opts.maxRequests)
    ensures d.Reject? ==>
      d.message == opts.message
      && (d.retryAfter - 1) * 1000 < store[key].resetTime - now <= d.retryAfter * 1000
    ensures d.Pass? && d.headers.Some? ==>
      d.headers.value.limit == opts.maxRequests
      && d.headers.value.resetTime == d.store[key].resetTime
      && d.headers.value.remaining as int == Remaining(opts.maxRequests, d.store[key].count)
    ensures d.Pass? ==> (d.hooked <==> d.headers.Some? && (opts.skipSuccessfulRequests || opts.skipFailedRequests))
  {
    if key !in store || Expired(store[key], now) then
      Pass(store[key := Record(1, now + opts.windowMs)], None, false)
    else
      var record := store[key].(count := store[key].count + 1);
      var store' := store[key := record];
      if record.count > opts.maxRequests then
        Reject(store', opts.message, CeilSeconds(record.resetTime - now))
      else
        Pass(store', Some(Headers(opts.maxRequests, Remaining(opts.maxRequests, record.count), record.resetTime)),
             opts.skipSuccessfulRequests || opts.skipFailedRequests)
  }

  /** A response the options say not to count: successful (< 400) or failed (>= 400). */
  predicate Skipped(opts: Options, hooked: bool, status: int) {
    hooked && ((opts.skipSuccessfulRequests && status < 400) || (opts.skipFailedRequests && status >= 400))
  }

  /** The wrapped res.send: a skipped response gives its request back. */
  function Complete(store: Store, opts: Options, key: string, hooked: bool, status: int): (s: Store)
    ensures s.Keys == store.Keys
    ensures forall k :: k in s && k != key ==> s[k] == store[k]
    ensures key in s ==> s[key].resetTime == store[key].resetTime
    ensures key in s ==>
      s[key].count == store[key].count - (if Skipped(opts, hooked, status) then 1 else 0)
  {
    if Skipped(opts, hooked, status) && key in store then
      store[key := store[key].(count := store[key].count - 1)]
    else store
  }

  /** A hooked request whose response is skipped leaves its key's count as it found it. */
  lemma SkippedRequestNotCounted(store: Store, opts: Options, key: string, now: int, status: int)
    requires key in store && !Expired(store[key], now)
    requires Handle(store, opts, key, now).Pass?
    requires (opts.skipSuccessfulRequests && status < 400) || (opts.skipFailedRequests && status >= 400)
    ensures
      var d := Handle(store, opts, key, now);
      Complete(d.store, opts, key, d.hooked, status) == store
  {
  }

  // ---------------------------------------------------------------------
  // A burst of requests
  // ---------------------------------------------------------------------

  /** Pass (true) or reject (false) for requests arriving in turn, no response hooks run. */
  function Outcomes(store: Store, opts: Options, key: string, times: seq<int>): (r: seq<bool>)
    ensures |r| == |times|
    decreases |times|
  {
    if |times| == 0 then []
    else
      var d := Handle(store, opts, key, times[0]);
      [d.Pass?] + Outcomes(d.store, opts, key, times[1..])
  }

  /** Inside a live window with count c, the j-th further request passes iff c + j + 1 <= max. */
  lemma {:induction false} BurstInWindow(store: Store, opts: Options, key: string, times: seq<int>, c: int, resetTime: int)
    requires key in store && store[key] == Record(c, resetTime)
    requires forall i :: 0 <= i < |times| ==> times[i] <= resetTime
    ensures forall j :: 0 <= j < |times| ==> (Outcomes(store, opts, key, times)[j] <==> c + j + 1 <= opts.maxRequests)
  {
    if |times| > 0 {
      var d := Handle(store, opts, key, times[0]);
      BurstInWindow(d.store, opts, key, times[1..], c + 1, resetTime);
      var r := Outcomes(store, opts, key, times);
      assert r[1..] == Outcomes(d.store, opts, key, times[1..]);
    }
  }

  /**
   * Starting a fresh window, with no response hooks, exactly the first
   * max(maxRequests, 1) requests pass and the rest are rejected; a rejected
   * request still counts.
   */
  lemma FreshWindow(store: Store, opts: Options, key: string, times: seq<int>)
    requires |times| > 0 && (key !in store || Expired(store[key], times[0]))
    requires forall i :: 0 <= i < |times| ==> times[i] <= times[0] + opts.windowMs
    ensures forall j :: 0 <= j < |times| ==>
      (Outcomes(store, opts, key, times)[j] <==> j == 0 || j + 1 <= opts.maxRequests)
  {
    var d := Handle(store, opts, key, times[0]);
    BurstInWindow(d.store, opts, key, times[1..], 1, times[0] + opts.windowMs);
    assert Outcomes(store, opts, key, times)[1..] == Outcomes(d.store, opts, key, times[1..]);
  }

  // ---------------------------------------------------------------------
  // The retry-after bound
  // ---------------------------------------------------------------------

  /** Every record's window ends at most windowMs after now. */
  predicate WindowsBounded(store: Store, opts: Options, now: int) {
    forall k :: k in store ==> store[k].resetTime <= now + opts.windowMs
  }

  /** Handling and completion keep the bound as the clock moves forward. */
  lemma WindowsStayBounded(store: Store, opts: Options, key: string, now: int, later: int, status: int)
    requires WindowsBounded(store, opts, now) && now <= later
    ensures WindowsBounded(Handle(store, opts, key, later).store, opts, later)
    ensures WindowsBounded(Complete(store, opts, key, true, status), opts, now)
  {
  }

  /** A rejection asks the client to wait between 0 and ceil(windowMs / 1000) seconds. */
  lemma RetryAfterRange(store: Store, opts: Options, key: string, now: int)
    requires WindowsBounded(store, opts, now)
    requires Handle(store, opts, key, now).Reject?
    ensures 0 <= Handle(store, opts, key, now).retryAfter <= CeilSeconds(opts.windowMs)
  {
    var r := Handle(store, opts, key, now).retryAfter;
    var w := CeilSeconds(opts.windowMs);
    assert (r - 1) * 1000 < opts.windowMs <= w * 1000;
  }

  // ---------------------------------------------------------------------
  // Cleanup
  // ---------------------------------------------------------------------

  /** cleanup(): drop exactly the records whose window has ended. */
  function Cleanup(store: Store, now: int): (s: Store)
    ensures forall k :: k in s <==> k in store && !Expired(store[k], now)
    ensures forall k :: k in s ==> s[k] == store[k]
  {
    map k | k in store && !Expired(store[k], now) :: store[k]
  }

  /** Cleaning up first changes no decision, and commutes with handling. */
  lemma CleanupInvisible(store: Store, opts: Options, key: string, now: int)
    requires opts.windowMs >= 0
    ensures Handle(Cleanup(store, now), opts, key, now).Pass? == Handle(store, opts, key, now).Pass?
    ensures Handle(Cleanup(store, now), opts, key, now).store == Cleanup(Handle(store, opts, key, now).store, now)
  {
    var a := Handle(Cleanup(store, now), opts, key, now).store;
    var b := Cleanup(Handle(store, opts, key, now).store, now);
    assert a.Keys == b.Keys;
  }

  // ---------------------------------------------------------------------
  // Keys and presets
  // ---------------------------------------------------------------------

  /** The parts of a request the default key reads. */
  datatype Request = Request(forwardedFor: Option<string>, ip: Option<string>)

  /**
   * getDefaultKey: the first comma-separated field of X-Forwarded-For when
   * that header is non-empty, else req.ip; an empty result becomes 'unknown'.
   */
  function GetDefaultKey(req: Request): (key: string)
    ensures key != ""
    ensures req.forwardedFor.Some? && req.forwardedFor.value != "" ==>
      key == (if FirstField(req.forwardedFor.value, ',') != "" then FirstField(req.forwardedFor.value, ',') else "unknown")
    ensures (req.forwardedFor.None? || req.forwardedFor.value == "") ==>
      key == (if req.ip.Some? && req.ip.value != "" then req.ip.value else "unknown")
    ensures req.forwardedFor.Some? && req.forwardedFor.value != "" && key != "unknown" ==>
      ',' !in key && req.forwardedFor.value[..|key|] == key
  {
    var ip := if req.forwardedFor.Some? && req.forwardedFor.value != "" then Some(FirstField(req.forwardedFor.value, ','))
              else req.ip;
    if ip.Some? && ip.value != "" then ip.value else "unknown"
  }

  /** The forwarded key is the text before the first comma, not trimmed. */
  lemma ForwardedKeyExample()
    ensures GetDefaultKey(Request(Some("10.0.0.1, 10.0.0.2"), Some("127.0.0.1"))) == "10.0.0.1"
  {
    FirstFieldAt("10.0.0.1, 10.0.0.2", ',', 8);
  }

  lemma UntrimmedKeyExample()
    ensures GetDefaultKey(Request(Some(" 10.0.0.1,x"), None)) == " 10.0.0.1"
  {
    FirstFieldAt(" 10.0.0.1,x", ',', 9);
  }

  /** An empty first field does not fall back to req.ip. */
  lemma EmptyFieldExample()
    ensures GetDefaultKey(Request(Some(",10.0.0.2"), Some("127.0.0.1"))) == "unknown"
  {
    FirstFieldAt(",10.0.0.2", ',', 0);
  }

  const FifteenMinutes: int := 15 * 60 * 1000
  const OneHour: int := 60 * 60 * 1000

  function ApiLimiter(maxRequests: int, windowMs: int): (o: Options)
  {
    Configure(windowMs, maxRequests, Some("Too many API requests, please try again later"), None, None)
  }

  function AuthLimiter(maxRequests: int, windowMs: int): (o: Options)
  {
    Configure(windowMs, maxRequests, Some("Too many authentication attempts, please try again later"), Some(true), None)
  }

  function PasswordResetLimiter(maxRequests: int, windowMs: int): (o: Options)
  {
    Configure(windowMs, maxRequests, Some("Too many password reset attempts, please try again later"), None, None)
  }

  /**
   * The presets with their default arguments: API 100 per 15 minutes,
   * authentication 5 per 15 minutes counting only failures, password reset
   * 3 per hour. Within one fresh window, with no response completing in
   * between, the (limit + 1)-th request is the first one refused. A
   * successful authentication request hands its slot back when its response
   * finishes (SkippedRequestNotCounted), so the program can pass more.
   */
  lemma PresetLimits(store: Store, key: string, times: seq<int>)
    requires |times| > 0 && (key !in store || Expired(store[key], times[0]))
    requires forall i :: 0 <= i < |times| ==> times[0] <= times[i] <= times[0] + FifteenMinutes
    ensures forall j :: 0 <= j < |times| ==>
      (Outcomes(store, ApiLimiter(100, FifteenMinutes), key, times)[j] <==> j < 100)
    ensures forall j :: 0 <= j < |times| ==>
      (Outcomes(store, PasswordResetLimiter(3, OneHour), key, times)[j] <==> j < 3)
    ensures forall j :: 0 <= j < |times| ==>
      (Outcomes(store, AuthLimiter(5, FifteenMinutes), key, times)[j] <==> j < 5)
    ensures AuthLimiter(5, FifteenMinutes).skipSuccessfulRequests && !AuthLimiter(5, FifteenMinutes).skipFailedRequests
  {
    FreshWindow(store, ApiLimiter(100, FifteenMinutes), key, times);
    FreshWindow(store, PasswordResetLimiter(3, OneHour), key, times);
    FreshWindow(store, AuthLimiter(5, FifteenMinutes), key, times);
  }

  /**
   * All limiters share one store, so requests counted by one preset count
   * against another under the same key: five live API requests from an
   * address leave the authentication limiter nothing.
   */
  lemma SharedStore(store: Store, key: string, now: int)
    requires key in store && !Expired(store[key], now) && store[key].count >= 5
    ensures Handle(store, AuthLimiter(5, FifteenMinutes), key, now).Reject?
  {
  }
}
