/**
 * The per-user, per-endpoint request window of ApiRateLimitDomain
 * (src/domains/apiRateLimit.domain.ts). Times are milliseconds since the
 * epoch; each operation that reads `new Date()` takes it as `now`, and the
 * mutating methods return the updated window.
 */
module ApiRateLimit {
  datatype Window = Window(id: string, userId: string, endpoint: string, requestCount: int,
                           windowStart: int, windowEnd: int, limit: int, windowMs: int)

  /** What the constructor and every operation keep. */
  predicate Valid(w: Window) {
    w.requestCount >= 0 && w.windowEnd == w.windowStart + w.windowMs
  }

  /** resetWindow(): a new window opening now, with nothing counted. */
  function ResetWindow(w: Window, now: int): (r: Window)
    ensures r.requestCount == 0 && r.windowStart == now && r.windowEnd == now + w.windowMs
    ensures r.(requestCount := w.requestCount, windowStart := w.windowStart, windowEnd := w.windowEnd) == w
    ensures Valid(r)
  {
    w.(requestCount := 0, windowStart := now, windowEnd := now + w.windowMs)
  }

  /** The constructor; `id` is the crypto.randomUUID() it draws. */
  function Create(id: string, userId: string, endpoint: string, limit: int, windowMs: int, now: int): (w: Window)
    ensures Valid(w) && w.requestCount == 0 && w.windowStart == now
    ensures w.id == id && w.userId == userId && w.endpoint == endpoint
    ensures w.limit == limit && w.windowMs == windowMs
  {
    ResetWindow(Window(id, userId, endpoint, 0, now, now, limit, windowMs), now)
  }

  /** isWindowExpired(): now is strictly after the window's end. */
  predicate IsWindowExpired(w: Window, now: int) {
    now > w.windowEnd
  }

  /** isLimitExceeded(): resets an expired window; the answer and the window after the call. */
  function IsLimitExceeded(w: Window, now: int): (r: (bool, Window))
    ensures r.0 <==> !IsWindowExpired(w, now) && w.requestCount >= w.limit
    ensures IsWindowExpired(w, now) ==> r.1 == ResetWindow(w, now)
    ensures !IsWindowExpired(w, now) ==> r.1 == w
  {
    if IsWindowExpired(w, now) then (false, ResetWindow(w, now))
    else (w.requestCount >= w.limit, w)
  }

  /** incrementRequest(): count one request, in a fresh window if the old one has ended. */
  function IncrementRequest(w: Window, now: int): (r: Window)
    ensures IsWindowExpired(w, now) ==> r.requestCount == 1 && r.windowStart == now
    ensures !IsWindowExpired(w, now) ==> r == w.(requestCount := w.requestCount + 1)
    ensures Valid(w) ==> Valid(r)
  {
    var w' := if IsWindowExpired(w, now) then ResetWindow(w, now) else w;
    w'.(requestCount := w'.requestCount + 1)
  }

  /** getRemainingRequests(). */
  function RemainingRequests(w: Window, now: int): (n: int)
    ensures IsWindowExpired(w, now) ==> n == w.limit
    ensures !IsWindowExpired(w, now) ==>
      n >= 0 && n >= w.limit - w.requestCount && (n == 0 || n == w.limit - w.requestCount)
  {
    if IsWindowExpired(w, now) then w.limit
    else if w.limit - w.requestCount > 0 then w.limit - w.requestCount else 0
  }

  /**
   * getTimeUntilReset(). The method reads the clock twice: `expiredAt` is
   * the reading isWindowExpired() takes and `now` the later one the
   * subtraction takes. A window that ends between the two readings gives a
   * negative result, at most the gap between them.
   */
  function TimeUntilReset(w: Window, expiredAt: int, now: int): (ms: int)
    ensures IsWindowExpired(w, expiredAt) ==> ms == 0
    ensures !IsWindowExpired(w, expiredAt) ==> now + ms == w.windowEnd
    ensures expiredAt <= now ==> ms >= expiredAt - now
    ensures ms < 0 <==> expiredAt <= w.windowEnd < now
    ensures now <= w.windowEnd ==> ms >= 0
  {
    if IsWindowExpired(w, expiredAt) then 0 else w.windowEnd - now
  }

  /** A window still open at the first reading and closed at the second reports a negative wait. */
  lemma ResetBetweenReadings(w: Window)
    ensures TimeUntilReset(w, w.windowEnd, w.windowEnd + 1) == -1
  {
  }

  /** With a non-negative limit the remaining count lies in [0, limit]. */
  lemma RemainingInRange(w: Window, now: int)
    requires Valid(w) && w.limit >= 0
    ensures 0 <= RemainingRequests(w, now) <= w.limit
  {
  }

  /**
   * Once the window has opened, the wait never exceeds the window length,
   * and it falls below zero by no more than the time between the two clock
   * readings; when both readings fall inside the window it is not negative.
   */
  lemma TimeUntilResetInRange(w: Window, expiredAt: int, now: int)
    requires Valid(w) && w.windowMs >= 0 && w.windowStart <= expiredAt <= now
    ensures expiredAt - now <= TimeUntilReset(w, expiredAt, now) <= w.windowMs
    ensures now <= w.windowEnd ==> 0 <= TimeUntilReset(w, expiredAt, now)
  {
  }

  /** For a positive limit, the limit is exceeded exactly when nothing remains. */
  lemma ExceededIffNoneRemaining(w: Window, now: int)
    requires w.limit > 0
    ensures IsLimitExceeded(w, now).0 <==> RemainingRequests(w, now) == 0
  {
  }

  /** Counting each of `times`, in turn. */
  function IncrementAll(w: Window, times: seq<int>): (r: Window)
    ensures Valid(w) ==> Valid(r)
    ensures r.limit == w.limit && r.windowMs == w.windowMs
    decreases |times|
  {
    if |times| == 0 then w else IncrementAll(IncrementRequest(w, times[0]), times[1..])
  }

  /**
   * Inside one window n counted requests give count + n, and the limit is
   * then exceeded iff count + n >= limit.
   */
  lemma {:induction false} IncrementsInWindow(w: Window, times: seq<int>, now: int)
    requires forall i :: 0 <= i < |times| ==> times[i] <= w.windowEnd
    requires now <= w.windowEnd
    ensures IncrementAll(w, times) == w.(requestCount := w.requestCount + |times|)
    ensures IsLimitExceeded(IncrementAll(w, times), now).0 <==> w.requestCount + |times| >= w.limit
    decreases |times|
  {
    if |times| > 0 {
      IncrementsInWindow(IncrementRequest(w, times[0]), times[1..], now);
    }
  }

  /** A fresh window admits exactly `limit` requests before reporting the limit exceeded. */
  lemma FreshWindowAdmitsLimit(id: string, userId: string, endpoint: string, limit: int, windowMs: int,
                               start: int, times: seq<int>, now: int)
    requires windowMs >= 0
    requires forall i :: 0 <= i < |times| ==> times[i] <= start + windowMs
    requires now <= start + windowMs
    ensures var w := IncrementAll(Create(id, userId, endpoint, limit, windowMs, start), times);
      w.requestCount == |times| && (IsLimitExceeded(w, now).0 <==> |times| >= limit)
  {
    IncrementsInWindow(Create(id, userId, endpoint, limit, windowMs, start), times, now);
  }
}
