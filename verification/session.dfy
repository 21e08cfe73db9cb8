/**
 * SessionDomain (src/domains/session.domain.ts): a login session with an
 * expiry instant. Times are milliseconds; `now` stands for new Date().
 * setHours(getHours() + h) is taken as h fixed hours (see Clock).
 */
module Session {
  import opened Clock

  datatype Session = Session(sessionId: string, userId: string, deviceInfo: string, ipAddress: string,
                             userAgent: string, isActive: bool, createdAt: int, expiresAt: int,
                             lastAccessedAt: int)

  /** The constructor: active, created and last accessed now, expiring when told. */
  function NewSession(sessionId: string, userId: string, deviceInfo: string, ipAddress: string,
                      userAgent: string, expiresAt: int, now: int): (s: Session)
    ensures s.isActive && s.expiresAt == expiresAt
    ensures s.createdAt == now && s.lastAccessedAt == now
    ensures s.sessionId == sessionId && s.userId == userId
  {
    Session(sessionId, userId, deviceInfo, ipAddress, userAgent, true, now, expiresAt, now)
  }

  /** isExpired: strictly after expiresAt. */
  predicate IsExpired(s: Session, now: int) {
    now > s.expiresAt
  }

  /** deactivate: clears isActive and nothing else. */
  function Deactivate(s: Session): (s': Session)
    ensures !s'.isActive && s'.(isActive := s.isActive) == s
  {
    s.(isActive := false)
  }

  /** updateLastAccessed: stamps lastAccessedAt and nothing else. */
  function UpdateLastAccessed(s: Session, now: int): (s': Session)
    ensures s'.lastAccessedAt == now && s'.(lastAccessedAt := s.lastAccessedAt) == s
  {
    s.(lastAccessedAt := now)
  }

  /** extendSession(h): the expiry becomes now + h hours, whatever it was. */
  function ExtendSession(s: Session, hours: int, now: int): (s': Session)
    ensures s'.expiresAt == now + hours * HourMs
    ensures s'.(expiresAt := s.expiresAt) == s
  {
    s.(expiresAt := now + hours * HourMs)
  }

  /** After extendSession(h) at `now`, the session is live exactly until now + h hours. */
  lemma ExtendedLifetime(s: Session, hours: int, now: int, t: int)
    ensures !IsExpired(ExtendSession(s, hours, now), t) <==> t <= now + hours * HourMs
  {
  }

  /** Extending never looks at the old expiry, so "extending" a long session shortens it. */
  lemma ExtendCanShorten(s: Session, now: int)
    requires s.expiresAt == now + 10 * HourMs
    ensures !IsExpired(s, now + 2 * HourMs)
    ensures IsExpired(ExtendSession(s, 1, now), now + 2 * HourMs)
  {
  }

  /** Deactivating does not change when a session expires: the two flags are independent. */
  lemma DeactivateKeepsExpiry(s: Session, now: int)
    ensures IsExpired(Deactivate(s), now) <==> IsExpired(s, now)
  {
  }
}
