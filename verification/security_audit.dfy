/**
 * SecurityAuditDomain (src/domains/securityAudit.domain.ts): one entry of
 * the security audit trail. `id` stands for crypto.randomUUID() and `now`
 * for new Date(); the metadata record is not modelled.
 */
module SecurityAudit {
  import opened Wrappers
  import opened Clock

  datatype EventType = LoginSuccess | LoginFailed | Logout | PasswordChange | TwoFactorEnabled
                     | TwoFactorDisabled | EmailVerified | SecurityAlert
  datatype Severity = Low | Medium | High | Critical

  datatype AuditEvent = AuditEvent(id: string, userId: Option<string>, eventType: EventType, eventDescription: string,
                                   ipAddress: string, userAgent: string, timestamp: int, severity: Severity)

  /** The constructor: everything as given, severity LOW when none is given. */
  function NewAuditEvent(id: string, eventType: EventType, eventDescription: string, ipAddress: string,
                         userAgent: string, severity: Option<Severity>, userId: Option<string>, now: int): (e: AuditEvent)
    ensures e.eventType == eventType && e.eventDescription == eventDescription
    ensures e.ipAddress == ipAddress && e.userAgent == userAgent && e.userId == userId
    ensures severity.None? ==> e.severity == Low
    ensures severity.Some? ==> e.severity == severity.value
    ensures e.timestamp == now
  {
    AuditEvent(id, userId, eventType, eventDescription, ipAddress, userAgent, now, severity.GetOr(Low))
  }

  /** isHighPriority: HIGH or CRITICAL. */
  predicate IsHighPriority(e: AuditEvent) {
    e.severity == High || e.severity == Critical
  }

  /** isRecent: after the instant 24 hours before now. */
  predicate IsRecent(e: AuditEvent, now: int) {
    e.timestamp > now - 24 * HourMs
  }

  /** An entry logged without a severity is never high priority. */
  lemma DefaultIsRoutine(id: string, eventType: EventType, eventDescription: string, ipAddress: string,
                         userAgent: string, userId: Option<string>, now: int)
    ensures !IsHighPriority(NewAuditEvent(id, eventType, eventDescription, ipAddress, userAgent, None, userId, now))
  {
  }

  /** An entry stays recent for a day after it is logged. */
  lemma RecentForADay(id: string, eventType: EventType, eventDescription: string, ipAddress: string,
                      userAgent: string, severity: Option<Severity>, userId: Option<string>, logged: int, now: int)
    ensures IsRecent(NewAuditEvent(id, eventType, eventDescription, ipAddress, userAgent, severity, userId, logged), now)
        <==> now < logged + 86400000
  {
  }
}
