/**
 * UserAnalyticsDomain (src/domains/userAnalytics.domain.ts): one tracked
 * user event and its reporting category. `now` stands for new Date(); the
 * free-form properties record is not modelled.
 */
module UserAnalytics {
  import opened Wrappers
  import opened Clock

  datatype EventType = Login | Logout | PageView | FeatureUse | Error | Conversion

  datatype Event = Event(id: string, userId: string, eventType: EventType, eventName: string, timestamp: int,
                         sessionId: Option<string>, ipAddress: Option<string>, userAgent: Option<string>,
                         referrer: Option<string>)

  const Authentication: string := "Authentication"
  const Navigation: string := "Navigation"
  const Engagement: string := "Engagement"
  const ErrorCategory: string := "Error"
  const ConversionCategory: string := "Conversion"

  function NewEvent(id: string, userId: string, eventType: EventType, eventName: string, sessionId: Option<string>,
                    ipAddress: Option<string>, userAgent: Option<string>, referrer: Option<string>, now: int): (e: Event)
    ensures e.userId == userId && e.eventType == eventType && e.eventName == eventName && e.timestamp == now
    ensures e.sessionId == sessionId && e.referrer == referrer
    ensures e.ipAddress == ipAddress && e.userAgent == userAgent
  {
    Event(id, userId, eventType, eventName, now, sessionId, ipAddress, userAgent, referrer)
  }

  /** isRecent: after the instant one hour before now. */
  predicate IsRecent(e: Event, now: int) {
    e.timestamp > now - HourMs
  }

  predicate IsConversion(e: Event) {
    e.eventType == Conversion
  }

  predicate IsError(e: Event) {
    e.eventType == Error
  }

  /** getCategory: log-ins and log-outs are authentication; every other type has a category of its own. */
  function Category(e: Event): (c: string)
    ensures c == Authentication <==> e.eventType in {Login, Logout}
    ensures c == ErrorCategory <==> IsError(e)
    ensures c == ConversionCategory <==> IsConversion(e)
    ensures c == Navigation <==> e.eventType == PageView
    ensures c == Engagement <==> e.eventType == FeatureUse
  {
    match e.eventType
    case Login => Authentication
    case Logout => Authentication
    case PageView => Navigation
    case FeatureUse => Engagement
    case Error => ErrorCategory
    case Conversion => ConversionCategory
  }

  /** Two events share a category exactly when their types are equal or both are log-in/log-out. */
  lemma CategoryClasses(a: Event, b: Event)
    ensures Category(a) == Category(b) <==>
      a.eventType == b.eventType || (a.eventType in {Login, Logout} && b.eventType in {Login, Logout})
  {
  }

  /** An event is recent for one hour after it is recorded. */
  lemma RecentForAnHour(e: Event, now: int)
    ensures IsRecent(e, now) <==> now < e.timestamp + 3600000
  {
  }
}
