/**
 * PerformanceMonitoringDomain (src/domains/performanceMonitoring.domain.ts):
 * one timed request and its grade. Response times are reals in
 * milliseconds, status codes integers; `now` stands for new Date().
 */
module PerformanceMonitoring {
  import opened Wrappers

  datatype Grade = A | B | C | D | F

  datatype Sample = Sample(id: string, endpoint: string, httpMethod: string, responseTime: real, statusCode: int,
                           timestamp: int, userId: Option<string>, userAgent: Option<string>, ipAddress: Option<string>,
                           memoryUsage: Option<real>, cpuUsage: Option<real>)

  function NewSample(id: string, endpoint: string, httpMethod: string, responseTime: real, statusCode: int,
                     userId: Option<string>, userAgent: Option<string>, ipAddress: Option<string>, now: int): (s: Sample)
    ensures s.endpoint == endpoint && s.httpMethod == httpMethod && s.responseTime == responseTime
    ensures s.statusCode == statusCode && s.timestamp == now && s.userId == userId
    ensures s.userAgent == userAgent && s.ipAddress == ipAddress
    ensures s.memoryUsage.None? && s.cpuUsage.None?
  {
    Sample(id, endpoint, httpMethod, responseTime, statusCode, now, userId, userAgent, ipAddress, None, None)
  }

  /** isSlow: over one second. */
  predicate IsSlow(s: Sample) {
    s.responseTime > 1000.0
  }

  /** isFailed: a client or server error status. */
  predicate IsFailed(s: Sample) {
    s.statusCode >= 400
  }

  /** isCritical: over five seconds, or a server error. */
  predicate IsCritical(s: Sample) {
    s.responseTime > 5000.0 || s.statusCode >= 500
  }

  /** getPerformanceGrade: F critical, D failed, C slow, B over half a second, else A. */
  function PerformanceGrade(s: Sample): (g: Grade)
    ensures g == A <==> s.responseTime <= 500.0 && s.statusCode < 400
    ensures g == F <==> IsCritical(s)
    ensures g == D <==> !IsCritical(s) && IsFailed(s)
    ensures g == C <==> !IsCritical(s) && !IsFailed(s) && IsSlow(s)
    ensures g == B <==> 500.0 < s.responseTime <= 1000.0 && s.statusCode < 400
  {
    if IsCritical(s) then F
    else if IsFailed(s) then D
    else if IsSlow(s) then C
    else if s.responseTime > 500.0 then B
    else A
  }

  /** Grades from best to worst. */
  function Rank(g: Grade): (r: nat)
    ensures r <= 4 && (r == 0 <==> g == A) && (r == 4 <==> g == F)
  {
    match g
    case A => 0
    case B => 1
    case C => 2
    case D => 3
    case F => 4
  }

  /** For a fixed status, a slower response never earns a better grade. */
  lemma GradeMonotone(s: Sample, responseTime: real)
    requires s.responseTime <= responseTime
    ensures Rank(PerformanceGrade(s)) <= Rank(PerformanceGrade(s.(responseTime := responseTime)))
  {
  }

  /** A server error grades F however fast the response was. */
  lemma ServerErrorFails(s: Sample)
    requires s.statusCode >= 500
    ensures PerformanceGrade(s) == F
  {
  }
}
