/**
 * ApplicationMetricsDomain (src/domains/applicationMetrics.domain.ts): one
 * sampled metric and how alarming it is. A JavaScript number is a real
 * (NaN is not modelled); `now` stands for new Date(). The tags and metadata
 * records are not modelled.
 */
module ApplicationMetrics {
  import opened Clock

  datatype MetricType = RequestCount | ResponseTime | ErrorRate | CpuUsage | MemoryUsage | DatabaseConnections | ActiveUsers
  datatype Severity = Low | Medium | High | Critical

  datatype Metric = Metric(id: string, metricType: MetricType, value: real, unit: string, timestamp: int)

  function NewMetric(id: string, metricType: MetricType, value: real, unit: string, now: int): (m: Metric)
    ensures m.metricType == metricType && m.value == value && m.unit == unit && m.timestamp == now
  {
    Metric(id, metricType, value, unit, now)
  }

  /** isRecent: taken after the instant one hour before now. */
  predicate IsRecent(m: Metric, now: int) {
    m.timestamp > now - HourMs
  }

  /** isCritical: the per-type alarm limits; the other types never alarm. */
  predicate IsCritical(m: Metric) {
    match m.metricType
    case ErrorRate => m.value > 5.0
    case CpuUsage => m.value > 80.0
    case MemoryUsage => m.value > 85.0
    case ResponseTime => m.value > 1000.0
    case _ => false
  }

  /** getSeverity: CRITICAL when critical, else the per-type HIGH and MEDIUM tiers, else LOW. */
  function GetSeverity(m: Metric): (s: Severity)
    ensures s == Critical <==> IsCritical(m)
  {
    if IsCritical(m) then Critical
    else match m.metricType
      case ErrorRate => if m.value > 2.0 then High else if m.value > 1.0 then Medium else Low
      case CpuUsage => if m.value > 60.0 then High else if m.value > 40.0 then Medium else Low
      case MemoryUsage => if m.value > 70.0 then High else if m.value > 50.0 then Medium else Low
      case ResponseTime => if m.value > 500.0 then High else if m.value > 200.0 then Medium else Low
      case _ => Low
  }

  /** The three limits above which a metric of a type is MEDIUM, HIGH and CRITICAL. */
  datatype Limits = Limits(medium: real, high: real, critical: real)

  /** The thresholds as one table; the types without a row are always LOW. */
  function LimitsOf(t: MetricType): (l: Limits)
    requires t in {ErrorRate, CpuUsage, MemoryUsage, ResponseTime}
    ensures 0.0 < l.medium < l.high < l.critical
  {
    match t
    case ErrorRate => Limits(1.0, 2.0, 5.0)
    case CpuUsage => Limits(40.0, 60.0, 80.0)
    case MemoryUsage => Limits(50.0, 70.0, 85.0)
    case ResponseTime => Limits(200.0, 500.0, 1000.0)
  }

  /** Severity read off the table: the highest limit the value exceeds. */
  function Tier(l: Limits, value: real): (s: Severity)
    requires l.medium < l.high < l.critical
    ensures s == Critical <==> value > l.critical
    ensures s == High <==> l.high < value <= l.critical
    ensures s == Medium <==> l.medium < value <= l.high
    ensures s == Low <==> value <= l.medium
  {
    if value > l.critical then Critical
    else if value > l.high then High
    else if value > l.medium then Medium
    else Low
  }

  /** getSeverity is the table's tiering for the four rated types, and LOW for the rest. */
  lemma SeverityFollowsLimits(m: Metric)
    ensures m.metricType in {ErrorRate, CpuUsage, MemoryUsage, ResponseTime} ==>
      GetSeverity(m) == Tier(LimitsOf(m.metricType), m.value)
    ensures m.metricType !in {ErrorRate, CpuUsage, MemoryUsage, ResponseTime} ==> GetSeverity(m) == Low
  {
  }

  /** Severities in increasing order. */
  function Rank(s: Severity): (r: nat)
    ensures r <= 3 && (r == 0 <==> s == Low) && (r == 3 <==> s == Critical)
  {
    match s
    case Low => 0
    case Medium => 1
    case High => 2
    case Critical => 3
  }

  /** For a fixed type, a larger value is never less severe. */
  lemma {:induction false} SeverityMonotone(m: Metric, value: real)
    requires m.value <= value
    ensures Rank(GetSeverity(m)) <= Rank(GetSeverity(m.(value := value)))
  {
    if m.metricType in {ErrorRate, CpuUsage, MemoryUsage, ResponseTime} {
      SeverityFollowsLimits(m);
      SeverityFollowsLimits(m.(value := value));
    }
  }

  /** A metric is recent for one hour after it is taken, and not a millisecond longer. */
  lemma RecentForAnHour(id: string, metricType: MetricType, value: real, unit: string, taken: int, now: int)
    ensures IsRecent(NewMetric(id, metricType, value, unit, taken), now) <==> now < taken + 3600000
  {
  }
}
