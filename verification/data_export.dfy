/**
 * DataExportDomain (src/domains/dataExport.domain.ts): an export job that
 * produces a downloadable file for a limited time. `id` stands for the
 * crypto.randomUUID() of the constructor and `now` for new Date(); the
 * free-form `filters` are not modelled.
 */
module DataExport {
  import opened Wrappers
  import opened Clock

  datatype ExportType = UserData | AuditLogs | Metrics | Reports
  datatype Format = Json | Csv | Xml | Pdf
  datatype Status = Pending | Processing | Completed | Failed
  datatype DateRange = DateRange(startDate: int, endDate: int)

  const DefaultLifetimeDays: int := 7
  const NotAvailable: string := "Export not available for download"

  datatype Export = Export(id: string, userId: string, exportType: ExportType, format: Format, status: Status,
                           filePath: Option<string>, fileSize: Option<int>, dateRange: Option<DateRange>,
                           createdAt: int, completedAt: Option<int>, expiresAt: int)

  /** The constructor: pending, with no file, expiring seven days after creation. */
  function NewExport(id: string, userId: string, exportType: ExportType, format: Format,
                     dateRange: Option<DateRange>, now: int): (e: Export)
    ensures e.status == Pending && e.filePath.None? && e.fileSize.None? && e.completedAt.None?
    ensures e.createdAt == now && e.expiresAt == now + 7 * DayMs
    ensures e.id == id && e.userId == userId && e.exportType == exportType && e.format == format
    ensures e.dateRange == dateRange
  {
    Export(id, userId, exportType, format, Pending, None, None, dateRange, now, None, now + DefaultLifetimeDays * DayMs)
  }

  function StartProcessing(e: Export): (e': Export)
    ensures e'.status == Processing && e'.(status := e.status) == e
  {
    e.(status := Processing)
  }

  /** completeExport: COMPLETED, with the file recorded and the completion time stamped. */
  function CompleteExport(e: Export, filePath: string, fileSize: int, now: int): (e': Export)
    ensures e'.status == Completed && e'.filePath == Some(filePath) && e'.fileSize == Some(fileSize)
    ensures e'.completedAt == Some(now)
    ensures e'.(status := e.status, filePath := e.filePath, fileSize := e.fileSize, completedAt := e.completedAt) == e
  {
    e.(status := Completed, filePath := Some(filePath), fileSize := Some(fileSize), completedAt := Some(now))
  }

  /** failExport: FAILED, stamped, with whatever file fields it had. */
  function FailExport(e: Export, now: int): (e': Export)
    ensures e'.status == Failed && e'.completedAt == Some(now)
    ensures e'.(status := e.status, completedAt := e.completedAt) == e
  {
    e.(status := Failed, completedAt := Some(now))
  }

  /** isExpired: strictly after expiresAt. */
  predicate IsExpired(e: Export, now: int) {
    now > e.expiresAt
  }

  /** canDownload: completed and not expired. */
  predicate CanDownload(e: Export, now: int) {
    e.status == Completed && !IsExpired(e, now)
  }

  /** getDownloadUrl: refuses unless the export can be downloaded and has a non-empty path. */
  function GetDownloadUrl(e: Export, baseUrl: string, now: int): (r: Result<string, string>)
    ensures r.Ok? <==> CanDownload(e, now) && e.filePath.Some? && e.filePath.value != ""
    ensures r.Err? ==> r.error == NotAvailable
    ensures r.Ok? ==> r.value == baseUrl + "/exports/" + e.id + "/download"
  {
    if !CanDownload(e, now) || e.filePath.None? || e.filePath.value == "" then Err(NotAvailable)
    else Ok(baseUrl + "/exports/" + e.id + "/download")
  }

  /** extendExpiration(d): the expiry becomes d days from now, whatever it was. */
  function ExtendExpiration(e: Export, days: int, now: int): (e': Export)
    ensures e'.expiresAt == now + days * DayMs
    ensures e'.(expiresAt := e.expiresAt) == e
  {
    e.(expiresAt := now + days * DayMs)
  }

  /** A completed export with a file is downloadable from the moment it completes until it expires. */
  lemma DownloadWindow(e: Export, filePath: string, fileSize: int, done: int, baseUrl: string, now: int)
    requires filePath != ""
    ensures GetDownloadUrl(CompleteExport(e, filePath, fileSize, done), baseUrl, now).Ok? <==> now <= e.expiresAt
  {
  }

  /** A new export is never downloadable, and neither is a failed one. */
  lemma OnlyCompletedDownloads(id: string, userId: string, exportType: ExportType, format: Format,
                               dateRange: Option<DateRange>, created: int, e: Export, baseUrl: string, now: int)
    ensures GetDownloadUrl(NewExport(id, userId, exportType, format, dateRange, created), baseUrl, now).Err?
    ensures GetDownloadUrl(FailExport(e, created), baseUrl, now).Err?
  {
  }

  /** An empty file path never yields a URL, even for a completed live export. */
  lemma EmptyPathRefused(e: Export, fileSize: int, done: int, baseUrl: string, now: int)
    ensures GetDownloadUrl(CompleteExport(e, "", fileSize, done), baseUrl, now) == Err(NotAvailable)
  {
  }

  /** Extending is measured from now: a one-day extension of a fresh export shortens its life. */
  lemma ExtendCanShorten(id: string, userId: string, exportType: ExportType, format: Format,
                         dateRange: Option<DateRange>, now: int)
    ensures
      var e := NewExport(id, userId, exportType, format, dateRange, now);
      && !IsExpired(e, now + 2 * DayMs)
      && IsExpired(ExtendExpiration(e, 1, now), now + 2 * DayMs)
  {
  }
}
