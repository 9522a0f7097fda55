/**
  The pure parts of activity logging (lib/activity-logger.ts): severity classification, the
  mapping of file operations onto log actions, validation and sanitising of the logged
  fields, and the sanitising of a failed security log's error message.
*/
module ActivityLogger {
  import opened Common
  import opened JsString
  import Sanitize
  import opened ErrorHandler

  datatype Action = Create | Update | Delete | Login | Logout | AccessDenied
  datatype ResourceType = Category | Question | Auth | File
  datatype Severity = Low | Medium | High

  /** `getSeverityLevel`: deletions and anything about authentication are high, creations medium. */
  function SeverityLevel(action: Action, resource: ResourceType): (s: Severity)
    ensures s == High <==> action == Delete || resource == Auth
    ensures s == Medium <==> action == Create && resource != Auth
    ensures s == Low <==> action != Delete && action != Create && resource != Auth
  {
    if action == Delete then High
    else if resource == Auth then High
    else if action == Create then Medium
    else Low
  }

  /** The row `logActivity` inserts into the activity log. */
  datatype LogEntry = LogEntry(
    adminEmail: string,
    action: Action,
    resourceType: ResourceType,
    resourceId: string,
    resourceName: string,
    sessionId: string,
    severity: Severity,
    fileOperation: bool)

  /** Either the row to insert or the validation error that aborted the log call. */
  datatype LogOutcome = Insert(entry: LogEntry) | Aborted(error: AppError)

  /** `session?.userId || 'anonymous'`. */
  function SessionTag(sessionUserId: Option<string>): string {
    if sessionUserId.Some? && sessionUserId.value != [] then sessionUserId.value else "anonymous"
  }

  /**
    `logActivity` up to the insert: the email, resource id and resource name are validated in
    that order (the first failure aborts the call) and the logged values are the sanitised,
    trimmed fields. `sessionUserId` is the user id of the local session record, read by the
    caller; `fileOperation` is the `file_operation` flag of the details.
  */
  function LogActivity(
    adminEmail: string, action: Action, resourceType: ResourceType,
    resourceId: string, resourceName: string, sessionUserId: Option<string>, fileOperation: bool
  ): (r: LogOutcome)
    ensures r.Insert? <==>
      ValidateInput(Text(adminEmail), "Admin email").Valid?
      && ValidateInput(Text(resourceId), "Resource ID").Valid?
      && ValidateInput(Text(resourceName), "Resource name").Valid?
    ensures r.Insert? ==>
      && r.entry.adminEmail == Sanitize.SanitizeInput(Trim(adminEmail))
      && r.entry.resourceId == Sanitize.SanitizeInput(Trim(resourceId))
      && r.entry.resourceName == Sanitize.SanitizeInput(Trim(resourceName))
      && r.entry.action == action && r.entry.resourceType == resourceType
      && r.entry.severity == SeverityLevel(action, resourceType)
    ensures !ValidateInput(Text(adminEmail), "Admin email").Valid? ==>
      r == Aborted(ValidateInput(Text(adminEmail), "Admin email").error)
  {
    match ValidateInput(Text(adminEmail), "Admin email")
    case Thrown(e) => Aborted(e)
    case Valid(email) =>
      match ValidateInput(Text(resourceId), "Resource ID")
      case Thrown(e) => Aborted(e)
      case Valid(id) =>
        match ValidateInput(Text(resourceName), "Resource name")
        case Thrown(e) => Aborted(e)
        case Valid(name) =>
          Insert(LogEntry(
            Sanitize.SanitizeInput(email), action, resourceType,
            Sanitize.SanitizeInput(id), Sanitize.SanitizeInput(name),
            SessionTag(sessionUserId), SeverityLevel(action, resourceType), fileOperation))
  }

  /** The operations `logFileOperation` reports. */
  datatype FileOperation = Upload | Remove | ValidationFailed

  /**
    `logFileOperation`: an upload is logged as a creation and every other operation as a
    deletion, always of a `file` resource named by the file, with `file_operation` set.
  */
  function LogFileOperation(adminEmail: string, operation: FileOperation, fileName: string,
                            sessionUserId: Option<string>): (r: LogOutcome)
    ensures r.Insert? ==>
      && r.entry.action == (if operation == Upload then Create else Delete)
      && r.entry.resourceType == File
      && r.entry.fileOperation
      && r.entry.resourceId == r.entry.resourceName
      && r.entry.severity == (if operation == Upload then Medium else High)
  {
    LogActivity(adminEmail, if operation == Upload then Create else Delete, File,
                fileName, fileName, sessionUserId, true)
  }

  /** The events `logSecurityEvent` records. */
  datatype SecurityEvent = LoginAttempt | LoginSuccess | LoginFailed | EventAccessDenied | RateLimitExceeded

  /**
    The error message `logSecurityEvent` prints when its insert fails: CR, LF and TAB become
    spaces and at most 200 characters are kept; a missing message reads "Unknown error".
  */
  function SecurityErrorMessage(message: string): (r: string)
    ensures message == [] ==> r == "Unknown error"
    ensures message != [] ==> |r| == Min(|message|, 200)
    ensures message != [] ==>
      forall k :: 0 <= k < |r| ==> r[k] == (if Sanitize.IsControl(message[k]) then ' ' else message[k])
    ensures forall c :: c in r ==> !Sanitize.IsControl(c)
  {
    if message == [] then "Unknown error"
    else
      var spaced := seq(|message|, k requires 0 <= k < |message| =>
        if Sanitize.IsControl(message[k]) then ' ' else message[k]);
      Take(spaced, 200)
  }
}
