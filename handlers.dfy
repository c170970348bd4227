/** The decision and sequencing logic of the three POST handlers of the
    intake service (src/index.ts). The storage provider (Cloudinary) and the
    messaging provider (Twilio) are not modelled: each handler takes the reply
    the provider would give and returns the HTTP response together with the
    list of provider calls it made, in order. */
module Handlers {
  import RateLimit

  datatype Option<T> = None | Some(value: T)

  /** A JavaScript string value that tests true: present and not empty. */
  predicate Truthy(s: Option<string>)
  {
    s.Some? && s.value != ""
  }

  /** The file the multipart middleware stored on disk: its path and its generated name. */
  datatype UploadedFile = UploadedFile(path: string, filename: string)

  /** What the storage provider hands to the completion callback: an error, or
      a result that may carry a `url` and a `secure_url` (an absent result is
      a result with neither). */
  datatype StorageReply =
    | StorageError(message: string)
    | StorageResult(url: Option<string>, secureUrl: Option<string>)

  /** What the messaging provider's `create` call settles to. */
  datatype NotifyReply = NotifyError(message: string) | Sent(sid: string)

  /** A call into a provider. `StreamUpload` is the streamed raw upload of
      /report-upload, whose payload is the file's path string; `FileUpload`
      is the upload from a disk path of /upload; `CreateMessage` sends a text
      message. */
  datatype Call =
    | StreamUpload(resourceType: string, publicId: string, payload: string)
    | FileUpload(path: string, publicId: string)
    | CreateMessage(body: string, from: string, to: string)

  /** An HTTP response: the status code and the JSON body's fields. */
  datatype Response = Response(status: int, message: string, fileUrl: Option<string>)

  /** The response together with the provider calls made, in order. */
  datatype Outcome = Outcome(response: Response, calls: seq<Call>)

  const ReportTemplate: string := "Here is the approved reports CSV file: "
  const Sender: string := "whatsapp:+14155238886"
  const Recipient: string := "whatsapp:+918904764954"

  /** The URL the /report-upload callback resolves with: none on an error or
      when `secure_url` is missing or empty. */
  function SecureUrl(reply: StorageReply): (r: Option<string>)
    ensures r.Some? <==> reply.StorageResult? && Truthy(reply.secureUrl)
    ensures r.Some? ==> r == reply.secureUrl
  {
    match reply
    case StorageError(_) => None
    case StorageResult(_, secure) => if Truthy(secure) then secure else None
  }

  /** The URL the /upload callback resolves with: none on an error or when
      `url` is missing or empty. */
  function PlainUrl(reply: StorageReply): (r: Option<string>)
    ensures r.Some? <==> reply.StorageResult? && Truthy(reply.url)
    ensures r.Some? ==> r == reply.url
  {
    match reply
    case StorageError(_) => None
    case StorageResult(url, _) => if Truthy(url) then url else None
  }

  /** POST /report: 429 when the rate limiter rejects, 200 when it admits. */
  function Report(admitted: bool): (r: Response)
    ensures r.status == 200 <==> admitted
    ensures r.status == 429 <==> !admitted
    ensures r.fileUrl == None
  {
    if !admitted then Response(429, "Too many request, please try again later", None)
    else Response(200, "Success", None)
  }

  /** POST /report against a live rate limiter: the request is recorded and
      throttled exactly when the limiter's rule says so. */
  method HandleReport(limiter: RateLimit.RateLimiter, ip: string, now: int) returns (r: Response)
    requires limiter.Valid()
    modifies limiter
    ensures limiter.Valid()
    ensures limiter.store == RateLimit.Step(old(limiter.store), ip, now).store
    ensures r.status == 429 <==> RateLimit.Throttles(old(limiter.store), ip, now)
    ensures r.status == 200 <==> !RateLimit.Throttles(old(limiter.store), ip, now)
  {
    var admitted := limiter.RateLimit(ip, now);
    r := Report(admitted);
  }

  /** Whether /report-upload's inputs pass its check: both the file and a
      non-empty file name are present. */
  predicate HasReportInputs(fileName: Option<string>, file: Option<UploadedFile>)
  {
    file.Some? && Truthy(fileName)
  }

  /** POST /report-upload: validate, stream the file to storage under the
      given name, and only once a secure URL is known send the message that
      embeds it. */
  function ReportUpload(fileName: Option<string>, file: Option<UploadedFile>,
                        storage: StorageReply, notify: NotifyReply): (r: Outcome)
    ensures r.response.status in {200, 400, 500}
    ensures r.response.status == 400 <==> !HasReportInputs(fileName, file)
    ensures !HasReportInputs(fileName, file) ==> r.calls == []
    ensures HasReportInputs(fileName, file) ==>
      |r.calls| >= 1 && r.calls[0] == StreamUpload("raw", fileName.value, file.value.path)
    ensures r.response.status == 200 <==>
      HasReportInputs(fileName, file) && SecureUrl(storage).Some? && notify.Sent?
    ensures r.response.status == 200 ==> r.response.fileUrl == SecureUrl(storage)
    ensures r.response.status != 200 ==> r.response.fileUrl == None
  {
    if !(file.Some? && Truthy(fileName)) then
      Outcome(Response(400, "File name and content are required", None), [])
    else
      var upload := StreamUpload("raw", fileName.value, file.value.path);
      match SecureUrl(storage)
      case None =>
        Outcome(Response(500, "Failed to precess request", None), [upload])
      case Some(fileUrl) =>
        var message := CreateMessage(ReportTemplate + fileUrl, Sender, Recipient);
        match notify
        case NotifyError(_) =>
          Outcome(Response(500, "Failed to precess request", None), [upload, message])
        case Sent(_) =>
          Outcome(Response(200, "File uploaded and message send successfully", Some(fileUrl)),
                  [upload, message])
  }

  /** No message is sent before an upload, and every message sent carries `url`. */
  predicate NotifiesAfterUpload(calls: seq<Call>, url: Option<string>)
  {
    forall i :: 0 <= i < |calls| && calls[i].CreateMessage? ==>
      && 0 < i && calls[i - 1].StreamUpload?
      && url.Some? && calls[i] == CreateMessage(ReportTemplate + url.value, Sender, Recipient)
  }

  /** The number of messages in a list of calls. */
  function MessagesSent(calls: seq<Call>): (n: nat)
    ensures n <= |calls|
  {
    if calls == [] then 0
    else (if calls[0].CreateMessage? then 1 else 0) + MessagesSent(calls[1..])
  }

  /** The number of uploads in a list of calls. */
  function UploadsMade(calls: seq<Call>): (n: nat)
    ensures n <= |calls|
  {
    if calls == [] then 0
    else (if calls[0].CreateMessage? then 0 else 1) + UploadsMade(calls[1..])
  }

  /** /report-upload sends a message exactly once when the upload yields a
      secure URL, never otherwise, and only after the upload, with the URL in
      its body; it uploads at most once. */
  lemma ReportUploadSequencing(fileName: Option<string>, file: Option<UploadedFile>,
                               storage: StorageReply, notify: NotifyReply)
    ensures NotifiesAfterUpload(ReportUpload(fileName, file, storage, notify).calls, SecureUrl(storage))
    ensures MessagesSent(ReportUpload(fileName, file, storage, notify).calls) ==
      if HasReportInputs(fileName, file) && SecureUrl(storage).Some? then 1 else 0
    ensures UploadsMade(ReportUpload(fileName, file, storage, notify).calls) ==
      if HasReportInputs(fileName, file) then 1 else 0
  {
    var calls := ReportUpload(fileName, file, storage, notify).calls;
    if HasReportInputs(fileName, file) && SecureUrl(storage).Some? {
      assert calls[1..][1..] == [];
    } else if HasReportInputs(fileName, file) {
      assert calls[1..] == [];
    }
  }

  /** A failed message after a successful upload answers 500, and the upload
      stays made: nothing undoes it. */
  lemma ReportUploadNoRollback(fileName: Option<string>, file: Option<UploadedFile>,
                               storage: StorageReply, notify: NotifyReply)
    requires HasReportInputs(fileName, file) && SecureUrl(storage).Some? && notify.NotifyError?
    ensures ReportUpload(fileName, file, storage, notify).response.status == 500
    ensures ReportUpload(fileName, file, storage, notify).calls ==
      [StreamUpload("raw", fileName.value, file.value.path),
       CreateMessage(ReportTemplate + SecureUrl(storage).value, Sender, Recipient)]
  {
  }

  /** POST /upload: 409 without a file; otherwise upload it from its disk
      path and answer with the URL, or 500. It never sends a message. */
  function Upload(file: Option<UploadedFile>, storage: StorageReply): (r: Outcome)
    ensures r.response.status in {200, 409, 500}
    ensures r.response.status == 409 <==> file.None?
    ensures file.None? ==> r.calls == []
    ensures file.Some? ==> r.calls == [FileUpload(file.value.path, file.value.filename)]
    ensures r.response.status == 200 <==> file.Some? && PlainUrl(storage).Some?
    ensures r.response.status == 200 ==>
      r.response.message == "Successfully Uploaded " + PlainUrl(storage).value
    ensures r.response.fileUrl == None
  {
    if file.None? then
      Outcome(Response(409, "Content required", None), [])
    else
      var upload := FileUpload(file.value.path, file.value.filename);
      match PlainUrl(storage)
      case None => Outcome(Response(500, "Error accoured while uploading", None), [upload])
      case Some(picUrl) => Outcome(Response(200, "Successfully Uploaded " + picUrl, None), [upload])
  }

  /** /upload never calls the messaging provider and uploads at most once. */
  lemma UploadNeverNotifies(file: Option<UploadedFile>, storage: StorageReply)
    ensures MessagesSent(Upload(file, storage).calls) == 0
    ensures UploadsMade(Upload(file, storage).calls) == if file.Some? then 1 else 0
  {
    var calls := Upload(file, storage).calls;
    if file.Some? {
      assert calls[1..] == [];
    }
  }
}
