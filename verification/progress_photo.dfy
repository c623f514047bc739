/**
 `POST /api/v1/progress/photo`: records a progress photo, read either from a
 JSON body or from a multipart form whose file name becomes a mock storage
 URL.
 */
module ProgressPhotoRoute {
  import opened Js
  import opened Schema
  import opened Http
  import opened Text

  /** The request body as sent: JSON fields, or the parts of a form (the
      uploaded file's name, if a file was sent, and the caption text). */
  datatype Payload =
    | JsonPayload(imageUrl: Field<string>, caption: Field<string>)
    | FormPayload(fileName: Option<string>, formCaption: Option<string>)

  datatype Request = Request(contentType: Option<string>, payload: Payload)

  const MockStorageBase := "https://storage.googleapis.com/fitme-mock/"
  const DefaultFileName := "photo.jpg"

  /** Whether the handler reads the body as JSON (`content-type` includes
      `application/json`; a missing header reads as ""). */
  predicate ReadsJson(req: Request) {
    Contains(if req.contentType.Some? then req.contentType.value else "", "application/json")
  }

  /** The mock URL for an uploaded file name: `image?.name || 'photo.jpg'`. */
  function MockUrl(fileName: Option<string>): (url: string)
    ensures |url| > |MockStorageBase| && url[..|MockStorageBase|] == MockStorageBase
    ensures fileName.Some? && fileName.value != "" ==> url[|MockStorageBase|..] == fileName.value
    ensures !(fileName.Some? && fileName.value != "") ==> url[|MockStorageBase|..] == DefaultFileName
  {
    MockStorageBase + (if fileName.Some? && fileName.value != "" then fileName.value else DefaultFileName)
  }

  /** The image URL and caption the handler has read, or `None` when the body
      cannot be parsed the way the header says (the parser throws). */
  function ReadPhoto(req: Request): Option<(Field<string>, Option<string>)> {
    if ReadsJson(req) then
      match req.payload
      case JsonPayload(url, caption) => Some((url, Nullable(caption)))
      case FormPayload(_, _) => None
    else
      match req.payload
      case FormPayload(name, caption) => Some((Given(MockUrl(name)), caption))
      case JsonPayload(_, _) => None
  }

  function Post(db: Db, id: UserId, req: Request, now: Instant): (r: Reply<ProgressPhoto>)
    ensures r.response.Ok? ==> r.response.data.userId == id && r.response.data.imageUrl != ""
    ensures r.response.Ok? ==> r.response.data.timestamp == now
    ensures r.response.Ok? ==> r.db == db.(progressPhotos := db.progressPhotos + [r.response.data])
    ensures r.response.Error? ==> r.db == db
    ensures !ReadsJson(req) && req.payload.FormPayload? ==> (r.response.Ok? <==> HasUser(db, id))
    ensures !ReadsJson(req) && req.payload.FormPayload? && r.response.Ok? ==>
      r.response.data.imageUrl == MockUrl(req.payload.fileName)
      && r.response.data.caption == req.payload.formCaption
    ensures ReadsJson(req) && req.payload.JsonPayload? ==>
      ((r.response.Error? && r.response.status == BadRequest) <==> !Truthy(req.payload.imageUrl, ""))
    ensures ReadsJson(req) && req.payload.JsonPayload? ==>
      (r.response.Ok? <==> Truthy(req.payload.imageUrl, "") && HasUser(db, id))
    ensures ReadsJson(req) && req.payload.JsonPayload? && r.response.Ok? ==>
      r.response.data.imageUrl == req.payload.imageUrl.value
      && r.response.data.caption == Nullable(req.payload.caption)
    ensures ReadPhoto(req).None? ==> r == Failed(db, "Failed to upload photo")
    ensures Valid(db) ==> Valid(r.db)
  {
    match ReadPhoto(req)
    case None => Failed(db, "Failed to upload photo")
    case Some((url, caption)) =>
      if !Truthy(url, "") then
        Reply(Error(BadRequest, "Image is required"), db)
      else if !HasUser(db, id) then
        Failed(db, "Failed to upload photo")
      else
        var p := ProgressPhoto(id, url.value, caption, now);
        Reply(Ok("Progress photo uploaded successfully", p), db.(progressPhotos := db.progressPhotos + [p]))
  }

  /** A form upload never answers 400: its URL is never empty. */
  lemma FormUploadNeverBadRequest(db: Db, id: UserId, req: Request, now: Instant)
    requires !ReadsJson(req) && req.payload.FormPayload?
    ensures !(Post(db, id, req, now).response.Error? && Post(db, id, req, now).response.status == BadRequest)
  {
  }
}
