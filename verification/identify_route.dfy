/** The `POST /identify/` handler of backend/routes/identify.py: it checks the uploaded file,
    derives the image's MIME type, splits the interests field and maps the service's errors to
    HTTP statuses. The upload arrives already read (`Upload`). */
module IdentifyRoute {
  import opened Wrappers
  import opened Text
  import opened Http
  import opened Schemas
  import Cache
  import Queries
  import IdentifyService

  datatype Upload = Upload(filename: Option<string>, contentType: Option<string>, bytes: seq<byte>)

  const AllowedTypes: seq<string> := ["image/jpeg", "image/jpg", "image/png", "application/octet-stream"]
  const AllowedExtensions: seq<string> := [".jpg", ".jpeg", ".png"]
  const MaxMb: int := 8
  const MaxImageBytes: int := MaxMb * 1024 * 1024

  /** The file name as the checks read it: lower-cased, "" when missing or empty. */
  function LowerName(filename: Option<string>): string {
    if Truthy(filename) then Lower(filename.value) else ""
  }

  predicate HasAllowedExtension(filename: Option<string>) {
    exists ext :: ext in AllowedExtensions && EndsWith(LowerName(filename), ext)
  }

  predicate HasAllowedType(contentType: Option<string>) {
    contentType.Some? && contentType.value in AllowedTypes
  }

  /** "image/png" for a ".png" name, "image/jpeg" for anything else that passed the checks. */
  function MimeType(filename: Option<string>): (mime: string)
    ensures mime == "image/png" <==> EndsWith(LowerName(filename), ".png")
    ensures mime == "image/jpeg" <==> !EndsWith(LowerName(filename), ".png")
  {
    if EndsWith(LowerName(filename), ".png") then "image/png" else "image/jpeg"
  }

  /** A name that passes the extension check but is not a ".png" ends in ".jpg" or ".jpeg",
      so "image/jpeg" names it correctly. */
  lemma JpegNamesAreJpeg(filename: Option<string>)
    requires HasAllowedExtension(filename)
    ensures MimeType(filename) == "image/jpeg" ==>
      EndsWith(LowerName(filename), ".jpg") || EndsWith(LowerName(filename), ".jpeg")
  {
    var ext :| ext in AllowedExtensions && EndsWith(LowerName(filename), ext);
    assert ext == ".jpg" || ext == ".jpeg" || ext == ".png";
  }

  /** The upload checks, in the handler's order: type and extension (reporting both as given),
      then emptiness, then size. Accepted uploads yield their MIME type. */
  function CheckUpload(u: Upload): (r: Result<string, HttpError>)
    ensures r.Ok? <==>
      HasAllowedType(u.contentType) && HasAllowedExtension(u.filename) && 0 < |u.bytes| <= MaxImageBytes
    ensures r.Ok? ==> r.value == MimeType(u.filename)
    ensures !(HasAllowedType(u.contentType) && HasAllowedExtension(u.filename)) ==>
      r == Err(HttpError(400, "Invalid image format. Filename: " + OptText(u.filename) + ", Content-Type: " + OptText(u.contentType)))
    ensures HasAllowedType(u.contentType) && HasAllowedExtension(u.filename) && |u.bytes| == 0 ==>
      r == Err(HttpError(400, "Empty image."))
    ensures HasAllowedType(u.contentType) && HasAllowedExtension(u.filename) && |u.bytes| > MaxImageBytes ==>
      r == Err(HttpError(400, "Files too large. " + IntText(MaxMb) + " MB limit."))
    ensures r.Err? ==> r.error.status == 400
  {
    var name := LowerName(u.filename);
    var validExtension := EndsWith(name, ".jpg") || EndsWith(name, ".jpeg") || EndsWith(name, ".png");
    assert validExtension <==> HasAllowedExtension(u.filename) by {
      if validExtension {
        var ext := if EndsWith(name, ".jpg") then ".jpg" else if EndsWith(name, ".jpeg") then ".jpeg" else ".png";
        assert ext in AllowedExtensions && EndsWith(name, ext);
      }
    }
    var validType := u.contentType.Some? && u.contentType.value in AllowedTypes;
    if !(validType && validExtension) then
      Err(HttpError(400, "Invalid image format. Filename: " + OptText(u.filename) + ", Content-Type: " + OptText(u.contentType)))
    else if |u.bytes| == 0 then
      Err(HttpError(400, "Empty image."))
    else if |u.bytes| > MaxImageBytes then
      Err(HttpError(400, "Files too large. " + IntText(MaxMb) + " MB limit."))
    else
      Ok(MimeType(u.filename))
  }

  /** The interests form field: its ","-separated parts, unstripped and with empty parts kept;
      [] when the field is missing or empty. Joining the parts back gives the field. */
  function ParseInterests(field: Option<string>): (r: seq<string>)
    ensures !Truthy(field) ==> r == []
    ensures Truthy(field) ==> |r| >= 1 && Join(r, ",") == field.value
    ensures forall p :: p in r ==> ',' !in p
  {
    if Truthy(field) then
      var parts := Split(field.value, ",");
      forall p | p in parts ensures ',' !in p {
        CharNotContained(p, ',');
      }
      parts
    else []
  }

  /** The parts of a field without empty items are exactly its comma-free pieces: splitting a
      join of such pieces gives them back. */
  lemma ParseInterestsRoundTrip(xs: seq<string>)
    requires |xs| >= 1 && Join(xs, ",") != ""
    requires forall x :: x in xs ==> ',' !in x
    ensures ParseInterests(Some(Join(xs, ","))) == xs
  {
    SplitJoin(xs, ",");
  }

  /** How an error raised by the service becomes an HTTP error: a ValueError keeps its text
      under 400, anything else becomes a 500 prefixed with "Identify failed: ". */
  function ToHttp(e: IdentifyService.ServiceError): (h: HttpError)
    ensures e.BadValue? ==> h == HttpError(400, e.message)
    ensures e.Failure? ==> h == HttpError(500, "Identify failed: " + e.message)
  {
    match e
    case BadValue(message) => HttpError(400, message)
    case Failure(message) => HttpError(500, "Identify failed: " + message)
  }

  /** `identify_route`: a rejected upload answers 400 without touching the cache; otherwise the
      service runs on the split interests, and its errors are mapped by `ToHttp`. */
  method Identify(cache: Cache.TtlCache<IdentifyResponse>, now: real, upload: Upload,
                  userId: Option<string>, ageBracket: Option<string>, interests: Option<string>,
                  stored: Option<Queries.Profile>, reply: IdentifyService.RecognizerReply)
    returns (r: Result<IdentifyResponse, HttpError>)
    modifies cache
    modifies if reply.Identified? then {reply.res, reply.res.funFacts, reply.res.personalization} else {}
    ensures CheckUpload(upload).Err? ==> r == Err(CheckUpload(upload).error) && cache.entries == old(cache.entries)
    ensures CheckUpload(upload).Ok? ==>
      var finalInterests := IdentifyService.ResolvedInterests(userId, ParseInterests(interests), stored);
      var key := IdentifyService.IdentifyCacheKey(IdentifyService.ResolvedAge(userId, ageBracket, stored), finalInterests, upload.bytes);
      var hit := Cache.Lookup(old(cache.entries), key, now);
      && (hit.Some? ==> r == Ok(hit.value) && cache.entries == old(cache.entries))
      && (hit.Some? && reply.Identified? ==> reply.res.View() == old(reply.res.View()))
      && (hit.None? && reply.Raised? ==>
            r == Err(ToHttp(reply.error)) && cache.entries == Cache.AfterGet(old(cache.entries), key, now))
      && (hit.None? && reply.Identified? ==>
            && r == Ok(reply.res)
            && cache.entries == Cache.AfterGet(old(cache.entries), key, now)[key := Cache.Entry(now + IdentifyService.IdentifyTtl as real, reply.res)]
            && reply.res.View() == IdentifyService.Processed(old(reply.res.View()), finalInterests))
  {
    var checked := CheckUpload(upload);
    if checked.Err? {
      return Err(checked.error);
    }
    var interestsList := ParseInterests(interests);
    var res := IdentifyService.IdentifyLandmark(cache, now, upload.bytes, userId, ageBracket, interestsList, stored, reply);
    if res.Err? {
      return Err(ToHttp(res.error));
    }
    return Ok(res.value);
  }
}
