/**
 * The device router of the Cloud Functions app. Requests pass the `deviceAuth`
 * middleware first; the upload handler reads its multipart body itself, one part at a
 * time, and the telemetry handler keeps the raw reading besides its single-status analysis.
 */
module FunctionsApp {
  import opened Wrappers
  import opened Text
  import opened Http
  import opened HeartRateRecords
  import L = LegacyHeartRate
  import Hazards
  import opened Stores
  import opened Commands
  import Auth = DeviceAuth

  const MissingImage: string := "Missing image file field \"image\""
  const OnlyJpeg: string := "Only image/jpeg is supported"

  /** The answer of the placeholder image analysis service. */
  const StubResult: Hazards.EnvironmentResult :=
    Hazards.EnvironmentResult("unknown", [], "AI service not configured yet. This is a stub result.", Hazards.UnknownRisk)

  /** A part of a multipart body as the parser reports it: a text field, or a file
      streamed in chunks with the mime type the parser gives it. */
  datatype Part = FieldPart(name: string, value: string) | FilePart(name: string, mimeType: string, chunks: seq<seq<bv8>>)

  /** What the handler keeps of the body: `commandId`, `imageBuffer` and `imageMime`,
      each `None` while still `null`. */
  datatype Form = Form(commandId: Option<string>, image: Option<seq<bv8>>, imageMime: Option<string>)

  /** The Cloud Storage object the upload was saved to. */
  datatype StoredImage = StoredImage(imagePath: string, imageUrl: string)

  datatype UploadBody = UploadBody(imageUrl: string, analysisId: nat, result: Hazards.EnvironmentResult)

  /** `Buffer.concat(chunks)`. */
  function Concat(chunks: seq<seq<bv8>>): (r: seq<bv8>)
    ensures r == [] <==> forall i :: 0 <= i < |chunks| ==> chunks[i] == []
    decreases |chunks|
  {
    if chunks == [] then []
    else
      var r := Concat(chunks[..|chunks| - 1]) + chunks[|chunks| - 1];
      assert forall i :: 0 <= i < |chunks| - 1 ==> chunks[..|chunks| - 1][i] == chunks[i];
      r
  }

  predicate IsCommandIdField(p: Part) {
    p.FieldPart? && p.name == "commandId"
  }

  predicate IsImageFile(p: Part) {
    p.FilePart? && p.name == "image"
  }

  /** The value of the last `commandId` field: each one overwrites the one before. */
  function LastCommandId(parts: seq<Part>): (r: Option<string>)
    ensures r.None? <==> forall i :: 0 <= i < |parts| ==> !IsCommandIdField(parts[i])
    ensures r.Some? ==> exists i :: 0 <= i < |parts| && IsCommandIdField(parts[i]) && parts[i].value == r.value
                           && forall j :: i < j < |parts| ==> !IsCommandIdField(parts[j])
    decreases |parts|
  {
    if parts == [] then None
    else
      var n := |parts| - 1;
      if IsCommandIdField(parts[n]) then Some(parts[n].value)
      else
        var r := LastCommandId(parts[..n]);
        assert forall i :: 0 <= i < n ==> parts[..n][i] == parts[i];
        r
  }

  /** Part `i` is a file named `image` and no later part is. */
  predicate IsLastImage(parts: seq<Part>, i: int) {
    0 <= i < |parts| && IsImageFile(parts[i]) && forall j :: i < j < |parts| ==> !IsImageFile(parts[j])
  }

  /** The last file part named `image`; files under other names are drained and dropped. */
  function LastImagePart(parts: seq<Part>): (r: Option<Part>)
    ensures r.None? <==> forall i :: 0 <= i < |parts| ==> !IsImageFile(parts[i])
    ensures r.Some? ==> exists i :: IsLastImage(parts, i) && parts[i] == r.value
    decreases |parts|
  {
    if parts == [] then None
    else
      var n := |parts| - 1;
      if IsImageFile(parts[n]) then
        assert IsLastImage(parts, n);
        Some(parts[n])
      else
        var r := LastImagePart(parts[..n]);
        LastImageOfPrefix(parts);
        r
  }

  /** When the final part is not an image, the prefix's last image is the whole body's. */
  lemma LastImageOfPrefix(parts: seq<Part>)
    requires |parts| > 0 && !IsImageFile(parts[|parts| - 1])
    ensures forall i :: 0 <= i < |parts| - 1 && !IsImageFile(parts[i]) ==> !IsImageFile(parts[..|parts| - 1][i])
    ensures forall i :: IsLastImage(parts[..|parts| - 1], i) ==> IsLastImage(parts, i) && parts[i] == parts[..|parts| - 1][i]
  {
  }

  /** The form a body yields. */
  function FormOf(parts: seq<Part>): (form: Form)
    ensures form.commandId.None? <==> forall i :: 0 <= i < |parts| ==> !IsCommandIdField(parts[i])
    ensures form.image.None? <==> forall i :: 0 <= i < |parts| ==> !IsImageFile(parts[i])
    ensures form.imageMime.Some? <==> form.image.Some?
    ensures form.image.Some? ==>
      exists i :: IsLastImage(parts, i) && form.image.value == Concat(parts[i].chunks) && form.imageMime.value == parts[i].mimeType
  {
    var image := LastImagePart(parts);
    Form(LastCommandId(parts),
         if image.Some? then Some(Concat(image.value.chunks)) else None,
         if image.Some? then Some(image.value.mimeType) else None)
  }

  /** The busboy event handlers over the parts in order: a `commandId` field sets the
      command id, an `image` file sets the mime type and, once its chunks are read, the
      buffer; anything else is ignored. */
  method ParseMultipart(parts: seq<Part>) returns (form: Form)
    ensures form == FormOf(parts)
  {
    var commandId: Option<string> := None;
    var imageBuffer: Option<seq<bv8>> := None;
    var imageMime: Option<string> := None;
    var i := 0;
    while i < |parts|
      invariant 0 <= i <= |parts|
      invariant Form(commandId, imageBuffer, imageMime) == FormOf(parts[..i])
    {
      assert parts[..i + 1][..i] == parts[..i];
      match parts[i] {
        case FieldPart(name, value) =>
          if name == "commandId" {
            commandId := Some(value);
          }
        case FilePart(name, mime, chunks) =>
          if name == "image" {
            imageMime := Some(mime);
            var buffer: seq<bv8> := [];
            var j := 0;
            while j < |chunks|
              invariant 0 <= j <= |chunks|
              invariant buffer == Concat(chunks[..j])
            {
              assert chunks[..j + 1][..j] == chunks[..j];
              buffer := buffer + chunks[j];
              j := j + 1;
            }
            assert chunks[..j] == chunks;
            imageBuffer := Some(buffer);
          }
      }
      i := i + 1;
    }
    assert parts[..i] == parts;
    form := Form(commandId, imageBuffer, imageMime);
  }

  /** The two checks on the upload: a non-empty image, and a mime type that is absent,
      empty, `image/jpeg` or `image/jpg`. */
  function AcceptedImage(form: Form): (r: Result<seq<bv8>, string>)
    ensures r.Success? <==> form.image.Some? && form.image.value != []
                            && (!Truthy(form.imageMime) || form.imageMime.value in {"image/jpeg", "image/jpg"})
    ensures r.Success? ==> r.value == form.image.value
    ensures r.Failure? && (form.image.None? || form.image.value == []) ==> r.error == MissingImage
    ensures r.Failure? && form.image.Some? && form.image.value != [] ==> r.error == OnlyJpeg
  {
    if form.image.None? || form.image.value == [] then Failure(MissingImage)
    else if Truthy(form.imageMime) && form.imageMime.value != "image/jpeg" && form.imageMime.value != "image/jpg" then
      Failure(OnlyJpeg)
    else Success(form.image.value)
  }

  /** An image part whose chunks are all empty is refused as missing, even when a later
      part of the body is a non-empty file under another name. */
  lemma EmptyImageIsMissing(parts: seq<Part>, mime: string, chunks: seq<seq<bv8>>)
    requires forall i :: 0 <= i < |chunks| ==> chunks[i] == []
    ensures AcceptedImage(FormOf(parts + [FilePart("image", mime, chunks)])) == Failure(MissingImage)
  {
    var all := parts + [FilePart("image", mime, chunks)];
    assert IsImageFile(all[|all| - 1]);
  }

  /** Only the parts that matter change the form: a later field or file under another name
      leaves it as it was. */
  lemma OtherPartsIgnored(parts: seq<Part>, p: Part)
    requires !IsCommandIdField(p) && !IsImageFile(p)
    ensures FormOf(parts + [p]) == FormOf(parts)
  {
    assert (parts + [p])[..|parts|] == parts;
  }

  /** `GET /device/commands` behind the middleware. */
  method GetCommands(creds: Auth.Credentials, lookup: Auth.Lookup, query: Option<string>, queue: CommandQueue)
    returns (resp: Response<Option<ClaimedCommand>>)
    modifies queue
    ensures var auth := Auth.Authenticate(creds, lookup);
      if auth.Rejected? then resp == Error(auth.code, auth.error) && unchanged(queue)
      else if !QueryMatches(query, auth.deviceId) then resp == Error(400, QueryMismatch) && unchanged(queue)
      else resp.Ok? && ClaimOutcome(old(queue.commands), auth.deviceId, resp.body, queue.commands, queue.clock)
  {
    var auth := Auth.Authenticate(creds, lookup);
    if auth.Rejected? {
      return Error(auth.code, auth.error);
    }
    if !QueryMatches(query, auth.deviceId) {
      return Error(400, QueryMismatch);
    }
    var claimed := queue.ClaimNext(auth.deviceId);
    resp := Ok(claimed);
  }

  /** `POST /device/upload-image` behind the middleware: parse the body, check the image,
      store the analysis of the saved object and complete the command it answers. */
  method UploadImage(creds: Auth.Credentials, lookup: Auth.Lookup, parts: seq<Part>, stored: StoredImage,
                     store: ImageStore, queue: CommandQueue)
    returns (resp: Response<UploadBody>)
    requires store.Valid()
    modifies store, queue
    ensures store.Valid()
    ensures var auth := Auth.Authenticate(creds, lookup);
      var form := FormOf(parts);
      if auth.Rejected? then resp == Error(auth.code, auth.error) && unchanged(store, queue)
      else if AcceptedImage(form).Failure? then resp == Error(400, AcceptedImage(form).error) && unchanged(store, queue)
      else
        var d := auth.deviceId;
        var id := |old(store.environment)|;
        store.clock == old(store.clock) + 1
        && store.images == old(store.images)
        && store.environment == old(store.environment)
             + [EnvironmentDoc(d, StoredAt(stored.imageUrl, stored.imagePath), StubResult, store.clock)]
        && resp == Ok(UploadBody(stored.imageUrl, id, StubResult))
        && CompletedSome(old(queue.commands), d, if Truthy(form.commandId) then form.commandId else None,
                         id, queue.commands, queue.clock)
  {
    var auth := Auth.Authenticate(creds, lookup);
    if auth.Rejected? {
      return Error(auth.code, auth.error);
    }
    var form := ParseMultipart(parts);
    var accepted := AcceptedImage(form);
    if accepted.Failure? {
      return Error(400, accepted.error);
    }
    var d := auth.deviceId;
    var id := store.AddEnvironment(d, StoredAt(stored.imageUrl, stored.imagePath), StubResult);
    var completed := queue.Complete(d, form.commandId, id);
    resp := Ok(UploadBody(stored.imageUrl, id, StubResult));
  }

  /** `POST /device/telemetry/heart-rate` behind the middleware: keep the raw reading, then
      classify it against the device's latest stored analysis and store the result. */
  method Telemetry(creds: Auth.Credentials, lookup: Auth.Lookup, bpmField: BodyValue, spo2Field: BodyValue,
                   log: HeartRateLog)
    returns (resp: Response<L.TelemetryAnalysis>)
    requires log.Valid()
    modifies log
    ensures log.Valid()
    ensures var auth := Auth.Authenticate(creds, lookup);
      var bpm := ToNumber(bpmField);
      var spo2 := ToNumber(spo2Field);
      if auth.Rejected? then resp == Error(auth.code, auth.error) && unchanged(log)
      else if bpm.NonFinite? || spo2.NonFinite? then resp == Error(400, BadTelemetryBody) && unchanged(log)
      else
        var d := auth.deviceId;
        var a := L.AnalyzeTelemetry(bpm.value, PreviousBpm(LatestFor(old(log.analyses), d)));
        log.clock == old(log.clock) + 2
        && log.readings == old(log.readings) + [Reading(d, bpm.value, spo2.value, old(log.clock) + 1)]
        && log.analyses == old(log.analyses) + [LegacyDoc(d, bpm.value, spo2.value, a, log.clock)]
        && resp == Ok(a)
  {
    var auth := Auth.Authenticate(creds, lookup);
    if auth.Rejected? {
      return Error(auth.code, auth.error);
    }
    var bpm := ToNumber(bpmField);
    var spo2 := ToNumber(spo2Field);
    if bpm.NonFinite? || spo2.NonFinite? {
      return Error(400, BadTelemetryBody);
    }
    var d := auth.deviceId;
    log.AddReading(d, bpm.value, spo2.value);
    var a := L.AnalyzeTelemetry(bpm.value, PreviousBpm(LatestFor(log.analyses, d)));
    var id := log.AddAnalysis(LegacyDoc(d, bpm.value, spo2.value, a, 0));
    resp := Ok(a);
  }
}
