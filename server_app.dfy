/**
 * The device endpoints of the Express server: command polling, the dashboard, image
 * upload with hazard inference, and heart-rate telemetry. Each handler authenticates with
 * `validateDevice`, whose thrown errors the handler's `catch` turns into the answer.
 */
module ServerApp {
  import opened Wrappers
  import opened Text
  import opened Http
  import HR = HeartRate
  import opened HeartRateRecords
  import Hazards
  import opened Stores
  import opened Commands
  import Auth = DeviceAuth

  const UploadBaseUrl: string := "https://iot-control-app.onrender.com/uploads/"
  const MissingFile: string := "Missing multipart file field \"image\""

  /** The file multer saved for the `image` field. */
  datatype UploadedFile = UploadedFile(path: string, filename: string, mimeType: string, size: nat)

  datatype DashboardBody = DashboardBody(heartRate: HeartRateView, latestImage: Option<ImageDoc>)
  datatype UploadBody = UploadBody(analysisId: nat, result: Hazards.EnvironmentResult)
  datatype TelemetryBody = TelemetryBody(id: nat, bpm: int, spo2: int, flags: seq<string>, primaryStatus: string, reason: string)

  /** `!req.file || !req.file.path || !req.file.filename` fails. */
  predicate FilePresent(file: Option<UploadedFile>) {
    file.Some? && file.value.path != "" && file.value.filename != ""
  }

  /** The upload check's three failing cases: no file, a file without a path, a file
      without a name; a file with both passes. */
  lemma FileCheckCases(path: string, filename: string, mimeType: string, size: nat)
    ensures !FilePresent(None)
    ensures path == "" ==> !FilePresent(Some(UploadedFile(path, filename, mimeType, size)))
    ensures filename == "" ==> !FilePresent(Some(UploadedFile(path, filename, mimeType, size)))
    ensures path != "" && filename != "" ==> FilePresent(Some(UploadedFile(path, filename, mimeType, size)))
  {
  }

  /** `GET /device/commands`: authenticate, check the query, then claim the device's
      oldest pending command (`{ command: null }` when there is none). */
  method GetCommands(creds: Auth.Credentials, lookup: Auth.Lookup, query: Option<string>, queue: CommandQueue)
    returns (resp: Response<Option<ClaimedCommand>>)
    modifies queue
    ensures var auth := Auth.ServerAuthOutcome(creds, lookup);
      if auth.Rejected? then resp == Error(auth.code, auth.error) && unchanged(queue)
      else if !QueryMatches(query, auth.deviceId) then resp == Error(400, QueryMismatch) && unchanged(queue)
      else resp.Ok? && ClaimOutcome(old(queue.commands), auth.deviceId, resp.body, queue.commands, queue.clock)
  {
    var auth := Auth.ServerAuthOutcome(creds, lookup);
    if auth.Rejected? {
      return Error(auth.code, auth.error);
    }
    if !QueryMatches(query, auth.deviceId) {
      return Error(400, QueryMismatch);
    }
    var claimed := queue.ClaimNext(auth.deviceId);
    resp := Ok(claimed);
  }

  /** `GET /device/dashboard`: the device's analyses newest first, normalised and
      summarised, and its latest uploaded image. */
  function Dashboard(creds: Auth.Credentials, lookup: Auth.Lookup, query: Option<string>,
                     log: HeartRateLog, store: ImageStore): (resp: Response<DashboardBody>)
    reads log, store
    ensures var auth := Auth.ServerAuthOutcome(creds, lookup);
      resp.Ok? <==> auth.Authenticated? && QueryMatches(query, auth.deviceId)
    ensures var auth := Auth.ServerAuthOutcome(creds, lookup);
      auth.Rejected? ==> resp == Error(auth.code, auth.error)
    ensures var auth := Auth.ServerAuthOutcome(creds, lookup);
      auth.Authenticated? && !QueryMatches(query, auth.deviceId) ==> resp == Error(400, QueryMismatch)
    ensures resp.Ok? ==>
      var d := Auth.ServerAuthOutcome(creds, lookup).deviceId;
      resp.body.heartRate == DashboardView(NewestFirst(log.analyses, d))
      && resp.body.latestImage == LatestImage(store.images, d)
      && (forall i :: 0 <= i < |resp.body.heartRate.history| ==>
            resp.body.heartRate.history[i].deviceId == d
            && resp.body.heartRate.history[i].primaryStatus.Some?)
      && (resp.body.heartRate.latest.Some? <==> exists x :: x in log.analyses && x.deviceId == d)
  {
    var auth := Auth.ServerAuthOutcome(creds, lookup);
    if auth.Rejected? then Error(auth.code, auth.error)
    else if !QueryMatches(query, auth.deviceId) then Error(400, QueryMismatch)
    else
      var mine := NewestFirst(log.analyses, auth.deviceId);
      assert mine == [] <==> forall x :: x in log.analyses ==> x.deviceId != auth.deviceId by {
        if mine != [] { assert mine[0] in mine; }
      }
      var view := DashboardView(mine);
      NormalizedHasStatus(view.history, mine);
      Ok(DashboardBody(view, LatestImage(store.images, auth.deviceId)))
  }

  lemma NormalizedHasStatus(history: seq<AnalysisDoc>, source: seq<AnalysisDoc>)
    requires |history| <= |source|
    requires forall i :: 0 <= i < |history| ==> history[i] == Normalize(source[i])
    ensures forall i :: 0 <= i < |history| ==>
      history[i].deviceId == source[i].deviceId && history[i].primaryStatus.Some?
  {
  }

  /** In a consistent store the dashboard's latest entry is the device's newest analysis,
      normalised, its history runs from newest to oldest, and its image is the newest. */
  lemma DashboardShowsNewest(creds: Auth.Credentials, lookup: Auth.Lookup, query: Option<string>,
                             log: HeartRateLog, store: ImageStore)
    requires log.Valid() && store.Valid()
    requires Dashboard(creds, lookup, query, log, store).Ok?
    ensures var d := Auth.ServerAuthOutcome(creds, lookup).deviceId;
      var view := Dashboard(creds, lookup, query, log, store).body.heartRate;
      (forall i, j :: 0 <= i < j < |view.history| ==> view.history[i].createdAt > view.history[j].createdAt)
      && (view.latest.Some? ==> view.latest.value == Normalize(LatestFor(log.analyses, d).value))
  {
    var d := Auth.ServerAuthOutcome(creds, lookup).deviceId;
    var mine := NewestFirst(log.analyses, d);
    NewestFirstDescending(log.analyses, d, log.clock);
    var view := DashboardView(mine);
    assert NewestToOldest(mine);
    forall i, j | 0 <= i < j < |view.history| ensures view.history[i].createdAt > view.history[j].createdAt {
      assert view.history[i] == Normalize(mine[i]);
      assert view.history[j] == Normalize(mine[j]);
    }
  }

  /** `POST /device/upload-image`: record the image, infer the environment from the
      labelling answer (`None` when the labelling call failed), store the analysis and
      complete the command the upload answers. */
  method UploadImage(creds: Auth.Credentials, lookup: Auth.Lookup, file: Option<UploadedFile>,
                     commandId: Option<string>, answer: Option<seq<Hazards.Detection>>,
                     store: ImageStore, queue: CommandQueue)
    returns (resp: Response<UploadBody>)
    requires store.Valid()
    modifies store, queue
    ensures store.Valid()
    ensures var auth := Auth.ServerAuthOutcome(creds, lookup);
      if auth.Rejected? then resp == Error(auth.code, auth.error) && unchanged(store, queue)
      else if !FilePresent(file) then resp == Error(400, MissingFile) && unchanged(store, queue)
      else
        var d := auth.deviceId;
        var result := Hazards.EnvironmentOf(answer);
        var id := |old(store.environment)|;
        store.clock == old(store.clock) + 2
        && store.images == old(store.images) + [ImageDoc(d, UploadBaseUrl + file.value.filename, old(store.clock) + 1)]
        && store.environment == old(store.environment)
             + [EnvironmentDoc(d, FileInfo(file.value.mimeType, file.value.size), result, store.clock)]
        && resp == Ok(UploadBody(id, result))
        && CompletedSome(old(queue.commands), d, if Truthy(commandId) then commandId else None,
                         id, queue.commands, queue.clock)
  {
    var auth := Auth.ServerAuthOutcome(creds, lookup);
    if auth.Rejected? {
      return Error(auth.code, auth.error);
    }
    if !FilePresent(file) {
      return Error(400, MissingFile);
    }
    var d := auth.deviceId;
    store.AddImage(d, UploadBaseUrl + file.value.filename);
    var result := Hazards.InferEnvironment(answer);
    var id := store.AddEnvironment(d, FileInfo(file.value.mimeType, file.value.size), result);
    var completed := queue.Complete(d, commandId, id);
    resp := Ok(UploadBody(id, result));
  }

  /** `POST /device/telemetry/heart-rate`: classify the reading against the device's
      latest stored analysis and store the result. */
  method Telemetry(creds: Auth.Credentials, lookup: Auth.Lookup, bpmField: BodyValue, spo2Field: BodyValue,
                   log: HeartRateLog)
    returns (resp: Response<TelemetryBody>)
    requires log.Valid()
    modifies log
    ensures log.Valid()
    ensures var auth := Auth.ServerAuthOutcome(creds, lookup);
      var bpm := ToNumber(bpmField);
      var spo2 := ToNumber(spo2Field);
      if auth.Rejected? then resp == Error(auth.code, auth.error) && unchanged(log)
      else if bpm.NonFinite? || spo2.NonFinite? then resp == Error(400, BadTelemetryBody) && unchanged(log)
      else
        var a := HR.AnalyzeHeartRate(bpm.value, PreviousBpm(LatestFor(old(log.analyses), auth.deviceId)));
        var doc := ServerDoc(auth.deviceId, bpm.value, spo2.value, a, log.clock);
        log.clock == old(log.clock) + 1
        && log.analyses == old(log.analyses) + [doc]
        && log.readings == old(log.readings)
        && LatestFor(log.analyses, auth.deviceId) == Some(doc)
        && resp == Ok(TelemetryBody(|old(log.analyses)|, bpm.value, spo2.value, FlagNames(a.flags),
                                    HR.StatusName(a.primaryStatus), a.reason))
  {
    var auth := Auth.ServerAuthOutcome(creds, lookup);
    if auth.Rejected? {
      return Error(auth.code, auth.error);
    }
    var bpm := ToNumber(bpmField);
    var spo2 := ToNumber(spo2Field);
    if bpm.NonFinite? || spo2.NonFinite? {
      return Error(400, BadTelemetryBody);
    }
    var d := auth.deviceId;
    var prevBpm := PreviousBpm(LatestFor(log.analyses, d));
    var a := HR.AnalyzeHeartRate(bpm.value, prevBpm);
    NewestFirstAfterAdd(log.analyses, ServerDoc(d, bpm.value, spo2.value, a, log.clock + 1), d);
    var id := log.AddAnalysis(ServerDoc(d, bpm.value, spo2.value, a, 0));
    resp := Ok(TelemetryBody(id, bpm.value, spo2.value, FlagNames(a.flags), HR.StatusName(a.primaryStatus), a.reason));
  }

  /** A stored reading is the previous reading of the device's next one: two readings in a
      row that differ by 30 or more flag a spike on the second. */
  lemma ConsecutiveReadingsSpike(analyses: seq<AnalysisDoc>, d: string, first: int, second: int, spo2: int,
                                 prevBpm: Option<HR.Num>, createdAt: int)
    requires HR.Abs(second - first) >= HR.SpikeDelta
    ensures var stored := ServerDoc(d, first, spo2, HR.AnalyzeHeartRate(first, prevBpm), createdAt);
      var next := HR.AnalyzeHeartRate(second, PreviousBpm(LatestFor(analyses + [stored], d)));
      HR.Spike in next.flags && next.primaryStatus == HR.Critical
  {
    var stored := ServerDoc(d, first, spo2, HR.AnalyzeHeartRate(first, prevBpm), createdAt);
    NewestFirstAfterAdd(analyses, stored, d);
    assert LatestFor(analyses + [stored], d) == Some(stored);
  }
}
