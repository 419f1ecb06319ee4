# IoT device backend — a verified model

This project models the device-facing core of an IoT control backend. The backend has
two implementations that share one document store: an Express server (`server/server.js`)
and a Cloud Functions router (`functions/src/...`). Devices authenticate with two headers.
They then:

- poll for their next command, which is claimed and marked running;
- upload camera images, which are labelled, turned into a hazard assessment and stored,
  and which complete the command they answer;
- send heart-rate telemetry, which is classified against the device's previous reading
  and stored.

The dashboard reads the analyses back and normalises older single-status documents into
the newer multi-flag shape.

The model is organised as follows:

- `heart_rate.dfy` holds the server's multi-flag classifier.
- `legacy_heart_rate.dfy` holds the Cloud Functions single-status classifier.
- `heart_rate_records.dfy` holds the stored analysis documents, the dashboard normaliser
  and the dashboard summary.
- `hazards.dfy` holds the hazard inferencer: filter, sort and top seven; label
  normalisation and deduplication; the keyword table; the risk level.
- `device_auth.dfy` holds both authentication guards.
- `commands.dfy` holds the command collection as a class. It supports claim,
  explicit-id completion and the newest-running fallback.
- `stores.dfy` holds the other collections as classes, with their newest-first queries.
- `http.dfy` holds responses, the query check and the `Number()` coercion of body fields.
- `server_app.dfy` and `functions_app.dfy` hold the handlers of the two implementations.
  The multipart parsing loop is in `functions_app.dfy`.

Store state lives in classes whose methods append to or update their collections:

- `CommandQueue` holds `device_commands`.
- `HeartRateLog` holds `heart_rate_telemetry` and `heart_rate_analysis`.
- `ImageStore` holds `device_images` and `environment_analysis`.

Each class has a clock that stands for the store's server timestamps. A document's id is
its key in the command map, or its position in its collection. The labelling service's
answer, the credentials lookup and the saved upload enter the handlers as parameters.

Where the code departs from the documented design, the model follows the code:

- Explicit-id completion writes `completed` whatever the command's status was, so a
  pending command can be completed without ever running. An unknown id creates a new
  document. `CompleteByIdIgnoresStatus` and `TransitionsNeverRevert` state what this
  path does and does not guarantee.
- Only the Cloud Functions telemetry handler keeps the raw reading in
  `heart_rate_telemetry`. The Express handler writes only the analysis.
- The Express spike clause holds the literal characters `Î”` where the Cloud Functions
  reason holds `Δ`. The model keeps each text as written.

## Model

| member | source | states |
|---|---|---|
| HeartRate.Flags | server/server.js:123-132 | `low` iff bpm < 40, `high` iff bpm > 120, `spike` iff the previous bpm is finite and differs by at least 30; flags in the order low, high, spike |
| HeartRate.AnalyzeHeartRate | server/server.js:122-157 | each flag's condition as an iff; critical iff spike, warning iff low or high without spike, normal iff no flag; reason is "Within normal range." exactly when there is no flag, and otherwise the space-joined clauses of the flags |
| HeartRate.ReasonIsJoinOfClauses | server/server.js:144-155 | the reason built by the flag tests equals the join of the per-flag clauses, with the delta when the previous bpm is finite |
| HeartRate.FlagsOfReading | server/server.js:123-132 | the exact flag list of each kind of reading: low, high or in range, each with or without a spike |
| HeartRate.ReasonOfFlags | server/server.js:144-155 | for every non-empty flag list the classifier can raise, the reason is the join of its clauses and never the normal-range text |
| HeartRate.LowAndHighExclusive | server/server.js:125-126 | no reading is flagged both low and high, and no flag appears twice |
| HeartRate.BareSpikeClauseUnreachable | server/server.js:147-152 | the clause without a delta never appears: a spike implies a finite previous bpm |
| HeartRate.ClassifierExamples | server/server.js:122-157 | (130, 90) is high+spike and critical; 40 with a non-finite previous bpm is normal; (120, 90), a delta of exactly 30, is critical |
| HeartRate.NormalReadingExample | server/server.js:122-157 | 70 with no previous reading is normal with no flags and the normal-range reason |
| HeartRate.LowReadingExample | server/server.js:122-157 | 35 after 34 is flagged low only, warning, with the low reason alone |
| LegacyHeartRate.AnalyzeTelemetry | functions/src/services/heartRateAnalysis.js:14-33 | spike iff finite previous bpm at distance ≥ 30; otherwise high iff bpm > 120, low iff bpm < 40, else normal; the reason of each status; prevBpm echoed |
| LegacyHeartRate.NoPreviousNoSpike | functions/src/services/heartRateAnalysis.js:25-31 | without a finite previous bpm the status is never spike |
| LegacyHeartRate.BoundariesAreNormal | functions/src/services/heartRateAnalysis.js:17-23 | 40 and 120 themselves are normal |
| HeartRateRecords.PreviousBpm | server/server.js:477 | no previous document gives null; a document with a bpm gives that bpm; one without gives a non-finite value |
| HeartRateRecords.ServerDoc | server/server.js:481-489 | the server's document keeps the device, bpm, spo2, reason and timestamp, stores one flag name per flag, a non-empty primary status and no old-style status |
| HeartRateRecords.LegacyDoc | functions/src/routes/device.js:173-180 | the Cloud Functions document keeps the device, bpm, spo2, reason and timestamp, has no flags array and no primary status, and a non-empty old-style status |
| HeartRateRecords.FlagNames | server/server.js:485 | the stored array has one name per flag, and entry i is the name of flag i |
| HeartRateRecords.Normalize | server/server.js:233-258 | a document with a primary status keeps it and gets array flags; otherwise the old status gives low→["low"]/warning, high→["high"]/warning, spike→["spike"]/critical, and anything else→[]/normal (no old status: the stored flags or [], normal); every other field kept |
| HeartRateRecords.FlagNamesMembership | server/server.js:485 | a flag is raised iff its name is among the stored names |
| HeartRateRecords.StoredAnalysisReadsBack | server/server.js:233-258 | a stored analysis whose status follows its flags is left unchanged by the normaliser and keeps the status-follows-flags invariant |
| HeartRateRecords.ServerDocRoundTrip | server/server.js:479-489 | normalising a document the server wrote gives back the classifier's flag names, status and reason |
| HeartRateRecords.LegacyDocReadsBack | server/server.js:233-258 | a Cloud Functions document is read as the single flag of its old status with critical for spike, warning for low or high, normal with no flags otherwise |
| HeartRateRecords.ClassifierNames | server/server.js:479-489 | the flag names and status name the server stores for each kind of reading: spike stored as critical, lone low or high as warning, in range as normal with no flags |
| HeartRateRecords.LegacyStatusAgreesWithClassifier | functions/src/routes/device.js:171-180 | a Cloud Functions document, normalised, has the primary status the server classifier gives the same inputs; its flags are among the classifier's and equal unless a spike coincides with low or high |
| HeartRateRecords.CountStatus | server/server.js:304-306 | the filter's length is the number of entries whose primary status is that name (its multiplicity among the statuses); hence at most the history length, equal to it iff every entry has that status, and zero iff none has |
| HeartRateRecords.CountStatusAppend | server/server.js:304-306 | counting a concatenation adds the counts of its parts |
| HeartRateRecords.SummaryOf | server/server.js:302-307 | totalReadings is the history length; critical, warning and normal are each the number of entries whose primary status is that name; no critical (warning) entry iff that count is 0; all normal iff the normal count is the total |
| HeartRateRecords.SummaryPartitionsHistory | server/server.js:302-307 | when every entry has one of the three statuses, critical + warning + normal = totalReadings |
| HeartRateRecords.CountsBounded | server/server.js:302-307 | the three counts never sum past totalReadings |
| HeartRateRecords.DashboardView | server/server.js:292-307 | min(10, n) history entries, each the normalised document at that position; latest present iff there is a document, and equal to the first history entry; the summary is SummaryOf the history, at most 10 readings |
| Hazards.Confident | server/server.js:365 | a detection is in the result iff it is in the input and scores above 0.15 (`?? 0` for a missing score); the result is never longer than the input |
| Hazards.ConfidentCounts | server/server.js:365 | each detection scoring above 0.15 is kept as many times as the input has it; every other detection is kept zero times |
| Hazards.ConfidentKeepsOrder | server/server.js:365 | the filter keeps order: filtering a concatenation is filtering each part and concatenating |
| Hazards.InsertByScore | server/server.js:367 | inserting into a descending list keeps it descending and adds exactly the element |
| Hazards.SortByScore | server/server.js:366-367 | the result is in descending score order and a permutation of the input |
| Hazards.TopDetections | server/server.js:365-368 | min(7, confident) detections, descending, all above 0.15, drawn from the confident ones, none scoring below a confident detection left out |
| Hazards.NormalizeLabel | server/server.js:352-360 | empty stays empty; "cat" iff the lower-cased label contains cat; "tissue" iff it contains tissue or paper and not cat; "plunger" iff plunger or plumber and neither earlier; otherwise the lower-cased label |
| Hazards.CanonicalLabelsHarmless | server/server.js:352-360 | a label normalised to cat, tissue or plunger triggers no hazard category |
| Hazards.NonEmpty | server/server.js:370 | the non-empty labels, each as many times as in the input |
| Hazards.NonEmptyKeepsOrder | server/server.js:370 | the filter keeps order: filtering a concatenation is filtering each part and concatenating |
| Hazards.NonEmptyKeepsFirstOrder | server/server.js:370 | of two kept labels, the one whose first occurrence comes first after filtering also comes first before |
| Hazards.Dedup | server/server.js:362-363 | no duplicates, the same members, in order of first occurrence |
| Hazards.LabelsOf | server/server.js:369 | one label per top detection: entry i is the normalised label of detection i |
| Hazards.CleanedLabels | server/server.js:362-372 | at most 7 labels, no duplicates, none empty; a label is present iff it is the non-empty normalised label of a top detection; labels come in the order of their first occurrence among the top detections' labels, which are in descending score |
| Hazards.AddTriggeredSpec | server/server.js:385-389 | offering the categories for one label adds exactly those it triggers, without duplicates |
| Hazards.HazardsOfSpec | server/server.js:382-391 | a category is a hazard iff some label contains one of its keywords; no category twice |
| Hazards.CollectHazards | server/server.js:382-391 | the nested loops compute HazardsOf: no duplicates, and a category is present iff some label triggers it |
| Hazards.RiskOfHazards | server/server.js:393-398 | risk is high iff some label is a fire or sharp hazard and low iff no label is a hazard |
| Hazards.EnvironmentOf | server/server.js:344-405 | no answer gives the fixed unanalysed result; otherwise lighting "unknown", the summary of the cleaned labels, duplicate-free hazards that are exactly the triggered categories, and the high/medium/low conditions |
| Hazards.InferEnvironment | server/server.js:342-406 | the handler's inference step with its loop and risk reassignment equals EnvironmentOf |
| Hazards.KitchenKnifeExample | server/server.js:362-405 | a kitchen knife at 0.9 with a cat at 0.05 gives the single label "kitchen knife", hazards [sharp], high risk and summary "Detected objects: kitchen knife", and that whole result for the upload |
| DeviceAuth.Authenticate | functions/src/middleware/deviceAuth.js:1-29 | passes iff both headers are present, the device exists, is enabled and the token matches; 401 "Missing x-device-id or x-device-token" for missing headers, 500 when the lookup throws, 401 "Unknown device", 403 "Device disabled" for a device not enabled, 401 "Invalid device token" for an enabled device with another token |
| DeviceAuth.ValidateDevice | server/server.js:48-78 | succeeds iff the same condition holds, with the header's id; an error with status 401 for missing headers, 401 for an unknown device, 403 for a disabled one, 401 for a wrong token, and no status, with the store's message, exactly when the lookup throws |
| DeviceAuth.ServerAuthOutcome | server/server.js:223-226 | the handler's catch passes the same requests; rejects with 401, 403 or 500; a throwing lookup answers 500 with its message, or "Error" when it has none; every other rejection carries one of the guard messages |
| DeviceAuth.AuthImplementationsAgree | server/server.js:223-226 | both implementations pass the same requests with the same id and reject with the same code; non-500 rejections are identical |
| DeviceAuth.DisabledBeatsWrongToken | functions/src/middleware/deviceAuth.js:17-22 | a disabled device with a wrong token gets 403 |
| Commands.OldestPendingExists | server/server.js:199-205 | a device with a pending command has an oldest one |
| Commands.NewestRunningExists | server/server.js:431-437 | a device with a running command has a newest one |
| Commands.ClaimTakesExactlyOne | server/server.js:211-220 | the claimed command was pending, is now running from the claim time with its other fields kept, is no longer pending, and no other command changed |
| Commands.SecondClaimDiffers | server/server.js:199-222 | two claims in a row for one device never return the same command |
| Commands.CompleteByIdIgnoresStatus | server/server.js:420-428 | the named document is completed with the time and result reference whatever its status, keeps its other fields, or is created without a device id; nothing else changes |
| Commands.TransitionsNeverRevert | server/server.js:214-220 | neither a claim nor a completion moves any command to an earlier status |
| Commands.CommandQueue.ClaimNext | server/server.js:199-222 | no pending command: nothing changes and none is returned; otherwise the oldest pending command, as read, is returned and marked running at the new time |
| Commands.CommandQueue.CompleteById | server/server.js:420-428 | the merge-or-create completion at the new time |
| Commands.CommandQueue.CompleteNewestRunning | server/server.js:429-449 | no running command: nothing changes; otherwise the running command with the latest start is completed |
| Commands.CommandQueue.Complete | server/server.js:419-449 | by id when `commandId` is truthy, otherwise the fallback |
| Stores.NewestFirst | server/server.js:265-277 | exactly the device's documents, no more than there are |
| Stores.LatestFor | server/server.js:470-477 | no latest document iff the device has none; otherwise one of the device's documents |
| Stores.NewestFirstDescending | server/server.js:268 | with timestamps in insertion order, the device's documents come newest first |
| Stores.LatestIsNewest | server/server.js:469-477 | the latest document exists iff the device has any, and has the greatest timestamp among them |
| Stores.NewestFirstAfterAdd | server/server.js:481-489 | an added document of the device heads its history; other devices' histories are unchanged |
| Stores.LatestImage | server/server.js:279-284 | an image of the device when it has one, none otherwise |
| Stores.LatestImageIsNewest | server/server.js:279-284 | the image found has the greatest timestamp among the device's images |
| Stores.HeartRateLog.AddReading | functions/src/routes/device.js:164-169 | appends the reading with the new time; analyses unchanged |
| Stores.HeartRateLog.AddAnalysis | server/server.js:481-489 | appends the document with the new time, returns its id; timestamps stay ordered |
| Stores.ImageStore.AddImage | server/server.js:330-334 | appends the image document with the new time |
| Stores.ImageStore.AddEnvironment | server/server.js:408-416 | appends the analysis document with the new time and returns its id |
| Http.ToNumber | server/server.js:462-463 | a missing field is non-finite, null and "" are 0, booleans 0/1, numbers themselves, non-digit text non-finite |
| Http.ObjectAndArrayFields | server/server.js:462-463 | an object field is non-finite, an empty array is 0, an array of two or more elements is non-finite |
| Http.SingletonArrayReadsAsElement | server/server.js:462-463 | a one-element array reads as its number, text or nested array would; null inside it is 0; a boolean or object inside it is non-finite |
| Http.NumericTextRoundTrip | server/server.js:462-463 | a whole number sent as decimal text is read back as itself |
| ServerApp.GetCommands | server/server.js:190-227 | rejection code and message of the auth guard; 400 for a query id that is missing or differs; otherwise the claim outcome |
| ServerApp.FileCheckCases | server/server.js:324 | the upload is refused with no file, a file without a path or a file without a name; a file with both passes |
| Http.QueryMatches | server/server.js:195 | the query matches iff it is exactly the authenticated device id and that id is non-empty |
| ServerApp.Dashboard | server/server.js:229-318 | the auth rejection as is; 400 for a query id that is missing or differs; a success iff authenticated with a matching query, whose heart-rate part is DashboardView of the device's analyses newest first and whose image is the device's latest image; history entries of the device with a status; latest present iff the device has an analysis |
| ServerApp.DashboardShowsNewest | server/server.js:265-300 | in a consistent store the history runs newest to oldest and latest is the device's newest analysis, normalised |
| ServerApp.UploadImage | server/server.js:320-456 | rejection or 400 for a missing file with nothing stored; otherwise an image document with the public URL, the inferred result stored with the file's type and size, and the completion outcome |
| ServerApp.Telemetry | server/server.js:458-506 | rejection or 400 for a non-finite bpm or spo2 with nothing stored; otherwise the classifier's result against the device's latest analysis is stored and becomes the device's latest |
| ServerApp.ConsecutiveReadingsSpike | server/server.js:469-489 | two readings in a row from a device that differ by 30 or more flag a spike, and a critical status, on the second |
| FunctionsApp.Concat | functions/src/routes/device.js:76-79 | the buffer is empty iff every chunk is |
| FunctionsApp.LastCommandId | functions/src/routes/device.js:64-66 | none iff no `commandId` field; otherwise the value of the last such field |
| FunctionsApp.LastImagePart | functions/src/routes/device.js:68-80 | none iff no file named `image`; otherwise the last such file |
| FunctionsApp.FormOf | functions/src/routes/device.js:58-80 | no command id iff no `commandId` field; no image iff no `image` file part; the mime type is set iff the image is; the image is the concatenated chunks of the last `image` part and the mime type is that part's |
| FunctionsApp.ParseMultipart | functions/src/routes/device.js:58-80 | the event loop over the parts yields FormOf of the parts |
| FunctionsApp.AcceptedImage | functions/src/routes/device.js:84-90 | accepted iff the image is non-empty and its type is absent, empty, image/jpeg or image/jpg; the missing-image and jpeg-only errors |
| FunctionsApp.EmptyImageIsMissing | functions/src/routes/device.js:84-86 | a last image part whose chunks are all empty is refused as missing |
| FunctionsApp.OtherPartsIgnored | functions/src/routes/device.js:64-72 | a field or file under another name leaves the form unchanged |
| FunctionsApp.GetCommands | functions/src/routes/device.js:15-50 | middleware rejection; 400 for a missing or differing query id; otherwise the claim outcome |
| FunctionsApp.UploadImage | functions/src/routes/device.js:55-148 | rejection, or 400 with the image check's message, with nothing stored; otherwise the stub result stored with the object's URL and path, and the completion outcome |
| FunctionsApp.Telemetry | functions/src/routes/device.js:151-186 | rejection or 400 with nothing stored; otherwise the raw reading, then the single-status analysis against the latest analysis, both stored; the analysis is returned |

## Left out

- Firebase initialisation, environment variables, Express and CORS wiring, `/health`,
  and the static `/uploads` route are not modelled.
- The labelling HTTP call and reading the saved file back are not modelled. The call's
  answer is the `answer` parameter, and `None` stands for a failure or a non-list answer.
- multer's disk storage, its file-name generator and its 2 MB limit are not modelled.
  Neither is the error multer raises for an unexpected file field. Its result is the
  `file` parameter.
- Busboy streaming and its events are modelled as a sequence of parts read in order.
- `functions/src/services/storage.js` (the upload to Cloud Storage and the signed URL)
  is not part of this model. Its answer is the `stored` parameter.
- `functions/src/services/aiService.js` is modelled only through its constant answer,
  `FunctionsApp.StubResult`.
- Store failures and the 500 answers they cause are not modelled. This covers "Failed to
  fetch commands", "Upload/analyze failed" and "Telemetry failed", and the server's
  catch of a failing store. Partial writes left behind by such a failure are also not
  modelled. The auth lookup's failure is modelled.
- Concurrency between requests (`Promise.all`, two claims racing) is not modelled. Every
  handler runs to completion on its own.
- The store's order among equal timestamps is not modelled. Claim and fallback may
  return any command with the extreme timestamp.
- The dashboard's `id` field of each entry is not modelled. Neither is any command
  field other than device, status and the three timestamps and result reference.
- Numbers are whole numbers or non-finite. Fractional bpm or spo2, and IEEE rounding,
  are not modelled.
- Http.ToNumber: only empty or all-digit text is read as a number. Whitespace, signs,
  decimals, exponents and hexadecimal in text are read as non-finite here, whereas
  JavaScript reads them as finite numbers. The same holds for the text of a
  one-element array.
- Text.ToLower lower-cases ASCII letters only. Other characters are kept.
- Hazards.SortByScore: stability among equal scores is not stated, only order and
  permutation.
- A query value that is not a single string is modelled as absent. Both answer 400.
- A repeated `commandId` field in the Express upload is not modelled. multer turns it
  into an array.
- Document ids that contain `/`, which the store would read as a path, are not modelled.
