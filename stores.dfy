/**
 * The store collections the handlers read and append to, other than `device_commands`:
 * raw readings (`heart_rate_telemetry`), analyses (`heart_rate_analysis`), uploaded images
 * (`device_images`) and image analyses (`environment_analysis`). A document's id is its
 * position in its collection; `createdAt` is the server timestamp given when it is added.
 */
module Stores {
  import opened Wrappers
  import opened HeartRateRecords
  import Hazards

  /** A `heart_rate_telemetry` document. */
  datatype Reading = Reading(deviceId: string, bpm: int, spo2: int, createdAt: int)

  /** A `device_images` document. */
  datatype ImageDoc = ImageDoc(deviceId: string, imageUrl: string, createdAt: int)

  /** What an `environment_analysis` document records about the image: the Express server
      keeps the upload's mime type and size, the Cloud Functions app the stored object. */
  datatype ImageInfo = FileInfo(mimeType: string, sizeBytes: nat) | StoredAt(imageUrl: string, imagePath: string)

  /** An `environment_analysis` document. */
  datatype EnvironmentDoc = EnvironmentDoc(deviceId: string, image: ImageInfo, result: Hazards.EnvironmentResult, createdAt: int)

  /** Server timestamps are given in insertion order and never exceed the store's clock. */
  predicate AnalysesInOrder(docs: seq<AnalysisDoc>, clock: int) {
    (forall i, j :: 0 <= i < j < |docs| ==> docs[i].createdAt < docs[j].createdAt)
    && forall i :: 0 <= i < |docs| ==> docs[i].createdAt <= clock
  }

  predicate ImagesInOrder(images: seq<ImageDoc>, clock: int) {
    (forall i, j :: 0 <= i < j < |images| ==> images[i].createdAt < images[j].createdAt)
    && forall i :: 0 <= i < |images| ==> images[i].createdAt <= clock
  }

  /** `where('deviceId', '==', d).orderBy('createdAt', 'desc')` over a collection kept in
      insertion order: the device's documents, last added first. */
  function NewestFirst(docs: seq<AnalysisDoc>, deviceId: string): (r: seq<AnalysisDoc>)
    ensures |r| <= |docs|
    ensures forall i :: 0 <= i < |r| ==> r[i].deviceId == deviceId
    ensures forall x :: x in r <==> x in docs && x.deviceId == deviceId
    decreases |docs|
  {
    if docs == [] then []
    else
      var last := docs[|docs| - 1];
      (if last.deviceId == deviceId then [last] else []) + NewestFirst(docs[..|docs| - 1], deviceId)
  }

  /** The same query with `limit(1)`. */
  function LatestFor(docs: seq<AnalysisDoc>, deviceId: string): (r: Option<AnalysisDoc>)
    ensures r.None? <==> forall x :: x in docs ==> x.deviceId != deviceId
    ensures r.Some? ==> r.value in docs && r.value.deviceId == deviceId
  {
    var r := NewestFirst(docs, deviceId);
    if r == [] then None
    else
      assert r[0] in r;
      Some(r[0])
  }

  predicate NewestToOldest(docs: seq<AnalysisDoc>) {
    forall i, j :: 0 <= i < j < |docs| ==> docs[i].createdAt > docs[j].createdAt
  }

  /** A document newer than every document of an ordered answer can head it. */
  lemma PrependNewer(x: AnalysisDoc, rest: seq<AnalysisDoc>)
    requires NewestToOldest(rest)
    requires forall y :: y in rest ==> y.createdAt < x.createdAt
    ensures NewestToOldest([x] + rest)
  {
    var r := [x] + rest;
    forall i, j | 0 <= i < j < |r| ensures r[i].createdAt > r[j].createdAt {
      assert r[j] == rest[j - 1];
      if i > 0 {
        assert r[i] == rest[i - 1];
      }
    }
  }

  /** The query's answer really is ordered newest first. */
  lemma {:induction false} NewestFirstDescending(docs: seq<AnalysisDoc>, deviceId: string, clock: int)
    requires AnalysesInOrder(docs, clock)
    ensures NewestToOldest(NewestFirst(docs, deviceId))
    decreases |docs|
  {
    if docs != [] {
      var n := |docs| - 1;
      var prefix := docs[..n];
      assert AnalysesInOrder(prefix, clock);
      NewestFirstDescending(prefix, deviceId, clock);
      var rest := NewestFirst(prefix, deviceId);
      if docs[n].deviceId == deviceId {
        forall y | y in rest ensures y.createdAt < docs[n].createdAt {
          var k :| 0 <= k < n && prefix[k] == y;
        }
        PrependNewer(docs[n], rest);
      }
    }
  }

  /** The latest document is the device's document with the greatest timestamp, and
      there is one exactly when the device has any document. */
  lemma LatestIsNewest(docs: seq<AnalysisDoc>, deviceId: string, clock: int)
    requires AnalysesInOrder(docs, clock)
    ensures LatestFor(docs, deviceId).None? <==> forall x :: x in docs ==> x.deviceId != deviceId
    ensures LatestFor(docs, deviceId).Some? ==>
      var latest := LatestFor(docs, deviceId).value;
      latest in docs && latest.deviceId == deviceId
      && forall x :: x in docs && x.deviceId == deviceId ==> x.createdAt <= latest.createdAt
  {
    var r := NewestFirst(docs, deviceId);
    NewestFirstDescending(docs, deviceId, clock);
    if r != [] {
      forall x | x in docs && x.deviceId == deviceId ensures x.createdAt <= r[0].createdAt {
        assert x in r;
        var j :| 0 <= j < |r| && r[j] == x;
        if j > 0 {
          assert NewestToOldest(r);
        }
      }
    }
  }

  /** Appending a document of the device puts it at the head of the device's history and
      leaves every other device's history as it was. */
  lemma NewestFirstAfterAdd(docs: seq<AnalysisDoc>, doc: AnalysisDoc, deviceId: string)
    ensures NewestFirst(docs + [doc], deviceId) ==
      (if doc.deviceId == deviceId then [doc] + NewestFirst(docs, deviceId) else NewestFirst(docs, deviceId))
  {
    assert (docs + [doc])[..|docs|] == docs;
  }

  /** The device's last added image (`device_images`, newest by `createdAt`, limit 1). */
  function LatestImage(images: seq<ImageDoc>, deviceId: string): (r: Option<ImageDoc>)
    ensures r.None? <==> forall x :: x in images ==> x.deviceId != deviceId
    ensures r.Some? ==> r.value in images && r.value.deviceId == deviceId
    decreases |images|
  {
    if images == [] then None
    else if images[|images| - 1].deviceId == deviceId then Some(images[|images| - 1])
    else
      var r := LatestImage(images[..|images| - 1], deviceId);
      assert images == images[..|images| - 1] + [images[|images| - 1]];
      r
  }

  /** The image found is the device's image with the greatest timestamp. */
  lemma {:induction false} LatestImageIsNewest(images: seq<ImageDoc>, deviceId: string, clock: int)
    requires ImagesInOrder(images, clock)
    ensures LatestImage(images, deviceId).Some? ==>
      forall x :: x in images && x.deviceId == deviceId ==> x.createdAt <= LatestImage(images, deviceId).value.createdAt
    decreases |images|
  {
    if images != [] {
      var n := |images| - 1;
      var prefix := images[..n];
      if images[n].deviceId == deviceId {
        forall x | x in images && x.deviceId == deviceId ensures x.createdAt <= images[n].createdAt {
          var k :| 0 <= k < |images| && images[k] == x;
        }
      } else {
        assert ImagesInOrder(prefix, clock);
        LatestImageIsNewest(prefix, deviceId, clock);
        forall x | x in images && x.deviceId == deviceId
          ensures x.createdAt <= LatestImage(images, deviceId).value.createdAt
        {
          var k :| 0 <= k < |images| && images[k] == x;
          assert k < n;
          assert x in prefix;
        }
      }
    }
  }

  /** `heart_rate_telemetry` and `heart_rate_analysis`, with the store's clock. */
  class HeartRateLog {
    var readings: seq<Reading>
    var analyses: seq<AnalysisDoc>
    var clock: int

    predicate Valid()
      reads this
    {
      AnalysesInOrder(analyses, clock)
    }

    constructor ()
      ensures readings == [] && analyses == [] && clock == 0
      ensures Valid()
    {
      readings := [];
      analyses := [];
      clock := 0;
    }

    /** `add({ deviceId, bpm, spo2, createdAt: serverTimestamp() })` on the raw readings. */
    method AddReading(deviceId: string, bpm: int, spo2: int)
      requires Valid()
      modifies this
      ensures Valid()
      ensures clock == old(clock) + 1
      ensures readings == old(readings) + [Reading(deviceId, bpm, spo2, clock)]
      ensures analyses == old(analyses)
    {
      clock := clock + 1;
      readings := readings + [Reading(deviceId, bpm, spo2, clock)];
    }

    /** `add(...)` on the analyses: the document gets the server timestamp; the answer is
        the new document's id. */
    method AddAnalysis(doc: AnalysisDoc) returns (id: nat)
      requires Valid()
      modifies this
      ensures Valid()
      ensures clock == old(clock) + 1
      ensures analyses == old(analyses) + [doc.(createdAt := clock)]
      ensures readings == old(readings)
      ensures id == |old(analyses)| && analyses[id] == doc.(createdAt := clock)
    {
      clock := clock + 1;
      id := |analyses|;
      analyses := analyses + [doc.(createdAt := clock)];
    }
  }

  /** `device_images` and `environment_analysis`, with the store's clock. */
  class ImageStore {
    var images: seq<ImageDoc>
    var environment: seq<EnvironmentDoc>
    var clock: int

    predicate Valid()
      reads this
    {
      ImagesInOrder(images, clock)
    }

    constructor ()
      ensures images == [] && environment == [] && clock == 0
      ensures Valid()
    {
      images := [];
      environment := [];
      clock := 0;
    }

    method AddImage(deviceId: string, imageUrl: string)
      requires Valid()
      modifies this
      ensures Valid()
      ensures clock == old(clock) + 1
      ensures images == old(images) + [ImageDoc(deviceId, imageUrl, clock)]
      ensures environment == old(environment)
    {
      clock := clock + 1;
      images := images + [ImageDoc(deviceId, imageUrl, clock)];
    }

    /** Adds an `environment_analysis` document; the answer is its id. */
    method AddEnvironment(deviceId: string, image: ImageInfo, result: Hazards.EnvironmentResult) returns (id: nat)
      requires Valid()
      modifies this
      ensures Valid()
      ensures clock == old(clock) + 1
      ensures environment == old(environment) + [EnvironmentDoc(deviceId, image, result, clock)]
      ensures images == old(images)
      ensures id == |old(environment)|
    {
      clock := clock + 1;
      id := |environment|;
      environment := environment + [EnvironmentDoc(deviceId, image, result, clock)];
    }
  }
}
