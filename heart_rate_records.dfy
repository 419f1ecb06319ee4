/**
 * The `heart_rate_analysis` documents both apps write, the dashboard's normaliser that
 * reads old single-status documents as new multi-flag ones, and the dashboard summary.
 */
module HeartRateRecords {
  import opened Wrappers
  import opened Text
  import HR = HeartRate
  import L = LegacyHeartRate

  /** A `heart_rate_analysis` document. A field the document lacks is `None`; `flags` is
      also `None` when the stored value is not an array. */
  datatype AnalysisDoc = AnalysisDoc(
    deviceId: string,
    bpm: Option<int>,
    spo2: Option<int>,
    flags: Option<seq<string>>,
    primaryStatus: Option<string>,
    status: Option<string>,
    reason: Option<string>,
    createdAt: int)

  /** The document the Express server writes for a reading. */
  function ServerDoc(deviceId: string, bpm: int, spo2: int, a: HR.Analysis, createdAt: int): (doc: AnalysisDoc)
    ensures doc.deviceId == deviceId && doc.bpm == Some(bpm) && doc.spo2 == Some(spo2) && doc.createdAt == createdAt
    ensures doc.status.None? && doc.reason == Some(a.reason)
    ensures doc.flags.Some? && |doc.flags.value| == |a.flags|
    ensures Truthy(doc.primaryStatus)
  {
    AnalysisDoc(deviceId, Some(bpm), Some(spo2), Some(FlagNames(a.flags)), Some(HR.StatusName(a.primaryStatus)),
                None, Some(a.reason), createdAt)
  }

  /** The document the Cloud Functions app writes for a reading: a single old-style status. */
  function LegacyDoc(deviceId: string, bpm: int, spo2: int, a: L.TelemetryAnalysis, createdAt: int): (doc: AnalysisDoc)
    ensures doc.deviceId == deviceId && doc.bpm == Some(bpm) && doc.spo2 == Some(spo2) && doc.createdAt == createdAt
    ensures doc.reason == Some(a.reason)
    ensures doc.flags.None? && !Truthy(doc.primaryStatus) && Truthy(doc.status)
  {
    AnalysisDoc(deviceId, Some(bpm), Some(spo2), None, None, Some(L.LegacyStatusName(a.status)), Some(a.reason), createdAt)
  }

  /** The stored `flags` array: the name of each flag, in the same order. */
  function FlagNames(flags: seq<HR.Flag>): (names: seq<string>)
    ensures |names| == |flags|
    ensures forall i :: 0 <= i < |flags| ==> names[i] == HR.FlagName(flags[i])
  {
    seq(|flags|, i requires 0 <= i < |flags| => HR.FlagName(flags[i]))
  }

  /** `prevSnap.empty ? null : Number(prev.bpm)`: no previous document gives null, a
      document without a numeric bpm gives NaN. */
  function PreviousBpm(latest: Option<AnalysisDoc>): (prev: Option<HR.Num>)
    ensures latest.None? <==> prev.None?
    ensures prev.Some? && prev.value.Finite? <==> latest.Some? && latest.value.bpm.Some?
    ensures prev.Some? && prev.value.Finite? ==> prev.value.value == latest.value.bpm.value
  {
    match latest
    case None => None
    case Some(doc) => if doc.bpm.Some? then Some(HR.Finite(doc.bpm.value)) else Some(HR.NonFinite)
  }

  function ArrayOrEmpty(flags: Option<seq<string>>): seq<string> {
    if flags.Some? then flags.value else []
  }

  /** The invariant of a multi-flag document: the primary status is critical iff spike is
      flagged, else warning iff low or high is flagged, else normal. */
  predicate StatusMatchesFlags(doc: AnalysisDoc) {
    doc.flags.Some? && doc.primaryStatus.Some? &&
    doc.primaryStatus.value ==
      (if "spike" in doc.flags.value then "critical"
       else if "low" in doc.flags.value || "high" in doc.flags.value then "warning"
       else "normal")
  }

  /** `normalizeHeartRateAnalysisDoc`. */
  function Normalize(doc: AnalysisDoc): (r: AnalysisDoc)
    ensures r == doc.(flags := r.flags, primaryStatus := r.primaryStatus)
    ensures r.flags.Some? && r.primaryStatus.Some?
    ensures Truthy(doc.primaryStatus) ==> r.primaryStatus == doc.primaryStatus && r.flags == Some(ArrayOrEmpty(doc.flags))
    ensures !Truthy(doc.primaryStatus) && !Truthy(doc.status) ==>
      r.primaryStatus == Some("normal") && r.flags == Some(ArrayOrEmpty(doc.flags))
    ensures !Truthy(doc.primaryStatus) && doc.status in {Some("low"), Some("high")} ==> r.primaryStatus == Some("warning")
    ensures !Truthy(doc.primaryStatus) && doc.status == Some("spike") ==> r.primaryStatus == Some("critical")
    ensures !Truthy(doc.primaryStatus) && doc.status !in {Some("low"), Some("high"), Some("spike")} ==> r.primaryStatus == Some("normal")
    ensures !Truthy(doc.primaryStatus) && Truthy(doc.status) ==> StatusMatchesFlags(r)
    ensures !Truthy(doc.primaryStatus) && Truthy(doc.status) ==>
      r.flags == Some(if doc.status.value in {"low", "high", "spike"} then [doc.status.value] else [])
    ensures !Truthy(doc.primaryStatus) ==> r.primaryStatus.value in {"normal", "warning", "critical"}
  {
    if Truthy(doc.primaryStatus) then
      doc.(flags := Some(ArrayOrEmpty(doc.flags)))
    else if !Truthy(doc.status) then
      doc.(flags := Some(ArrayOrEmpty(doc.flags)), primaryStatus := Some("normal"))
    else
      var status := doc.status.value;
      if status == "low" then doc.(flags := Some(["low"]), primaryStatus := Some("warning"))
      else if status == "high" then doc.(flags := Some(["high"]), primaryStatus := Some("warning"))
      else if status == "spike" then doc.(flags := Some(["spike"]), primaryStatus := Some("critical"))
      else if status == "normal" then doc.(flags := Some([]), primaryStatus := Some("normal"))
      else doc.(flags := Some([]), primaryStatus := Some("normal"))
  }

  /** A flag is present iff its name is among the stored names. */
  lemma FlagNamesMembership(flags: seq<HR.Flag>)
    ensures "low" in FlagNames(flags) <==> HR.Low in flags
    ensures "high" in FlagNames(flags) <==> HR.High in flags
    ensures "spike" in FlagNames(flags) <==> HR.Spike in flags
  {
    var names := FlagNames(flags);
    forall f: HR.Flag ensures HR.FlagName(f) in names <==> f in flags {
      if HR.FlagName(f) in names {
        var i :| 0 <= i < |names| && names[i] == HR.FlagName(f);
        assert HR.FlagName(flags[i]) == HR.FlagName(f);
      }
      if f in flags {
        var i :| 0 <= i < |flags| && flags[i] == f;
        assert names[i] == HR.FlagName(f);
      }
    }
    assert HR.FlagName(HR.Low) == "low" && HR.FlagName(HR.High) == "high" && HR.FlagName(HR.Spike) == "spike";
  }

  /** Any analysis whose status follows its flags reads back unchanged. */
  lemma StoredAnalysisReadsBack(deviceId: string, bpm: int, spo2: int, a: HR.Analysis, createdAt: int)
    requires a.primaryStatus == HR.PrimaryStatus(a.flags)
    ensures var doc := ServerDoc(deviceId, bpm, spo2, a, createdAt);
      Normalize(doc) == doc && StatusMatchesFlags(doc)
  {
    FlagNamesMembership(a.flags);
  }

  /** Reading back what the server wrote gives the classifier's own flags and status. */
  lemma ServerDocRoundTrip(deviceId: string, bpm: int, spo2: int, prevBpm: Option<HR.Num>, createdAt: int)
    ensures var a := HR.AnalyzeHeartRate(bpm, prevBpm);
      var r := Normalize(ServerDoc(deviceId, bpm, spo2, a, createdAt));
      r.flags == Some(FlagNames(a.flags)) && r.primaryStatus == Some(HR.StatusName(a.primaryStatus))
      && r.reason == Some(a.reason) && StatusMatchesFlags(r)
  {
    var a := HR.AnalyzeHeartRate(bpm, prevBpm);
    StoredAnalysisReadsBack(deviceId, bpm, spo2, a, createdAt);
  }

  /** The normaliser maps each old-style status to one flag and its primary status. */
  lemma LegacyDocReadsBack(deviceId: string, bpm: int, spo2: int, prevBpm: Option<HR.Num>, createdAt: int)
    ensures var r := Normalize(LegacyDoc(deviceId, bpm, spo2, L.AnalyzeTelemetry(bpm, prevBpm), createdAt));
      && (HR.IsSpike(bpm, prevBpm) ==> r.flags == Some(["spike"]) && r.primaryStatus == Some("critical"))
      && (!HR.IsSpike(bpm, prevBpm) && bpm < HR.LowBpm ==> r.flags == Some(["low"]) && r.primaryStatus == Some("warning"))
      && (!HR.IsSpike(bpm, prevBpm) && bpm > HR.HighBpm ==> r.flags == Some(["high"]) && r.primaryStatus == Some("warning"))
      && (!HR.IsSpike(bpm, prevBpm) && HR.LowBpm <= bpm <= HR.HighBpm ==> r.flags == Some([]) && r.primaryStatus == Some("normal"))
  {
    var t := L.AnalyzeTelemetry(bpm, prevBpm);
    var doc := LegacyDoc(deviceId, bpm, spo2, t, createdAt);
    assert !Truthy(doc.primaryStatus);
    match t.status {
      case Spike => assert doc.status == Some("spike");
      case Low => assert doc.status == Some("low");
      case High => assert doc.status == Some("high");
      case Normal => assert doc.status == Some("normal");
    }
  }

  /** The stored flag names and status of each kind of reading. */
  lemma ClassifierNames(bpm: int, prevBpm: Option<HR.Num>)
    ensures var a := HR.AnalyzeHeartRate(bpm, prevBpm);
      && (HR.IsSpike(bpm, prevBpm) ==> "spike" in FlagNames(a.flags) && HR.StatusName(a.primaryStatus) == "critical")
      && (HR.IsSpike(bpm, prevBpm) && HR.LowBpm <= bpm <= HR.HighBpm ==> FlagNames(a.flags) == ["spike"])
      && (!HR.IsSpike(bpm, prevBpm) && bpm < HR.LowBpm ==> FlagNames(a.flags) == ["low"] && HR.StatusName(a.primaryStatus) == "warning")
      && (!HR.IsSpike(bpm, prevBpm) && bpm > HR.HighBpm ==> FlagNames(a.flags) == ["high"] && HR.StatusName(a.primaryStatus) == "warning")
      && (!HR.IsSpike(bpm, prevBpm) && HR.LowBpm <= bpm <= HR.HighBpm ==> FlagNames(a.flags) == [] && HR.StatusName(a.primaryStatus) == "normal")
  {
    var a := HR.AnalyzeHeartRate(bpm, prevBpm);
    HR.FlagsOfReading(bpm, prevBpm);
    NamesOfFlagLists();
    if HR.IsSpike(bpm, prevBpm) {
      assert HR.Spike in a.flags;
      FlagNamesMembership(a.flags);
    }
  }

  /** The stored names of the flag lists the classifier raises. */
  lemma NamesOfFlagLists()
    ensures FlagNames([]) == []
    ensures FlagNames([HR.Low]) == ["low"] && FlagNames([HR.High]) == ["high"]
    ensures FlagNames([HR.Spike]) == ["spike"]
  {
  }

  /** A document written by the Cloud Functions app, read through the normaliser, has the
      primary status the multi-flag classifier computes for the same bpm and previous bpm;
      its flags are among the classifier's, and equal to them unless a spike coincides
      with a low or high reading. */
  lemma LegacyStatusAgreesWithClassifier(deviceId: string, bpm: int, spo2: int, prevBpm: Option<HR.Num>, createdAt: int)
    ensures var r := Normalize(LegacyDoc(deviceId, bpm, spo2, L.AnalyzeTelemetry(bpm, prevBpm), createdAt));
      var a := HR.AnalyzeHeartRate(bpm, prevBpm);
      && r.primaryStatus == Some(HR.StatusName(a.primaryStatus))
      && (forall f :: f in r.flags.value ==> f in FlagNames(a.flags))
      && (a.flags != [HR.Low, HR.Spike] && a.flags != [HR.High, HR.Spike] ==> r.flags.value == FlagNames(a.flags))
  {
    LegacyDocReadsBack(deviceId, bpm, spo2, prevBpm, createdAt);
    ClassifierNames(bpm, prevBpm);
    HR.FlagsOfReading(bpm, prevBpm);
  }

  /** The dashboard's `summary`. */
  datatype Summary = Summary(totalReadings: nat, critical: nat, warning: nat, normal: nat)

  /** The primary statuses of a history, position by position. */
  function StatusesOf(history: seq<AnalysisDoc>): (ss: seq<Option<string>>)
    ensures |ss| == |history|
  {
    seq(|history|, i requires 0 <= i < |history| => history[i].primaryStatus)
  }

  lemma StatusesOfAppend(a: seq<AnalysisDoc>, b: seq<AnalysisDoc>)
    ensures StatusesOf(a + b) == StatusesOf(a) + StatusesOf(b)
  {
    var l, r := StatusesOf(a + b), StatusesOf(a) + StatusesOf(b);
    forall i | 0 <= i < |l| ensures l[i] == r[i] {
      if i < |a| {
        assert l[i] == a[i].primaryStatus;
      } else {
        assert l[i] == b[i - |a|].primaryStatus;
      }
    }
  }

  /** `history.filter((d) => d.primaryStatus === name).length`: the number of entries
      whose primary status is `name`. */
  function CountStatus(history: seq<AnalysisDoc>, name: string): (n: nat)
    ensures n == multiset(StatusesOf(history))[Some(name)]
    ensures n <= |history|
    ensures n == |history| <==> forall i :: 0 <= i < |history| ==> history[i].primaryStatus == Some(name)
    ensures n == 0 <==> forall i :: 0 <= i < |history| ==> history[i].primaryStatus != Some(name)
  {
    if history == [] then 0
    else
      var h, t := [history[0]], history[1..];
      assert h + t == history;
      StatusesOfAppend(h, t);
      assert StatusesOf(h) == [history[0].primaryStatus];
      CountStatus(t, name) + (if history[0].primaryStatus == Some(name) then 1 else 0)
  }

  /** Counting a concatenation counts each part. */
  lemma {:induction false} CountStatusAppend(a: seq<AnalysisDoc>, b: seq<AnalysisDoc>, name: string)
    ensures CountStatus(a + b, name) == CountStatus(a, name) + CountStatus(b, name)
  {
    StatusesOfAppend(a, b);
  }

  /** The dashboard's `summary` of a history: each count is the number of entries holding
      that status. */
  function SummaryOf(history: seq<AnalysisDoc>): (s: Summary)
    ensures s.totalReadings == |history|
    ensures s.critical == multiset(StatusesOf(history))[Some("critical")]
    ensures s.warning == multiset(StatusesOf(history))[Some("warning")]
    ensures s.normal == multiset(StatusesOf(history))[Some("normal")]
    ensures s.critical <= s.totalReadings && s.warning <= s.totalReadings && s.normal <= s.totalReadings
    ensures s.critical == 0 <==> forall i :: 0 <= i < |history| ==> history[i].primaryStatus != Some("critical")
    ensures s.warning == 0 <==> forall i :: 0 <= i < |history| ==> history[i].primaryStatus != Some("warning")
    ensures s.normal == |history| <==> forall i :: 0 <= i < |history| ==> history[i].primaryStatus == Some("normal")
  {
    Summary(|history|, CountStatus(history, "critical"), CountStatus(history, "warning"), CountStatus(history, "normal"))
  }

  /** When every entry carries one of the three statuses, the counts partition the history. */
  lemma {:induction false} SummaryPartitionsHistory(history: seq<AnalysisDoc>)
    requires forall i :: 0 <= i < |history| ==>
      history[i].primaryStatus in {Some("critical"), Some("warning"), Some("normal")}
    ensures var s := SummaryOf(history); s.critical + s.warning + s.normal == s.totalReadings
  {
    if history != [] {
      SummaryPartitionsHistory(history[1..]);
    }
  }

  /** What the dashboard shows of a device's analyses, given them newest first. */
  datatype HeartRateView = HeartRateView(latest: Option<AnalysisDoc>, history: seq<AnalysisDoc>, summary: Summary)

  /** The latest entry (limit 1), the history (limit 10) and its summary. */
  function DashboardView(newestFirst: seq<AnalysisDoc>): (v: HeartRateView)
    ensures |v.history| == Min(10, |newestFirst|)
    ensures forall i :: 0 <= i < |v.history| ==> v.history[i] == Normalize(newestFirst[i])
    ensures v.latest.Some? <==> newestFirst != []
    ensures v.latest.Some? ==> v.latest.value == v.history[0]
    ensures v.summary == SummaryOf(v.history)
    ensures v.summary.totalReadings == |v.history| <= 10
    ensures v.summary.critical + v.summary.warning + v.summary.normal <= v.summary.totalReadings
  {
    var latest := if newestFirst == [] then None else Some(Normalize(newestFirst[0]));
    var recent := newestFirst[..Min(10, |newestFirst|)];
    var history := seq(|recent|, i requires 0 <= i < |recent| => Normalize(recent[i]));
    CountsBounded(history);
    HeartRateView(latest, history, SummaryOf(history))
  }

  /** The three counts never exceed the number of entries, whatever statuses they hold. */
  lemma {:induction false} CountsBounded(history: seq<AnalysisDoc>)
    ensures var s := SummaryOf(history); s.critical + s.warning + s.normal <= s.totalReadings
  {
    if history != [] {
      CountsBounded(history[1..]);
    }
  }
}
