/**
 * The single-status heart-rate classifier of the Cloud Functions app
 * (`analyzeHeartRateTelemetry`). The store lookup of the previous analysis is the
 * `prevBpm` parameter; the classification itself is an if-chain where a spike
 * overrides a high or low result.
 */
module LegacyHeartRate {
  import opened Wrappers
  import opened Text
  import HR = HeartRate

  datatype LegacyStatus = Normal | High | Low | Spike

  /** The analysis returned to the caller: the status, its reason and the echoed `prevBpm`. */
  datatype TelemetryAnalysis = TelemetryAnalysis(status: LegacyStatus, reason: string, prevBpm: Option<HR.Num>)

  function LegacyStatusName(s: LegacyStatus): string {
    match s
    case Normal => "normal"
    case High => "high"
    case Low => "low"
    case Spike => "spike"
  }

  function SpikeReason(delta: nat): string {
    "Spike detected (\U{0394}" + NatToString(delta) + " from previous BPM)."
  }

  /** `analyzeHeartRateTelemetry` once the previous reading is known. */
  function AnalyzeTelemetry(bpm: int, prevBpm: Option<HR.Num>): (a: TelemetryAnalysis)
    ensures a.prevBpm == prevBpm
    ensures a.status == Spike <==> HR.IsSpike(bpm, prevBpm)
    ensures a.status == High <==> !HR.IsSpike(bpm, prevBpm) && bpm > HR.HighBpm
    ensures a.status == Low <==> !HR.IsSpike(bpm, prevBpm) && bpm < HR.LowBpm
    ensures a.status == Normal <==> !HR.IsSpike(bpm, prevBpm) && HR.LowBpm <= bpm <= HR.HighBpm
    ensures a.reason == HR.NormalReason <==> a.status == Normal
    ensures a.status == High ==> a.reason == HR.HighReason
    ensures a.status == Low ==> a.reason == HR.LowReason
    ensures a.status == Spike ==> a.reason == SpikeReason(HR.Abs(bpm - prevBpm.value.value))
  {
    var (status, reason) :=
      if bpm > HR.HighBpm then (High, HR.HighReason)
      else if bpm < HR.LowBpm then (Low, HR.LowReason)
      else (Normal, HR.NormalReason);
    var result :=
      match prevBpm
      case Some(Finite(p)) =>
        if HR.Abs(bpm - p) >= HR.SpikeDelta then TelemetryAnalysis(Spike, SpikeReason(HR.Abs(bpm - p)), prevBpm)
        else TelemetryAnalysis(status, reason, prevBpm)
      case _ => TelemetryAnalysis(status, reason, prevBpm);
    assert result.status == Spike ==> result.reason[0] == 'S';
    assert HR.HighReason[0] == 'B' && HR.LowReason[0] == 'B' && HR.NormalReason[0] == 'W';
    result
  }

  /** Without a previous analysis, or with one whose bpm is not a number, there is no spike. */
  lemma NoPreviousNoSpike(bpm: int)
    ensures AnalyzeTelemetry(bpm, None).status != Spike
    ensures AnalyzeTelemetry(bpm, Some(HR.NonFinite)).status != Spike
  {
  }

  /** The boundaries 40 and 120 are normal when there is no spike. */
  lemma BoundariesAreNormal()
    ensures AnalyzeTelemetry(40, None) == TelemetryAnalysis(Normal, HR.NormalReason, None)
    ensures AnalyzeTelemetry(120, None) == TelemetryAnalysis(Normal, HR.NormalReason, None)
    ensures AnalyzeTelemetry(39, None).status == Low
    ensures AnalyzeTelemetry(121, None).status == High
  {
  }
}
