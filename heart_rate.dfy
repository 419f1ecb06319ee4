/**
 * The multi-flag heart-rate classifier of the Express server (`analyzeHeartRate`).
 * A reading is classified against the device's previous reading into a set of flags,
 * a primary status chosen by fixed priority, and a human-readable reason.
 */
module HeartRate {
  import opened Wrappers
  import opened Text

  /** A JavaScript number after `Number(...)`: NaN and the infinities are `NonFinite`.
      Heart rates are whole beats per minute in this model. */
  datatype Num = NonFinite | Finite(value: int)

  datatype Flag = Low | High | Spike

  datatype Status = Normal | Warning | Critical

  datatype Analysis = Analysis(flags: seq<Flag>, primaryStatus: Status, reason: string)

  const LowBpm: int := 40
  const HighBpm: int := 120
  const SpikeDelta: int := 30
  const NormalReason: string := "Within normal range."
  const LowReason: string := "BPM below 40."
  const HighReason: string := "BPM above 120."

  function FlagName(f: Flag): string {
    match f
    case Low => "low"
    case High => "high"
    case Spike => "spike"
  }

  function StatusName(s: Status): string {
    match s
    case Normal => "normal"
    case Warning => "warning"
    case Critical => "critical"
  }

  function Abs(x: int): nat {
    if x < 0 then -x else x
  }

  /** The reference notion of a spike, shared by both classifiers: the previous reading
      is a finite number and the current one is at least 30 bpm away from it. */
  predicate IsSpike(bpm: int, prevBpm: Option<Num>) {
    prevBpm.Some? && prevBpm.value.Finite? && Abs(bpm - prevBpm.value.value) >= SpikeDelta
  }

  /** Position of a flag in the fixed order low, high, spike. */
  function Rank(f: Flag): nat {
    match f
    case Low => 0
    case High => 1
    case Spike => 2
  }

  /** Flags listed in the order low, high, spike, each at most once. */
  predicate InCanonicalOrder(flags: seq<Flag>) {
    forall i, j :: 0 <= i < j < |flags| ==> Rank(flags[i]) < Rank(flags[j])
  }

  /** `delta` of the classifier: set only when the previous reading is finite. */
  function Delta(bpm: int, prevBpm: Option<Num>): Option<nat> {
    match prevBpm
    case Some(Finite(p)) => Some(Abs(bpm - p))
    case _ => None
  }

  /** The `flags` array, pushed in the order low, high, spike. */
  function Flags(bpm: int, prevBpm: Option<Num>): (flags: seq<Flag>)
    ensures Low in flags <==> bpm < LowBpm
    ensures High in flags <==> bpm > HighBpm
    ensures Spike in flags <==> IsSpike(bpm, prevBpm)
    ensures InCanonicalOrder(flags)
  {
    var delta := Delta(bpm, prevBpm);
    (if bpm < LowBpm then [Low] else [])
    + (if bpm > HighBpm then [High] else [])
    + (if delta.Some? && delta.value >= SpikeDelta then [Spike] else [])
  }

  /** The spike clause; the text between "(" and the number is the two characters the
      server's source file holds there. */
  function SpikeClause(delta: Option<nat>): string {
    if delta.None? then "Spike detected."
    else "Spike detected (\U{00CE}\U{201D}" + NatToString(delta.value) + " from previous BPM)."
  }

  /** The clause a flag contributes to the reason. */
  function Clause(f: Flag, delta: Option<nat>): string {
    match f
    case Low => LowReason
    case High => HighReason
    case Spike => SpikeClause(delta)
  }

  /** One clause per flag, in the order of the flags. */
  function Clauses(flags: seq<Flag>, delta: Option<nat>): (parts: seq<string>)
    ensures |parts| == |flags|
    ensures forall i :: 0 <= i < |flags| ==> parts[i] == Clause(flags[i], delta)
  {
    seq(|flags|, i requires 0 <= i < |flags| => Clause(flags[i], delta))
  }

  /** `reasonParts` tested flag by flag, joined with spaces, or the normal-range text. */
  function Reason(flags: seq<Flag>, delta: Option<nat>): string {
    var parts :=
      (if Low in flags then [LowReason] else [])
      + (if High in flags then [HighReason] else [])
      + (if Spike in flags then [SpikeClause(delta)] else []);
    if |parts| > 0 then Join(parts, " ") else NormalReason
  }

  function PrimaryStatus(flags: seq<Flag>): Status {
    if Spike in flags then Critical
    else if Low in flags || High in flags then Warning
    else Normal
  }

  /** `analyzeHeartRate({ bpm, prevBpm })`. */
  function AnalyzeHeartRate(bpm: int, prevBpm: Option<Num>): (a: Analysis)
    ensures Low in a.flags <==> bpm < LowBpm
    ensures High in a.flags <==> bpm > HighBpm
    ensures Spike in a.flags <==> IsSpike(bpm, prevBpm)
    ensures InCanonicalOrder(a.flags)
    ensures a.primaryStatus == PrimaryStatus(a.flags)
    ensures a.primaryStatus == Critical <==> IsSpike(bpm, prevBpm)
    ensures a.primaryStatus == Warning <==> !IsSpike(bpm, prevBpm) && (bpm < LowBpm || bpm > HighBpm)
    ensures a.primaryStatus == Normal <==> !IsSpike(bpm, prevBpm) && LowBpm <= bpm <= HighBpm
    ensures a.reason == NormalReason <==> a.flags == []
    ensures a.flags != [] ==> a.reason == Join(Clauses(a.flags, Delta(bpm, prevBpm)), " ")
  {
    var flags := Flags(bpm, prevBpm);
    var delta := Delta(bpm, prevBpm);
    ReasonIsJoinOfClauses(bpm, prevBpm);
    Analysis(flags, PrimaryStatus(flags), Reason(flags, delta))
  }

  /** The reason tests each flag separately; because the flags come in the order low,
      high, spike, this is the same as joining one clause per flag, and a non-empty
      clause list never produces the normal-range text. */
  lemma ReasonIsJoinOfClauses(bpm: int, prevBpm: Option<Num>)
    ensures Flags(bpm, prevBpm) == [] ==> Reason(Flags(bpm, prevBpm), Delta(bpm, prevBpm)) == NormalReason
    ensures Flags(bpm, prevBpm) != [] ==>
      Reason(Flags(bpm, prevBpm), Delta(bpm, prevBpm)) == Join(Clauses(Flags(bpm, prevBpm), Delta(bpm, prevBpm)), " ")
    ensures Flags(bpm, prevBpm) != [] ==> Reason(Flags(bpm, prevBpm), Delta(bpm, prevBpm)) != NormalReason
  {
    var flags := Flags(bpm, prevBpm);
    if flags != [] {
      var spike := IsSpike(bpm, prevBpm);
      if bpm < LowBpm {
        assert flags == if spike then [Low, Spike] else [Low];
      } else if bpm > HighBpm {
        assert flags == if spike then [High, Spike] else [High];
      } else {
        assert flags == [Spike];
      }
      ReasonOfFlags(flags, Delta(bpm, prevBpm));
    }
  }

  /** For each non-empty set of flags the classifier can raise, the reason is the join
      of their clauses and differs from the normal-range text. */
  lemma ReasonOfFlags(flags: seq<Flag>, delta: Option<nat>)
    requires flags in {[Low], [Low, Spike], [High], [High, Spike], [Spike]}
    ensures Reason(flags, delta) == Join(Clauses(flags, delta), " ")
    ensures Reason(flags, delta) != NormalReason
  {
    var parts := Clauses(flags, delta);
    if flags == [Low] {
      assert parts == [LowReason];
    } else if flags == [Low, Spike] {
      assert parts == [LowReason, SpikeClause(delta)];
    } else if flags == [High] {
      assert parts == [HighReason];
    } else if flags == [High, Spike] {
      assert parts == [HighReason, SpikeClause(delta)];
    } else {
      assert parts == [SpikeClause(delta)];
    }
    JoinStartsWithFirst(parts, " ");
    assert parts[0][0] == 'B' || parts[0][0] == 'S';
    assert NormalReason[0] == 'W';
  }

  /** The flags of each kind of reading, spelled out. */
  lemma FlagsOfReading(bpm: int, prevBpm: Option<Num>)
    ensures var flags := AnalyzeHeartRate(bpm, prevBpm).flags;
      && (!IsSpike(bpm, prevBpm) && bpm < LowBpm ==> flags == [Low])
      && (!IsSpike(bpm, prevBpm) && bpm > HighBpm ==> flags == [High])
      && (!IsSpike(bpm, prevBpm) && LowBpm <= bpm <= HighBpm ==> flags == [])
      && (IsSpike(bpm, prevBpm) && bpm < LowBpm ==> flags == [Low, Spike])
      && (IsSpike(bpm, prevBpm) && bpm > HighBpm ==> flags == [High, Spike])
      && (IsSpike(bpm, prevBpm) && LowBpm <= bpm <= HighBpm ==> flags == [Spike])
  {
  }

  /** low and high never occur together, and no flag occurs twice. */
  lemma LowAndHighExclusive(bpm: int, prevBpm: Option<Num>)
    ensures !(Low in AnalyzeHeartRate(bpm, prevBpm).flags && High in AnalyzeHeartRate(bpm, prevBpm).flags)
    ensures NoDuplicates(AnalyzeHeartRate(bpm, prevBpm).flags)
  {
  }

  /** The reason's `delta == null` alternative is dead: a spike is only flagged when the
      previous reading is finite, so the delta is always known and embedded. */
  lemma BareSpikeClauseUnreachable(bpm: int, prevBpm: Option<Num>)
    ensures Spike in AnalyzeHeartRate(bpm, prevBpm).flags ==> Delta(bpm, prevBpm).Some?
  {
  }

  /** Worked examples of the classifier. */
  lemma ClassifierExamples()
    ensures AnalyzeHeartRate(130, Some(Finite(90))).flags == [High, Spike]
    ensures AnalyzeHeartRate(130, Some(Finite(90))).primaryStatus == Critical
    ensures AnalyzeHeartRate(40, Some(NonFinite)).primaryStatus == Normal
    ensures AnalyzeHeartRate(120, Some(Finite(90))).primaryStatus == Critical
  {
  }

  /** A worked example of a reading in range with no previous reading. */
  lemma NormalReadingExample(bpm: int, prevBpm: Option<Num>)
    requires bpm == 70 && prevBpm == None
    ensures AnalyzeHeartRate(bpm, prevBpm) == Analysis([], Normal, NormalReason)
  {
    FlagsOfReading(bpm, prevBpm);
  }

  /** A worked example of a low reading close to the previous one. */
  lemma LowReadingExample(bpm: int, prevBpm: Option<Num>)
    requires bpm == 35 && prevBpm == Some(Finite(34))
    ensures AnalyzeHeartRate(bpm, prevBpm) == Analysis([Low], Warning, LowReason)
  {
    FlagsOfReading(bpm, prevBpm);
    assert Clauses([Low], Delta(bpm, prevBpm)) == [LowReason];
  }
}
