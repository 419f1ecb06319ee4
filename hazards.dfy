/**
 * The hazard inferencer of the Express server's image upload: it turns the labelling
 * service's detections into cleaned labels, hazard categories, a risk level and a
 * summary. The labelling service's answer is `None` when it failed or was not a list.
 */
module Hazards {
  import opened Wrappers
  import opened Text

  /** One detection; a missing label or score is `None`. */
  datatype Detection = Detection(name: Option<string>, score: Option<real>)

  const MinScore: real := 0.15
  const MaxLabels: nat := 7

  /** `p?.score ?? 0`. */
  function Score(d: Detection): real {
    if d.score.Some? then d.score.value else 0.0
  }

  // ---------------------------------------------------------------------------
  // Filtering, sorting, top seven

  /** The detections whose score exceeds 0.15, in their original order. */
  function Confident(ds: seq<Detection>): (r: seq<Detection>)
    ensures forall d :: d in r <==> d in ds && Score(d) > MinScore
    ensures |r| <= |ds|
  {
    if ds == [] then []
    else (if Score(ds[0]) > MinScore then [ds[0]] else []) + Confident(ds[1..])
  }

  /** The filter keeps every confident detection as many times as the input has it, and
      no other. */
  lemma {:induction false} ConfidentCounts(ds: seq<Detection>)
    ensures forall d :: multiset(Confident(ds))[d] == if Score(d) > MinScore then multiset(ds)[d] else 0
    decreases |ds|
  {
    if ds != [] {
      assert ds == [ds[0]] + ds[1..];
      ConfidentCounts(ds[1..]);
    }
  }

  /** The filter keeps order: the confident detections of a concatenation are those of
      its first part followed by those of its second. */
  lemma {:induction false} ConfidentKeepsOrder(a: seq<Detection>, b: seq<Detection>)
    ensures Confident(a + b) == Confident(a) + Confident(b)
    decreases |a|
  {
    if a == [] {
      assert a + b == b;
    } else {
      var t := a[1..];
      var head := if Score(a[0]) > MinScore then [a[0]] else [];
      calc {
        Confident(a + b);
        { assert a + b == [a[0]] + (t + b); ConfidentCons(a[0], t + b); }
        head + Confident(t + b);
        { ConfidentKeepsOrder(t, b); }
        head + (Confident(t) + Confident(b));
        { AppendAssociates(head, Confident(t), Confident(b)); }
        (head + Confident(t)) + Confident(b);
        { assert a == [a[0]] + t; ConfidentCons(a[0], t); }
        Confident(a) + Confident(b);
      }
    }
  }

  lemma AppendAssociates<T>(x: seq<T>, y: seq<T>, z: seq<T>)
    ensures x + (y + z) == (x + y) + z
  {
  }

  lemma ConfidentCons(x: Detection, t: seq<Detection>)
    ensures Confident([x] + t) == (if Score(x) > MinScore then [x] else []) + Confident(t)
  {
    assert ([x] + t)[1..] == t;
  }

  predicate SortedByScore(s: seq<Detection>) {
    forall i, j :: 0 <= i < j < |s| ==> Score(s[i]) >= Score(s[j])
  }

  /** Inserts `d` before the first element that does not score higher, so that among
      equal scores the element inserted later (earlier in the input) comes first. */
  function InsertByScore(d: Detection, s: seq<Detection>): (r: seq<Detection>)
    requires SortedByScore(s)
    ensures SortedByScore(r)
    ensures multiset(r) == multiset(s) + multiset{d}
    decreases |s|
  {
    if s == [] || Score(s[0]) <= Score(d) then [d] + s
    else
      var rest := InsertByScore(d, s[1..]);
      assert s == [s[0]] + s[1..];
      BoundedAfterInsert(s[0], d, s[1..], rest);
      [s[0]] + rest
  }

  /** An element scoring at least as high as everything in a sorted list, and as `d`,
      can head the list with `d` inserted. */
  lemma BoundedAfterInsert(head: Detection, d: Detection, tail: seq<Detection>, rest: seq<Detection>)
    requires SortedByScore(rest)
    requires multiset(rest) == multiset(tail) + multiset{d}
    requires Score(d) <= Score(head)
    requires forall x :: x in tail ==> Score(x) <= Score(head)
    ensures SortedByScore([head] + rest)
  {
    forall x | x in rest ensures Score(x) <= Score(head) {
      assert x in multiset(rest);
      if x != d {
        assert x in multiset(tail);
      }
    }
    var r := [head] + rest;
    forall i, j | 0 <= i < j < |r| ensures Score(r[i]) >= Score(r[j]) {
      if i == 0 {
        assert r[j] == rest[j - 1];
        assert rest[j - 1] in rest;
      } else {
        assert r[i] == rest[i - 1] && r[j] == rest[j - 1];
      }
    }
  }

  /** The comparator sort `(a, b) => score(b) - score(a)`: a stable descending sort. */
  function SortByScore(ds: seq<Detection>): (r: seq<Detection>)
    ensures SortedByScore(r)
    ensures multiset(r) == multiset(ds)
  {
    if ds == [] then []
    else
      assert ds == [ds[0]] + ds[1..];
      InsertByScore(ds[0], SortByScore(ds[1..]))
  }

  /** `.filter(score > 0.15).sort(descending).slice(0, 7)`: the at most seven confident
      detections with the highest scores; every confident detection left out scores no
      higher than any that was kept. */
  function TopDetections(ds: seq<Detection>): (top: seq<Detection>)
    ensures |top| == Min(MaxLabels, |Confident(ds)|)
    ensures SortedByScore(top)
    ensures forall d :: d in top ==> Score(d) > MinScore
    ensures multiset(top) <= multiset(Confident(ds))
    ensures forall y :: y in multiset(Confident(ds)) - multiset(top) ==>
              forall x :: x in top ==> Score(y) <= Score(x)
  {
    var sorted := SortByScore(Confident(ds));
    var n := Min(MaxLabels, |sorted|);
    PrefixOfSorted(sorted, n);
    forall d | d in sorted[..n] ensures Score(d) > MinScore {
      assert d in multiset(sorted);
    }
    sorted[..n]
  }

  /** The first `n` elements of a sorted list are sorted and score at least as high as
      every element left out. */
  lemma PrefixOfSorted(sorted: seq<Detection>, n: nat)
    requires SortedByScore(sorted) && n <= |sorted|
    ensures SortedByScore(sorted[..n])
    ensures multiset(sorted[..n]) <= multiset(sorted)
    ensures forall y :: y in multiset(sorted) - multiset(sorted[..n]) ==>
              forall x :: x in sorted[..n] ==> Score(y) <= Score(x)
  {
    var top, rest := sorted[..n], sorted[n..];
    assert sorted == top + rest;
    assert multiset(sorted) == multiset(top) + multiset(rest);
    PrefixAboveSuffix(sorted, n);
    forall y | y in multiset(sorted) - multiset(top) ensures y in rest {
      assert y in multiset(rest);
    }
  }

  /** In a sorted list, everything before position `n` scores at least as high as
      everything from `n` on. */
  lemma PrefixAboveSuffix(sorted: seq<Detection>, n: nat)
    requires SortedByScore(sorted) && n <= |sorted|
    ensures forall x, y :: x in sorted[..n] && y in sorted[n..] ==> Score(y) <= Score(x)
  {
    forall x, y | x in sorted[..n] && y in sorted[n..] ensures Score(y) <= Score(x) {
      var i :| 0 <= i < n && sorted[..n][i] == x;
      var j :| 0 <= j < |sorted| - n && sorted[n..][j] == y;
      assert sorted[i] == x && sorted[n + j] == y;
    }
  }

  // ---------------------------------------------------------------------------
  // Labels

  /** `String(raw || '').toLowerCase()`. */
  function LowerLabel(raw: Option<string>): string {
    ToLower(if raw.Some? then raw.value else "")
  }

  /** `normalizeLabel`: labels mentioning a cat, tissue/paper or plunger/plumber become
      that canonical word, checked in that order; others stay lower-cased. */
  function NormalizeLabel(raw: Option<string>): (r: string)
    ensures r == "" <==> LowerLabel(raw) == ""
    ensures r == "cat" <==> Contains(LowerLabel(raw), "cat")
    ensures r == "tissue" <==>
      !Contains(LowerLabel(raw), "cat")
      && (Contains(LowerLabel(raw), "tissue") || Contains(LowerLabel(raw), "paper"))
    ensures r == "plunger" <==>
      !Contains(LowerLabel(raw), "cat")
      && !Contains(LowerLabel(raw), "tissue") && !Contains(LowerLabel(raw), "paper")
      && (Contains(LowerLabel(raw), "plunger") || Contains(LowerLabel(raw), "plumber"))
    ensures r !in {"cat", "tissue", "plunger"} ==> r == LowerLabel(raw)
  {
    var lower := LowerLabel(raw);
    if lower == "" then ""
    else if Contains(lower, "cat") then "cat"
    else if Contains(lower, "tissue") || Contains(lower, "paper") then "tissue"
    else if Contains(lower, "plunger") || Contains(lower, "plumber") then "plunger"
    else lower
  }

  /** `.filter(Boolean)` on strings. */
  function NonEmpty(ls: seq<string>): (r: seq<string>)
    ensures forall l :: l in r <==> l in ls && l != ""
    ensures forall l :: multiset(r)[l] == if l != "" then multiset(ls)[l] else 0
    ensures |r| <= |ls|
  {
    if ls == [] then []
    else
      assert ls == [ls[0]] + ls[1..];
      (if ls[0] != "" then [ls[0]] else []) + NonEmpty(ls[1..])
  }

  /** The filter keeps order: the non-empty labels of a concatenation are those of its
      first part followed by those of its second. */
  lemma {:induction false} NonEmptyKeepsOrder(a: seq<string>, b: seq<string>)
    ensures NonEmpty(a + b) == NonEmpty(a) + NonEmpty(b)
    decreases |a|
  {
    if a == [] {
      assert a + b == b;
    } else {
      var head := if a[0] != "" then [a[0]] else [];
      assert (a + b)[0] == a[0] && (a + b)[1..] == a[1..] + b;
      assert NonEmpty(a + b) == head + NonEmpty(a[1..] + b);
      NonEmptyKeepsOrder(a[1..], b);
    }
  }

  /** Dropping empty labels keeps the order of first occurrences. */
  lemma {:induction false} NonEmptyKeepsFirstOrder(ls: seq<string>, x: string, y: string)
    requires x in NonEmpty(ls) && y in NonEmpty(ls)
    requires FirstIndex(NonEmpty(ls), x) < FirstIndex(NonEmpty(ls), y)
    ensures FirstIndex(ls, x) < FirstIndex(ls, y)
    decreases |ls|
  {
    var n := NonEmpty(ls);
    if ls[0] == "" {
      assert n == NonEmpty(ls[1..]);
      NonEmptyKeepsFirstOrder(ls[1..], x, y);
    } else if x != ls[0] {
      assert n == [ls[0]] + NonEmpty(ls[1..]);
      assert n[1..] == NonEmpty(ls[1..]);
      NonEmptyKeepsFirstOrder(ls[1..], x, y);
    }
  }

  /** Index of the first occurrence. */
  function FirstIndex(xs: seq<string>, x: string): (i: nat)
    requires x in xs
    ensures i < |xs| && xs[i] == x
    ensures forall j :: 0 <= j < i ==> xs[j] != x
  {
    if xs[0] == x then 0 else 1 + FirstIndex(xs[1..], x)
  }

  /** `Array.from(new Set(xs))`: duplicates removed, keeping first occurrences in order. */
  function Dedup(xs: seq<string>): (r: seq<string>)
    ensures NoDuplicates(r)
    ensures forall x :: x in r <==> x in xs
    ensures |r| <= |xs|
    ensures forall i, j :: 0 <= i < j < |r| ==> FirstIndex(xs, r[i]) < FirstIndex(xs, r[j])
  {
    if xs == [] then []
    else
      var prefix := xs[..|xs| - 1];
      var d := Dedup(prefix);
      var x := xs[|xs| - 1];
      assert xs == prefix + [x];
      FirstIndexInPrefix(xs, |xs| - 1);
      if x in d then d
      else
        assert FirstIndex(xs, x) == |xs| - 1;
        d + [x]
  }

  /** A first occurrence inside a prefix is the first occurrence in the whole. */
  lemma FirstIndexInPrefix(xs: seq<string>, n: nat)
    requires n <= |xs|
    ensures forall x :: x in xs[..n] ==> FirstIndex(xs, x) == FirstIndex(xs[..n], x)
    ensures forall x :: x in xs && x !in xs[..n] ==> FirstIndex(xs, x) >= n
  {
    forall x | x in xs[..n] ensures FirstIndex(xs, x) == FirstIndex(xs[..n], x) {
      var i, k := FirstIndex(xs, x), FirstIndex(xs[..n], x);
      assert xs[k] == x;
      assert i <= k;
      assert xs[..n][i] == x;
    }
    forall x | x in xs && x !in xs[..n] ensures FirstIndex(xs, x) >= n {
      forall j | 0 <= j < n ensures xs[j] != x {
        assert xs[j] == xs[..n][j];
      }
    }
  }

  /** The cleaned labels of the upload handler: normalised labels of the top detections,
      empty ones dropped, duplicates removed. */
  function CleanedLabels(ds: seq<Detection>): (labels: seq<string>)
    ensures |labels| <= MaxLabels
    ensures NoDuplicates(labels)
    ensures "" !in labels
    ensures forall l :: l in labels <==> l != "" && l in LabelsOf(TopDetections(ds))
    ensures forall i, j :: 0 <= i < j < |labels| ==>
      FirstIndex(LabelsOf(TopDetections(ds)), labels[i]) < FirstIndex(LabelsOf(TopDetections(ds)), labels[j])
  {
    var top := TopDetections(ds);
    CleanedLabelsOfTop(top);
    Dedup(NonEmpty(LabelsOf(top)))
  }

  /** The cleaned labels of any list of detections, in terms of that list. */
  lemma CleanedLabelsOfTop(top: seq<Detection>)
    ensures var labels := Dedup(NonEmpty(LabelsOf(top)));
      && |labels| <= |top| && NoDuplicates(labels) && "" !in labels
      && (forall l :: l in labels <==> l != "" && l in LabelsOf(top))
      && (forall i, j :: 0 <= i < j < |labels| ==>
            FirstIndex(LabelsOf(top), labels[i]) < FirstIndex(LabelsOf(top), labels[j]))
  {
    DedupOfNonEmptyOrder(LabelsOf(top));
  }

  /** The labels left after dropping empty ones and duplicates follow the order of their
      first occurrences in the original list. */
  lemma DedupOfNonEmptyOrder(names: seq<string>)
    ensures forall i, j :: 0 <= i < j < |Dedup(NonEmpty(names))| ==>
      FirstIndex(names, Dedup(NonEmpty(names))[i]) < FirstIndex(names, Dedup(NonEmpty(names))[j])
  {
    var labels := Dedup(NonEmpty(names));
    forall i, j | 0 <= i < j < |labels|
      ensures FirstIndex(names, labels[i]) < FirstIndex(names, labels[j])
    {
      NonEmptyKeepsFirstOrder(names, labels[i], labels[j]);
    }
  }

  /** `.map((p) => normalizeLabel(p?.label))`. */
  function LabelsOf(top: seq<Detection>): (names: seq<string>)
    ensures |names| == |top|
    ensures forall i :: 0 <= i < |top| ==> names[i] == NormalizeLabel(top[i].name)
    ensures forall l :: l in names <==> exists d :: d in top && NormalizeLabel(d.name) == l
  {
    var names := seq(|top|, i requires 0 <= i < |top| => NormalizeLabel(top[i].name));
    MappedLabels(top, names);
    names
  }

  /** A list holding the label of each detection holds exactly the labels of the list. */
  lemma MappedLabels(top: seq<Detection>, names: seq<string>)
    requires |names| == |top|
    requires forall i :: 0 <= i < |top| ==> names[i] == NormalizeLabel(top[i].name)
    ensures forall l :: l in names <==> exists d :: d in top && NormalizeLabel(d.name) == l
  {
    forall l ensures l in names <==> exists d :: d in top && NormalizeLabel(d.name) == l {
      if l in names {
        var i :| 0 <= i < |names| && names[i] == l;
        assert top[i] in top;
      }
      if exists d :: d in top && NormalizeLabel(d.name) == l {
        var d :| d in top && NormalizeLabel(d.name) == l;
        var i :| 0 <= i < |top| && top[i] == d;
        assert names[i] == l;
      }
    }
  }

  // ---------------------------------------------------------------------------
  // Hazard categories

  datatype Category = Sharp | Fire | Fall | Trip | Breakable

  /** The categories in the order of the keyword table. */
  const Categories: seq<Category> := [Sharp, Fire, Fall, Trip, Breakable]

  function CategoryName(c: Category): string {
    match c
    case Sharp => "sharp"
    case Fire => "fire"
    case Fall => "fall"
    case Trip => "trip"
    case Breakable => "breakable"
  }

  function Keywords(c: Category): seq<string> {
    match c
    case Sharp => ["knife", "scissors"]
    case Fire => ["fire", "flame", "smoke"]
    case Fall => ["stairs", "ladder"]
    case Trip => ["cable", "wire"]
    case Breakable => ["glass", "bottle"]
  }

  /** `keywords.some((k) => lower.includes(k))`. */
  predicate Triggers(name: string, c: Category) {
    exists k :: k in Keywords(c) && Contains(ToLower(name), k)
  }

  /** The hazard set after offering `cats`, in order, for one label: a category is added
      the first time a label triggers it. */
  function AddTriggered(acc: seq<Category>, name: string, cats: seq<Category>): seq<Category>
    decreases |cats|
  {
    if cats == [] then acc
    else
      var before := AddTriggered(acc, name, cats[..|cats| - 1]);
      var c := cats[|cats| - 1];
      if Triggers(name, c) && c !in before then before + [c] else before
  }

  /** `Array.from(hazardSet)` after the nested loops: categories in order of first trigger. */
  function HazardsOf(labels: seq<string>): seq<Category>
    decreases |labels|
  {
    if labels == [] then []
    else AddTriggered(HazardsOf(labels[..|labels| - 1]), labels[|labels| - 1], Categories)
  }

  lemma {:induction false} AddTriggeredSpec(acc: seq<Category>, name: string, cats: seq<Category>)
    requires NoDuplicates(acc)
    ensures NoDuplicates(AddTriggered(acc, name, cats))
    ensures forall c :: c in AddTriggered(acc, name, cats) <==> c in acc || (c in cats && Triggers(name, c))
    decreases |cats|
  {
    if cats != [] {
      var init := cats[..|cats| - 1];
      AddTriggeredSpec(acc, name, init);
      assert cats == init + [cats[|cats| - 1]];
    }
  }

  /** A category is a hazard iff some cleaned label contains one of its keywords; no
      category is listed twice. */
  lemma {:induction false} HazardsOfSpec(labels: seq<string>)
    ensures NoDuplicates(HazardsOf(labels))
    ensures forall c :: c in HazardsOf(labels) <==> exists l :: l in labels && Triggers(l, c)
    decreases |labels|
  {
    if labels != [] {
      var init := labels[..|labels| - 1];
      var last := labels[|labels| - 1];
      HazardsOfSpec(init);
      AddTriggeredSpec(HazardsOf(init), last, Categories);
      assert labels == init + [last];
      AllCategoriesListed();
    }
  }

  lemma AllCategoriesListed()
    ensures forall c :: c in Categories
  {
    forall c: Category ensures c in Categories {
      match c
      case Sharp => assert Categories[0] == c;
      case Fire => assert Categories[1] == c;
      case Fall => assert Categories[2] == c;
      case Trip => assert Categories[3] == c;
      case Breakable => assert Categories[4] == c;
    }
  }

  /** The nested `for` loops filling `hazardSet`. */
  method CollectHazards(labels: seq<string>) returns (hazards: seq<Category>)
    ensures hazards == HazardsOf(labels)
    ensures NoDuplicates(hazards)
    ensures forall c :: c in hazards <==> exists l :: l in labels && Triggers(l, c)
  {
    hazards := [];
    var i := 0;
    while i < |labels|
      invariant 0 <= i <= |labels|
      invariant hazards == HazardsOf(labels[..i])
    {
      var name := labels[i];
      var lower := ToLower(name);
      ghost var before := hazards;
      var j := 0;
      while j < |Categories|
        invariant 0 <= j <= |Categories|
        invariant hazards == AddTriggered(before, name, Categories[..j])
      {
        var category := Categories[j];
        var keywords := Keywords(category);
        if exists k :: k in keywords && Contains(lower, k) {
          if category !in hazards {
            hazards := hazards + [category];
          }
        }
        assert Categories[..j + 1][..j] == Categories[..j];
        j := j + 1;
      }
      assert Categories[..|Categories|] == Categories;
      assert labels[..i + 1][..i] == labels[..i];
      i := i + 1;
    }
    assert labels[..|labels|] == labels;
    HazardsOfSpec(labels);
  }

  // ---------------------------------------------------------------------------
  // Risk level and result

  datatype RiskLevel = UnknownRisk | LowRisk | MediumRisk | HighRisk

  function RiskName(r: RiskLevel): string {
    match r
    case UnknownRisk => "unknown"
    case LowRisk => "low"
    case MediumRisk => "medium"
    case HighRisk => "high"
  }

  datatype EnvironmentResult = EnvironmentResult(lighting: string, hazards: seq<Category>, summary: string, riskLevel: RiskLevel)

  /** The fixed result when the labelling service failed or did not answer with a list. */
  const Unanalysed: EnvironmentResult := EnvironmentResult("unknown", [], "AI failed to analyze image.", UnknownRisk)

  function RiskOf(hazards: seq<Category>): RiskLevel {
    if Fire in hazards || Sharp in hazards then HighRisk
    else if |hazards| > 0 then MediumRisk
    else LowRisk
  }

  function SummaryText(labels: seq<string>): string {
    "Detected objects: " + Join(labels, ", ")
  }

  /** The `result` of the upload handler for a labelling answer. */
  function EnvironmentOf(answer: Option<seq<Detection>>): (result: EnvironmentResult)
    ensures answer.None? ==> result == Unanalysed
    ensures answer.Some? ==>
      var labels := CleanedLabels(answer.value);
      && result.lighting == "unknown"
      && result.summary == "Detected objects: " + Join(labels, ", ")
      && NoDuplicates(result.hazards)
      && (forall c :: c in result.hazards <==> exists l :: l in labels && Triggers(l, c))
      && (result.riskLevel == HighRisk <==> exists l :: l in labels && (Triggers(l, Fire) || Triggers(l, Sharp)))
      && (result.riskLevel == MediumRisk <==> result.hazards != [] && Fire !in result.hazards && Sharp !in result.hazards)
      && (result.riskLevel == LowRisk <==> forall l, c :: l in labels ==> !Triggers(l, c))
  {
    match answer
    case None => Unanalysed
    case Some(ds) =>
      var labels := CleanedLabels(ds);
      var hazards := HazardsOf(labels);
      RiskOfHazards(labels);
      EnvironmentResult("unknown", hazards, SummaryText(labels), RiskOf(hazards))
  }

  /** The risk level read off the labels: high iff some label is a fire or sharp hazard,
      low iff no label is a hazard at all. */
  lemma RiskOfHazards(labels: seq<string>)
    ensures NoDuplicates(HazardsOf(labels))
    ensures forall c :: c in HazardsOf(labels) <==> exists l :: l in labels && Triggers(l, c)
    ensures RiskOf(HazardsOf(labels)) == HighRisk <==> exists l :: l in labels && (Triggers(l, Fire) || Triggers(l, Sharp))
    ensures RiskOf(HazardsOf(labels)) == LowRisk <==> forall l, c :: l in labels ==> !Triggers(l, c)
  {
    var hazards := HazardsOf(labels);
    HazardsOfSpec(labels);
    if hazards == [] {
      forall l, c | l in labels ensures !Triggers(l, c) {
        assert c !in hazards;
      }
    } else {
      var c := hazards[0];
      assert c in hazards;
      var l :| l in labels && Triggers(l, c);
    }
  }

  /** The upload handler's inference step: the hazard loop, then `riskLevel` reassigned
      from its `'low'` default. */
  method InferEnvironment(answer: Option<seq<Detection>>) returns (result: EnvironmentResult)
    ensures result == EnvironmentOf(answer)
  {
    if answer.None? {
      return Unanalysed;
    }
    var labels := CleanedLabels(answer.value);
    var hazards := CollectHazards(labels);
    var riskLevel := LowRisk;
    if Fire in hazards || Sharp in hazards {
      riskLevel := HighRisk;
    } else if |hazards| > 0 {
      riskLevel := MediumRisk;
    }
    result := EnvironmentResult("unknown", hazards, SummaryText(labels), riskLevel);
  }

  /** The canonical words `normalizeLabel` produces (cat, tissue, plunger) trigger no
      hazard category. */
  lemma CanonicalLabelsHarmless(raw: Option<string>, c: Category)
    requires NormalizeLabel(raw) in {"cat", "tissue", "plunger"}
    ensures !Triggers(NormalizeLabel(raw), c)
  {
    var name := NormalizeLabel(raw);
    LowerCaseUnchanged(name);
    if name == "cat" {
      CatHarmless(name, c);
    } else if name == "tissue" {
      TissueHarmless(name, c);
    } else {
      PlungerHarmless(name, c);
    }
  }

  /** `ToLower` leaves a word of lower-case letters as it is. */
  lemma LowerCaseUnchanged(s: string)
    requires forall i :: 0 <= i < |s| ==> 'a' <= s[i] <= 'z'
    ensures ToLower(s) == s
  {
  }

  lemma CatHarmless(name: string, c: Category)
    requires ToLower(name) == "cat"
    ensures !Triggers(name, c)
  {
    match c {
      case Sharp => NotTriggered(name, c, [0, 0]);
      case Fire => NotTriggered(name, c, [0, 0, 0]);
      case Fall => NotTriggered(name, c, [0, 0]);
      case Trip => NotTriggered(name, c, [2, 0]);
      case Breakable => NotTriggered(name, c, [0, 0]);
    }
  }

  lemma TissueHarmless(name: string, c: Category)
    requires ToLower(name) == "tissue"
    ensures !Triggers(name, c)
  {
    match c {
      case Sharp => NotTriggered(name, c, [0, 1]);
      case Fire => NotTriggered(name, c, [0, 0, 1]);
      case Fall => NotTriggered(name, c, [2, 0]);
      case Trip => NotTriggered(name, c, [0, 0]);
      case Breakable => NotTriggered(name, c, [0, 0]);
    }
  }

  lemma PlungerHarmless(name: string, c: Category)
    requires ToLower(name) == "plunger"
    ensures !Triggers(name, c)
  {
    match c {
      case Sharp => NotTriggered(name, c, [0, 0]);
      case Fire => NotTriggered(name, c, [0, 0, 0]);
      case Fall => NotTriggered(name, c, [0, 1]);
      case Trip => NotTriggered(name, c, [0, 0]);
      case Breakable => NotTriggered(name, c, [2, 0]);
    }
  }

  /** Worked example: a confident kitchen knife is the only label, a sharp hazard, and
      makes the risk high; a cat seen with score 0.05 is dropped before labelling. */
  lemma KitchenKnifeExample(ds: seq<Detection>)
    requires ds == [Detection(Some("Kitchen Knife"), Some(0.9)), Detection(Some("cat"), Some(0.05))]
    ensures CleanedLabels(ds) == ["kitchen knife"]
    ensures HazardsOf(CleanedLabels(ds)) == [Sharp]
    ensures RiskOf(HazardsOf(CleanedLabels(ds))) == HighRisk
    ensures SummaryText(CleanedLabels(ds)) == "Detected objects: kitchen knife"
    ensures EnvironmentOf(Some(ds)) == EnvironmentResult("unknown", [Sharp], "Detected objects: kitchen knife", HighRisk)
  {
    KnifeIsTheOnlyLabel(ds);
    var labels := CleanedLabels(ds);
    KnifeLabelOutcome(labels);
    ResultOfLabels(ds, labels, HazardsOf(labels), SummaryText(labels));
  }

  lemma KnifeLabelOutcome(labels: seq<string>)
    requires labels == ["kitchen knife"]
    ensures HazardsOf(labels) == [Sharp]
    ensures RiskOf(HazardsOf(labels)) == HighRisk
    ensures SummaryText(labels) == "Detected objects: kitchen knife"
  {
    KnifeIsOnlySharp();
  }

  /** The result for a labelling answer is assembled from its cleaned labels, their
      hazards and the risk those hazards carry. */
  lemma ResultOfLabels(ds: seq<Detection>, labels: seq<string>, hazards: seq<Category>, summary: string)
    requires CleanedLabels(ds) == labels && HazardsOf(labels) == hazards && SummaryText(labels) == summary
    ensures EnvironmentOf(Some(ds)) == EnvironmentResult("unknown", hazards, summary, RiskOf(hazards))
  {
  }

  lemma KnifeIsTheOnlyLabel(ds: seq<Detection>)
    requires ds == [Detection(Some("Kitchen Knife"), Some(0.9)), Detection(Some("cat"), Some(0.05))]
    ensures CleanedLabels(ds) == ["kitchen knife"]
  {
    assert Confident(ds[1..]) == [];
    assert Confident(ds) == [ds[0]];
    KitchenKnifeLabel(ds[0].name);
    SingleConfidentLabel(ds, ds[0]);
  }

  /** A single confident detection gives its own label alone. */
  lemma SingleConfidentLabel(ds: seq<Detection>, d: Detection)
    requires Confident(ds) == [d] && NormalizeLabel(d.name) != ""
    ensures CleanedLabels(ds) == [NormalizeLabel(d.name)]
  {
    var top := TopDetections(ds);
    assert multiset(top) <= multiset([d]) && |top| == 1;
    assert top[0] in multiset(top);
    assert top == [d];
    var l := NormalizeLabel(d.name);
    assert LabelsOf(top) == [l];
    assert NonEmpty([l]) == [l];
    assert Dedup([l]) == [l] by {
      assert [l][..0] == [];
    }
  }

  lemma KitchenKnifeLabel(raw: Option<string>)
    requires raw == Some("Kitchen Knife")
    ensures NormalizeLabel(raw) == "kitchen knife"
  {
    KitchenKnifeRawLower(raw);
    var lower := LowerLabel(raw);
    assert 'a' !in lower && 's' !in lower && 'p' !in lower;
    NoCannedWord(lower);
    UncannedLabelKept(raw);
  }

  lemma KitchenKnifeRawLower(raw: Option<string>)
    requires raw == Some("Kitchen Knife")
    ensures LowerLabel(raw) == "kitchen knife"
  {
    assert LowerChar('K') == 'k';
    assert forall i :: 0 <= i < |raw.value| ==> ToLower(raw.value)[i] == "kitchen knife"[i];
  }

  /** A label without the letters a, s and p contains none of the canned words. */
  lemma NoCannedWord(lower: string)
    requires 'a' !in lower && 's' !in lower && 'p' !in lower
    ensures !Contains(lower, "cat") && !Contains(lower, "tissue") && !Contains(lower, "paper")
    ensures !Contains(lower, "plunger") && !Contains(lower, "plumber")
  {
    MissingCharNotContained(lower, "cat", 1);
    MissingCharNotContained(lower, "tissue", 2);
    MissingCharNotContained(lower, "paper", 0);
    MissingCharNotContained(lower, "plunger", 0);
    MissingCharNotContained(lower, "plumber", 0);
  }

  lemma UncannedLabelKept(raw: Option<string>)
    requires !Contains(LowerLabel(raw), "cat") && !Contains(LowerLabel(raw), "tissue") && !Contains(LowerLabel(raw), "paper")
    requires !Contains(LowerLabel(raw), "plunger") && !Contains(LowerLabel(raw), "plumber")
    ensures NormalizeLabel(raw) == LowerLabel(raw)
  {
  }

  lemma KnifeIsOnlySharp()
    ensures HazardsOf(["kitchen knife"]) == [Sharp]
  {
    var name := "kitchen knife";
    assert [name][..0] == [];
    KnifeTriggers();
    assert Categories[..1][..0] == [];
    assert AddTriggered([], name, Categories[..1]) == [Sharp];
    assert Categories[..2][..1] == Categories[..1];
    assert AddTriggered([], name, Categories[..2]) == [Sharp];
    assert Categories[..3][..2] == Categories[..2];
    assert AddTriggered([], name, Categories[..3]) == [Sharp];
    assert Categories[..4][..3] == Categories[..3];
    assert AddTriggered([], name, Categories[..4]) == [Sharp];
    assert Categories[..4] == Categories[..|Categories| - 1];
  }

  /** `ToLower` leaves the lower-case label as it is. */
  lemma KitchenKnifeLower(name: string)
    requires name == "kitchen knife"
    ensures ToLower(name) == name
  {
    assert forall i :: 0 <= i < |name| ==> ToLower(name)[i] == name[i];
  }

  /** A category none of whose keywords can occur in the label, each because it has a
      character the label lacks, is not triggered. */
  lemma NotTriggered(name: string, c: Category, missing: seq<nat>)
    requires |missing| == |Keywords(c)|
    requires forall i :: 0 <= i < |missing| ==>
      missing[i] < |Keywords(c)[i]| && Keywords(c)[i][missing[i]] !in ToLower(name)
    ensures !Triggers(name, c)
  {
    forall k | k in Keywords(c) ensures !Contains(ToLower(name), k) {
      var i :| 0 <= i < |Keywords(c)| && Keywords(c)[i] == k;
      MissingCharNotContained(ToLower(name), k, missing[i]);
    }
  }

  lemma KnifeTriggers()
    ensures Triggers("kitchen knife", Sharp)
    ensures !Triggers("kitchen knife", Fire) && !Triggers("kitchen knife", Fall)
    ensures !Triggers("kitchen knife", Trip) && !Triggers("kitchen knife", Breakable)
  {
    var name := "kitchen knife";
    KitchenKnifeLower(name);
    KnifeIsSharp(name);
    KnifeIsNotFire(name);
    KnifeIsNotFall(name);
    KnifeIsNotTrip(name);
    KnifeIsNotBreakable(name);
  }

  lemma KnifeIsSharp(name: string)
    requires ToLower(name) == "kitchen knife"
    ensures Triggers(name, Sharp)
  {
    ContainsAt(ToLower(name), "knife", 8);
    assert "knife" in Keywords(Sharp);
  }

  lemma KnifeIsNotFire(name: string)
    requires ToLower(name) == "kitchen knife"
    ensures !Triggers(name, Fire)
  {
    NotTriggered(name, Fire, [2, 1, 0]);
  }

  lemma KnifeIsNotFall(name: string)
    requires ToLower(name) == "kitchen knife"
    ensures !Triggers(name, Fall)
  {
    NotTriggered(name, Fall, [0, 0]);
  }

  lemma KnifeIsNotTrip(name: string)
    requires ToLower(name) == "kitchen knife"
    ensures !Triggers(name, Trip)
  {
    NotTriggered(name, Trip, [1, 0]);
  }

  lemma KnifeIsNotBreakable(name: string)
    requires ToLower(name) == "kitchen knife"
    ensures !Triggers(name, Breakable)
  {
    NotTriggered(name, Breakable, [1, 0]);
  }
}
