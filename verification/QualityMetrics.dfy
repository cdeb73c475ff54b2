/** Precision and recall over generated confusion records: the generator's nested loops, the metrics
    of a record list, its slices, and the threshold gates. Rates are exact reals. */
module QualityMetrics {
  import opened Basics
  import opened GeneratedRuns

  datatype Class = TruePositive | FalsePositive | FalseNegative | TrueNegative | Abstain | Unsupported | NeedsReview

  datatype Record = Record(index: nat, klass: Class) {
    /** The first 201 records are the critical ones. */
    predicate Critical() { index <= 201 }
  }

  /** The counts a manifest asks for; Python's `range` of a negative count is empty. */
  datatype Manifest = Manifest(tp: int, fp: int, fn: int, tn: int, abstain: int, unsupported: int, needsReview: int) {
    function Asked(klass: Class): nat {
      Max(0, match klass
        case TruePositive => tp
        case FalsePositive => fp
        case FalseNegative => fn
        case TrueNegative => tn
        case Abstain => abstain
        case Unsupported => unsupported
        case NeedsReview => needsReview)
    }
  }

  // ----- the generator -----------------------------------------------------------------------

  const ORDER: seq<Class> :=
    [TruePositive, FalsePositive, FalseNegative, TrueNegative, Abstain, Unsupported, NeedsReview]

  /** Records are numbered from 1. */
  function Numbered(classes: seq<Class>): seq<Record> {
    seq(|classes|, i requires 0 <= i < |classes| => Record(i + 1, classes[i]))
  }

  function Generated(m: Manifest): seq<Record> { Numbered(Runs(m.Asked, ORDER)) }

  method GenerateRecords(m: Manifest) returns (records: seq<Record>)
    ensures records == Generated(m)
  {
    records := [];
    var index := 1;
    for s := 0 to |ORDER|
      invariant records == Numbered(Runs(m.Asked, ORDER[..s])) && index == |records| + 1
    {
      var klass := ORDER[s];
      ghost var before := Runs(m.Asked, ORDER[..s]);
      for j := 0 to m.Asked(klass)
        invariant records == Numbered(before + Repeat(klass, j)) && index == |records| + 1
      {
        records := records + [Record(index, klass)];
        index := index + 1;
      }
      assert ORDER[..s + 1][..s] == ORDER[..s];
    }
    assert ORDER[..|ORDER|] == ORDER;
  }

  function Count(records: seq<Record>, klass: Class): nat {
    if records == [] then 0
    else Count(records[..|records| - 1], klass) + if records[|records| - 1].klass == klass then 1 else 0
  }

  lemma {:induction false} CountNumbered(classes: seq<Class>, klass: Class)
    ensures Count(Numbered(classes), klass) == multiset(classes)[klass]
  {
    if classes != [] {
      var front := classes[..|classes| - 1];
      CountNumbered(front, klass);
      assert classes == front + [classes[|classes| - 1]];
      assert Numbered(classes)[..|front|] == Numbered(front);
    }
  }

  /** Every class comes out exactly as often as asked, and the records are numbered 1, 2, 3, ... */
  lemma GeneratedCounts(m: Manifest)
    ensures forall k: Class :: Count(Generated(m), k) == m.Asked(k)
    ensures forall i :: 0 <= i < |Generated(m)| ==> Generated(m)[i].index == i + 1
  {
    forall k: Class ensures Count(Generated(m), k) == m.Asked(k) {
      CountNumbered(Runs(m.Asked, ORDER), k);
      RunsMultiplicity(m.Asked, ORDER, k);
      assert k in ORDER by {
        assert ORDER[0] == TruePositive && ORDER[1] == FalsePositive && ORDER[2] == FalseNegative;
        assert ORDER[3] == TrueNegative && ORDER[4] == Abstain && ORDER[5] == Unsupported && ORDER[6] == NeedsReview;
      }
    }
  }

  // ----- metrics of a record list ------------------------------------------------------------

  /** The metric of a slice: the counts, and the rates the record stores beside them. */
  datatype Metric = Metric(tp: nat, fp: nat, fn: nat, tn: nat, abstain: nat, unsupported: nat, needsReview: nat) {
    function Total(): nat { Max(1, tp + fp + fn + tn + abstain + unsupported + needsReview) }
    function Precision(): real { SafeRate(tp as real, (tp + fp) as real) }
    function Recall(): real { SafeRate(tp as real, (tp + fn) as real) }
    function F1(): real { SafeRate(2.0 * Precision() * Recall(), Precision() + Recall()) }
    function FalsePositiveRate(): real { SafeRate(fp as real, (fp + tn) as real) }
    function FalseNegativeRate(): real { SafeRate(fn as real, (fn + tp) as real) }
    function AbstentionRate(): real { abstain as real / Total() as real }
    function UnsupportedRate(): real { unsupported as real / Total() as real }
    function NeedsReviewRate(): real { needsReview as real / Total() as real }
  }

  function SafeRate(numerator: real, denominator: real): real {
    if denominator == 0.0 then 0.0 else numerator / denominator
  }

  function MetricFor(records: seq<Record>): Metric {
    Metric(
      Count(records, TruePositive), Count(records, FalsePositive), Count(records, FalseNegative),
      Count(records, TrueNegative), Count(records, Abstain), Count(records, Unsupported), Count(records, NeedsReview))
  }

  lemma QuotientUnique(x: real, d: real, n: real)
    requires d != 0.0 && x * d == n
    ensures n / d == x
  {}

  lemma TimesBack(n: real, d: real)
    requires d != 0.0
    ensures n / d * d == n
  {}

  lemma PositiveQuotient(n: real, d: real)
    requires n > 0.0 && d > 0.0
    ensures n / d > 0.0
  {}

  lemma RateBounds(n: nat, rest: nat)
    ensures 0.0 <= SafeRate(n as real, (n + rest) as real) <= 1.0
    ensures n > 0 ==> SafeRate(n as real, (n + rest) as real) * (n + rest) as real == n as real
  {}

  /** The harmonic mean of `t/(t+p)` and `t/(t+q)`. */
  lemma HarmonicMean(t: real, p: real, q: real, precision: real, recall: real, f: real)
    requires t > 0.0 && p >= 0.0 && q >= 0.0
    requires precision == t / (t + p) && recall == t / (t + q) && f == 2.0 * t / (2.0 * t + p + q)
    ensures SafeRate(2.0 * precision * recall, precision + recall) == f
  {
    var a, b := t + p, t + q;
    TimesBack(t, a);
    TimesBack(t, b);
    TimesBack(2.0 * t, 2.0 * t + p + q);
    assert 2.0 * t + p + q == a + b;
    HarmonicProduct(t, a, b, precision, recall, f);
    PositiveQuotient(t, a);
    PositiveQuotient(t, b);
    QuotientUnique(f, precision + recall, 2.0 * precision * recall);
  }

  lemma HarmonicProduct(t: real, a: real, b: real, precision: real, recall: real, f: real)
    requires t > 0.0 && a > 0.0 && b > 0.0
    requires precision * a == t && recall * b == t && f * (a + b) == 2.0 * t
    ensures f * (precision + recall) == 2.0 * precision * recall
  {
    // Multiply both sides by a * b.
    var left, right := f * (precision + recall), 2.0 * precision * recall;
    calc {
      left * (a * b);
      f * ((precision * a) * b + (recall * b) * a);
      f * (t * b + t * a);
      (f * (a + b)) * t;
      2.0 * t * t;
      2.0 * (precision * a) * (recall * b);
      right * (a * b);
    }
    CancelFactor(left, right, a * b);
  }

  lemma CancelFactor(x: real, y: real, d: real)
    requires d > 0.0 && x * d == y * d
    ensures x == y
  {
    assert (x - y) * d == 0.0;
  }

  /** `t/(t+q)` shrinks as `q` grows. */
  lemma RateAntitone(t: real, p: real, q: real)
    requires t >= 0.0 && 0.0 <= p <= q && t + p > 0.0
    ensures t / (t + p) >= t / (t + q)
  {
    var x, y := t / (t + p), t / (t + q);
    TimesBack(t, t + p);
    TimesBack(t, t + q);
    assert y >= 0.0 && y * q >= y * p;
    FactorSign(x - y, t + p);
  }

  lemma FactorSign(z: real, d: real)
    requires d > 0.0 && z * d >= 0.0
    ensures z >= 0.0
  {}

  /** What F1 owes to precision and recall: its closed form, and its place between them. */
  ghost predicate F1Fits(precision: real, recall: real, f1: real, closedForm: real) {
    f1 == closedForm && (precision <= f1 <= recall || recall <= f1 <= precision)
  }

  /** F1 is what its closed form in the counts says, lies between precision and recall, and vanishes
      exactly when there is no true positive; a false negative rate is what recall lacks. */
  lemma F1Identities(m: Metric)
    ensures F1Fits(m.Precision(), m.Recall(), m.F1(), SafeRate((2 * m.tp) as real, (2 * m.tp + m.fp + m.fn) as real))
    ensures m.F1() == 0.0 <==> m.tp == 0
    ensures m.tp + m.fn > 0 ==> m.Recall() + m.FalseNegativeRate() == 1.0
  {
    if m.tp > 0 {
      PositiveMetric(m, m.tp as real, m.fp as real, m.fn as real);
    } else {
      NoTruePositive(m);
    }
  }

  lemma NoTruePositive(m: Metric)
    requires m.tp == 0
    ensures m.Precision() == 0.0 && m.Recall() == 0.0 && m.F1() == 0.0
    ensures SafeRate((2 * m.tp) as real, (2 * m.tp + m.fp + m.fn) as real) == 0.0
    ensures m.fn > 0 ==> m.FalseNegativeRate() == 1.0
  {
    if m.fn > 0 { QuotientUnique(1.0, m.fn as real, m.fn as real); }
    ZeroRate((m.tp + m.fp) as real);
    ZeroRate((m.tp + m.fn) as real);
    ZeroRate((2 * m.tp + m.fp + m.fn) as real);
  }

  lemma ZeroRate(d: real)
    ensures SafeRate(0.0, d) == 0.0
  {}

  lemma PositiveMetric(m: Metric, t: real, p: real, q: real)
    requires m.tp > 0 && t == m.tp as real && p == m.fp as real && q == m.fn as real
    ensures F1Fits(m.Precision(), m.Recall(), m.F1(), SafeRate((2 * m.tp) as real, (2 * m.tp + m.fp + m.fn) as real))
    ensures m.F1() > 0.0 && m.Recall() + m.FalseNegativeRate() == 1.0
  {
    assert (2 * m.tp + m.fp + m.fn) as real == 2.0 * t + p + q && (2 * m.tp) as real == 2.0 * t;
    PositiveF1(t, p, q, m.Precision(), m.Recall(), m.F1(), m.FalseNegativeRate());
  }

  lemma PositiveF1(t: real, p: real, q: real, precision: real, recall: real, f1: real, missed: real)
    requires t > 0.0 && p >= 0.0 && q >= 0.0
    requires precision == t / (t + p) && recall == t / (t + q) && missed == q / (t + q)
    requires f1 == SafeRate(2.0 * precision * recall, precision + recall)
    ensures F1Fits(precision, recall, f1, 2.0 * t / (2.0 * t + p + q))
    ensures f1 > 0.0 && recall + missed == 1.0
  {
    var f := 2.0 * t / (2.0 * t + p + q);
    HarmonicMean(t, p, q, precision, recall, f);
    HalfWay(t, p, q, f);
    PositiveQuotient(2.0 * t, 2.0 * t + p + q);
    SharesOfOne(t, q);
  }

  lemma SharesOfOne(t: real, q: real)
    requires t > 0.0 && q >= 0.0
    ensures t / (t + q) + q / (t + q) == 1.0
  {
    QuotientUnique(1.0 - q / (t + q), t + q, t);
  }

  lemma HalfWay(t: real, p: real, q: real, f: real)
    requires t > 0.0 && p >= 0.0 && q >= 0.0 && f == 2.0 * t / (2.0 * t + p + q)
    ensures t / (t + p) <= f <= t / (t + q) || t / (t + q) <= f <= t / (t + p)
  {
    var half := (p + q) / 2.0;
    TimesBack(t, t + half);
    QuotientUnique(t / (t + half), 2.0 * t + p + q, 2.0 * t);
    if p <= q {
      RateAntitone(t, p, half);
      RateAntitone(t, half, q);
    } else {
      RateAntitone(t, half, p);
      RateAntitone(t, q, half);
    }
  }

  lemma SharesOfTotal(a: nat, b: nat, c: nat, total: nat)
    requires total > 0 && a + b + c <= total
    ensures 0.0 <= a as real / total as real && 0.0 <= b as real / total as real && 0.0 <= c as real / total as real
    ensures a as real / total as real + b as real / total as real + c as real / total as real <= 1.0
  {
    assert a as real / total as real + b as real / total as real + c as real / total as real
        == (a + b + c) as real / total as real;
  }

  predicate IsRate(x: real) { 0.0 <= x <= 1.0 }

  /** Every rate lies in [0, 1], and the three outcomes without an answer share at most the whole. */
  lemma RatesAreRates(m: Metric)
    ensures IsRate(m.Precision()) && IsRate(m.Recall()) && IsRate(m.F1())
    ensures IsRate(m.FalsePositiveRate()) && IsRate(m.FalseNegativeRate())
    ensures IsRate(m.AbstentionRate()) && IsRate(m.UnsupportedRate()) && IsRate(m.NeedsReviewRate())
    ensures m.AbstentionRate() + m.UnsupportedRate() + m.NeedsReviewRate() <= 1.0
  {
    F1IsRate(m);
    RateBounds(m.fp, m.tn);
    RateBounds(m.fn, m.tp);
    SharesOfTotal(m.abstain, m.unsupported, m.needsReview, m.Total());
  }

  lemma F1IsRate(m: Metric)
    ensures IsRate(m.Precision()) && IsRate(m.Recall()) && IsRate(m.F1())
  {
    RateBounds(m.tp, m.fp);
    RateBounds(m.tp, m.fn);
    F1Identities(m);
  }

  // ----- slices ------------------------------------------------------------------------------

  datatype Dimension = Corpus | Schema | WebsitePattern | SourceType | RenderingMode | ConfidenceBucket

  const DIMENSIONS: seq<Dimension> := [Corpus, Schema, WebsitePattern, SourceType, RenderingMode, ConfidenceBucket]

  /** The slices looked at: schema 01, pattern 01, source type 01, plain HTTP, confidence 1. */
  predicate InSlice(record: Record, dimension: Dimension) {
    match dimension
    case Corpus => true
    case Schema => record.index % 8 + 1 == 1
    case WebsitePattern => record.index % 5 + 1 == 1
    case SourceType => record.index % 4 + 1 == 1
    case RenderingMode => record.index % 3 != 0
    case ConfidenceBucket => record.index % 5 + 1 == 1
  }

  function Selected(records: seq<Record>, dimension: Dimension): seq<Record> {
    if records == [] then []
    else
      Selected(records[..|records| - 1], dimension)
      + if InSlice(records[|records| - 1], dimension) then [records[|records| - 1]] else []
  }

  method BuildSliceMetrics(records: seq<Record>) returns (metrics: seq<Metric>)
    ensures |metrics| == |DIMENSIONS|
    ensures forall d :: 0 <= d < |DIMENSIONS| ==> metrics[d] == MetricFor(Selected(records, DIMENSIONS[d]))
    ensures metrics[0] == MetricFor(records)
  {
    metrics := [];
    for d := 0 to |DIMENSIONS|
      invariant |metrics| == d
      invariant forall e :: 0 <= e < d ==> metrics[e] == MetricFor(Selected(records, DIMENSIONS[e]))
    {
      var selected := if DIMENSIONS[d] == Corpus then records else Selected(records, DIMENSIONS[d]);
      CorpusIsAll(records);
      metrics := metrics + [MetricFor(selected)];
    }
    CorpusIsAll(records);
  }

  lemma {:induction false} CorpusIsAll(records: seq<Record>)
    ensures Selected(records, Corpus) == records
  {
    if records != [] { CorpusIsAll(records[..|records| - 1]); }
  }

  function SliceSize(n: nat, dimension: Dimension): nat {
    match dimension
    case Corpus => n
    case Schema => n / 8
    case WebsitePattern => n / 5
    case SourceType => n / 4
    case RenderingMode => n - n / 3
    case ConfidenceBucket => n / 5
  }

  lemma SliceStep(n: nat, klass: Class, dimension: Dimension)
    requires n > 0
    ensures SliceSize(n, dimension) == SliceSize(n - 1, dimension) + if InSlice(Record(n, klass), dimension) then 1 else 0
  {
    assert n / 3 == (n - 1) / 3 + if n % 3 == 0 then 1 else 0;
    assert n / 4 == (n - 1) / 4 + if n % 4 == 0 then 1 else 0;
    assert n / 5 == (n - 1) / 5 + if n % 5 == 0 then 1 else 0;
    assert n / 8 == (n - 1) / 8 + if n % 8 == 0 then 1 else 0;
  }

  lemma SelectedSnoc(records: seq<Record>, last: Record, dimension: Dimension)
    ensures Selected(records + [last], dimension)
         == Selected(records, dimension) + if InSlice(last, dimension) then [last] else []
  {
    assert (records + [last])[..|records|] == records;
  }

  lemma CountSnoc(records: seq<Record>, last: Record, klass: Class)
    ensures Count(records + [last], klass) == Count(records, klass) + if last.klass == klass then 1 else 0
  {
    assert (records + [last])[..|records|] == records;
  }

  /** A slice never counts more of a class than the corpus. */
  lemma {:induction false} SliceWithinCorpus(records: seq<Record>, dimension: Dimension, klass: Class)
    ensures Count(Selected(records, dimension), klass) <= Count(records, klass)
  {
    if records != [] {
      var front, last := records[..|records| - 1], records[|records| - 1];
      SliceWithinCorpus(front, dimension, klass);
      CountSnoc(Selected(front, dimension), last, klass);
      assert Selected(front, dimension) + [] == Selected(front, dimension);
    }
  }

  /** The size of a slice is fixed by the number of records, whatever their classes. */
  lemma {:induction false} SliceSizes(classes: seq<Class>, dimension: Dimension)
    ensures |Selected(Numbered(classes), dimension)| == SliceSize(|classes|, dimension)
  {
    if classes != [] {
      var front, n := classes[..|classes| - 1], |classes|;
      SliceSizes(front, dimension);
      SliceStep(n, classes[n - 1], dimension);
      assert Numbered(classes) == Numbered(front) + [Record(n, classes[n - 1])];
      SelectedSnoc(Numbered(front), Record(n, classes[n - 1]), dimension);
    }
  }

  // ----- the threshold gates -----------------------------------------------------------------

  datatype Thresholds = Thresholds(minPrecision: real, minRecall: real, minF1: real, minCriticalPrecision: real)

  datatype Failure = PrecisionBelow | RecallBelow | F1Below | CriticalPrecisionBelow

  function CriticalRecords(records: seq<Record>): seq<Record> {
    if records == [] then []
    else
      CriticalRecords(records[..|records| - 1])
      + if records[|records| - 1].Critical() then [records[|records| - 1]] else []
  }

  function CriticalPrecision(records: seq<Record>): real { MetricFor(CriticalRecords(records)).Precision() }

  function ThresholdFailure(t: Thresholds, corpus: Metric, criticalPrecision: real): Option<Failure> {
    if corpus.Precision() < t.minPrecision then Some(PrecisionBelow)
    else if corpus.Recall() < t.minRecall then Some(RecallBelow)
    else if corpus.F1() < t.minF1 then Some(F1Below)
    else if criticalPrecision < t.minCriticalPrecision then Some(CriticalPrecisionBelow)
    else None
  }

  /** The F1 gate can only speak when its threshold lies above one of the two before it. */
  lemma F1GateIsBackup(t: Thresholds, corpus: Metric, criticalPrecision: real)
    requires t.minF1 <= t.minPrecision && t.minF1 <= t.minRecall
    ensures ThresholdFailure(t, corpus, criticalPrecision) != Some(F1Below)
  {
    F1Identities(corpus);
  }

  lemma {:induction false} CriticalArePrefix(classes: seq<Class>)
    ensures CriticalRecords(Numbered(classes)) == Numbered(classes[..Min(201, |classes|)])
  {
    if classes != [] {
      var front := classes[..|classes| - 1];
      CriticalArePrefix(front);
      assert Numbered(classes)[..|front|] == Numbered(front);
      assert front[..Min(201, |front|)] == classes[..Min(201, |front|)];
    }
  }

  lemma RunsBegin(m: Manifest) returns (rest: seq<Class>)
    ensures Runs(m.Asked, ORDER) == Repeat(TruePositive, m.Asked(TruePositive)) + rest
    ensures multiset(rest)[TruePositive] == 0 && multiset(rest)[FalsePositive] == m.Asked(FalsePositive)
  {
    rest := Runs(m.Asked, ORDER[1..]);
    assert ORDER == [TruePositive] + ORDER[1..];
    RunsConcat(m.Asked, [TruePositive], ORDER[1..]);
    RunsOne(m.Asked, TruePositive);
    RunsMultiplicity(m.Asked, ORDER, TruePositive);
    RunsMultiplicity(m.Asked, ORDER, FalsePositive);
    RepeatMultiplicity(TruePositive, m.Asked(TruePositive));
    assert ORDER[0] == TruePositive && ORDER[1] == FalsePositive;
  }

  /** Of a prefix of `n` classes that start with `tp` true positives. */
  lemma PrefixCounts(tp: nat, rest: seq<Class>, n: nat)
    requires n <= tp + |rest| && multiset(rest)[TruePositive] == 0
    ensures var prefix := multiset((Repeat(TruePositive, tp) + rest)[..n]);
            && prefix[TruePositive] == Min(n, tp)
            && prefix[FalsePositive] <= multiset(rest)[FalsePositive]
            && (n <= tp ==> prefix[FalsePositive] == 0)
  {
    var whole := Repeat(TruePositive, tp) + rest;
    if n <= tp {
      assert whole[..n] == Repeat(TruePositive, n);
      RepeatMultiplicity(TruePositive, n);
    } else {
      var part := rest[..n - tp];
      assert whole[..n] == Repeat(TruePositive, tp) + part;
      assert rest == part + rest[n - tp..];
      RepeatMultiplicity(TruePositive, tp);
    }
  }

  lemma FewerMistakes(corpus: Metric, critical: Metric)
    requires critical.fp <= corpus.fp && critical.tp <= corpus.tp
    requires critical.tp == corpus.tp || (critical.tp > 0 && critical.fp == 0)
    ensures critical.Precision() >= corpus.Precision()
  {
    RateBounds(corpus.tp, corpus.fp);
    if critical.tp == 0 {
      ZeroRate((corpus.tp + corpus.fp) as real);
      ZeroRate((critical.tp + critical.fp) as real);
    } else if critical.tp == corpus.tp {
      RateAntitone(corpus.tp as real, critical.fp as real, corpus.fp as real);
    } else {
      QuotientUnique(1.0, critical.tp as real, critical.tp as real);
    }
  }

  /** Because true positives are generated first and criticality goes by index, the critical records
      are never less precise than the corpus. */
  lemma CriticalAtLeastCorpus(m: Manifest)
    ensures CriticalPrecision(Generated(m)) >= MetricFor(Generated(m)).Precision()
  {
    CriticalCounts(m);
    FewerMistakes(MetricFor(Generated(m)), MetricFor(CriticalRecords(Generated(m))));
  }

  lemma CriticalCounts(m: Manifest)
    ensures var corpus, critical := MetricFor(Generated(m)), MetricFor(CriticalRecords(Generated(m)));
            && critical.fp <= corpus.fp && critical.tp <= corpus.tp
            && (critical.tp == corpus.tp || (critical.tp > 0 && critical.fp == 0))
  {
    var classes := Runs(m.Asked, ORDER);
    var rest := RunsBegin(m);
    var tp, n := m.Asked(TruePositive), Min(201, |classes|);
    PrefixCounts(tp, rest, n);
    CriticalArePrefix(classes);
    CountNumbered(classes[..n], TruePositive);
    CountNumbered(classes[..n], FalsePositive);
    CountNumbered(classes, TruePositive);
    CountNumbered(classes, FalsePositive);
    RepeatMultiplicity(TruePositive, tp);
  }

  /** So on generated records the critical gate is idle unless it asks for more than the first gate. */
  lemma CriticalGateIsBackup(t: Thresholds, m: Manifest)
    requires t.minCriticalPrecision <= t.minPrecision
    ensures ThresholdFailure(t, MetricFor(Generated(m)), CriticalPrecision(Generated(m)))
         != Some(CriticalPrecisionBelow)
  {
    CriticalAtLeastCorpus(m);
  }
}
