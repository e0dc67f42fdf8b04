/**
 * The network traffic analyzer: two snapshots of the cumulative interface
 * counters become per-second rates, and the error and drop rates are
 * compared against fixed thresholds.
 *
 * The analyzer's input is whatever the caller hands it (in the dashboard, a
 * dictionary from the counter source or None), so it first rejects missing
 * or malformed input; it then refuses intervals of 0.1 s or less, clamps
 * every counter delta at zero to absorb counter resets, divides each delta
 * by the interval and lists every threshold that is exceeded. The model
 * returns the numbers and the verdict instead of the markdown message.
 */
module TrafficAnalysis {
  import opened ByteFormat

  /** The eight cumulative counters of a snapshot. */
  datatype Counter = BytesSent | BytesRecv | PacketsSent | PacketsRecv | ErrIn | ErrOut | DropIn | DropOut

  /** One value per counter: the counts of a snapshot, their deltas, or their rates. */
  datatype Tally<T> = Tally(bytesSent: T, bytesRecv: T, packetsSent: T, packetsRecv: T,
                            errIn: T, errOut: T, dropIn: T, dropOut: T)
  {
    function Get(c: Counter): T {
      match c
      case BytesSent => bytesSent
      case BytesRecv => bytesRecv
      case PacketsSent => packetsSent
      case PacketsRecv => packetsRecv
      case ErrIn => errIn
      case ErrOut => errOut
      case DropIn => dropIn
      case DropOut => dropOut
    }

    /** The same tally with one counter replaced. */
    function With(c: Counter, v: T): (t: Tally<T>)
      ensures t.Get(c) == v
      ensures forall d :: d != c ==> t.Get(d) == Get(d)
    {
      match c
      case BytesSent => this.(bytesSent := v)
      case BytesRecv => this.(bytesRecv := v)
      case PacketsSent => this.(packetsSent := v)
      case PacketsRecv => this.(packetsRecv := v)
      case ErrIn => this.(errIn := v)
      case ErrOut => this.(errOut := v)
      case DropIn => this.(dropIn := v)
      case DropOut => this.(dropOut := v)
    }
  }

  /** A reading of the counters at a monotonic time in seconds. */
  datatype Snapshot = Snapshot(timestamp: real, counts: Tally<int>)

  /** The dictionary key under which each field is stored. */
  const TimestampKey: string := "timestamp"

  function KeyOf(c: Counter): string {
    match c
    case BytesSent => "bytes_sent"
    case BytesRecv => "bytes_recv"
    case PacketsSent => "packets_sent"
    case PacketsRecv => "packets_recv"
    case ErrIn => "errin"
    case ErrOut => "errout"
    case DropIn => "dropin"
    case DropOut => "dropout"
  }

  /** The nine keys the analyzer insists on, in the order it lists them. */
  const RequiredKeys: seq<string> :=
    [TimestampKey, KeyOf(BytesSent), KeyOf(BytesRecv), KeyOf(PacketsSent), KeyOf(PacketsRecv),
     KeyOf(ErrIn), KeyOf(ErrOut), KeyOf(DropIn), KeyOf(DropOut)]

  /**
   * An argument of the analyzer. A dictionary is given by the set of keys it
   * holds and by the values of the nine fields; a field whose key is absent
   * is never read.
   */
  datatype StatsArg =
    | NoneValue                                   // None
    | NonDict(truthy: bool)                       // any other object that is not a dictionary
    | DictValue(keys: set<string>, values: Snapshot)
  {
    /** Python truthiness: None is false, a dictionary is true when it is not empty. */
    predicate Truthy() {
      match this
      case NoneValue => false
      case NonDict(t) => t
      case DictValue(keys, _) => keys != {}
    }

    predicate HasRequiredKeys()
      requires DictValue?
    {
      forall i :: 0 <= i < |RequiredKeys| ==> RequiredKeys[i] in keys
    }
  }

  /** The dictionary the counter source produces for a snapshot: all nine keys. */
  function AsArg(s: Snapshot): (a: StatsArg)
    ensures a.DictValue? && a.Truthy() && a.HasRequiredKeys() && a.values == s
  {
    var keys := set i | 0 <= i < |RequiredKeys| :: RequiredKeys[i];
    assert RequiredKeys[0] in keys;
    DictValue(keys, s)
  }

  /** The conditions the analyzer reports, in the order it checks them. */
  datatype AnomalyKind = HighInputErrorRate | HighOutputErrorRate | HighInputDropRate | HighOutputDropRate

  function Rank(k: AnomalyKind): nat {
    match k
    case HighInputErrorRate => 0
    case HighOutputErrorRate => 1
    case HighInputDropRate => 2
    case HighOutputDropRate => 3
  }

  /** A condition that fired, with the rate that fired it. */
  datatype Anomaly = Anomaly(kind: AnomalyKind, rate: real)

  /** Errors per second above which an error rate is anomalous. */
  const ErrorRateThreshold: real := 5.0

  /** Drops per second above which a drop rate is anomalous. */
  const DropRateThreshold: real := 10.0

  /** Intervals at or below this many seconds are too short to give a rate. */
  const MinInterval: real := 0.1

  /** Intervals above this many seconds are noted in the report. */
  const LongInterval: real := 60.0

  datatype Verdict = Stable | AnomalyDetected

  /** What a successful analysis reports. */
  datatype Report = Report(
    verdict: Verdict,
    interval: real,          // seconds between the two snapshots
    longInterval: bool,      // the interval is noted as unusually long
    deltas: Tally<int>,      // clamped counter differences
    rates: Tally<real>,      // deltas per second
    sentMbps: real,          // megabits per second sent
    recvMbps: real,          // megabits per second received
    sentText: HumanBytes,    // the byte rate sent, as the byte formatter shows it
    recvText: HumanBytes,    // the byte rate received, as the byte formatter shows it
    anomalies: seq<Anomaly>)

  /** The outcome of one analysis; every branch of the analyzer returns one of these. */
  datatype Analysis =
    | InsufficientData       // an argument is missing or empty
    | InvalidFormat          // an argument is not a dictionary
    | MissingRequiredKeys    // a dictionary lacks one of the nine keys
    | IntervalTooShort       // 0.1 s or less between the snapshots
    | Analyzed(report: Report)

  /** max(0, cur - prev): a counter that went down (a reset) contributes nothing. */
  function ClampedDiff(prev: int, cur: int): (d: int)
    ensures d >= 0
    ensures cur >= prev ==> d == cur - prev
    ensures cur <= prev ==> d == 0
  {
    if cur - prev > 0 then cur - prev else 0
  }

  /** The delta of every counter between two tallies. */
  function Deltas(prev: Tally<int>, cur: Tally<int>): (d: Tally<int>)
    ensures forall c :: d.Get(c) == ClampedDiff(prev.Get(c), cur.Get(c))
  {
    Tally(ClampedDiff(prev.bytesSent, cur.bytesSent),
          ClampedDiff(prev.bytesRecv, cur.bytesRecv),
          ClampedDiff(prev.packetsSent, cur.packetsSent),
          ClampedDiff(prev.packetsRecv, cur.packetsRecv),
          ClampedDiff(prev.errIn, cur.errIn),
          ClampedDiff(prev.errOut, cur.errOut),
          ClampedDiff(prev.dropIn, cur.dropIn),
          ClampedDiff(prev.dropOut, cur.dropOut))
  }

  /** A count over an interval as a rate per second: over the interval, the rate adds up to the count. */
  function Rate(count: int, interval: real): (r: real)
    requires interval > 0.0
    ensures r * interval == count as real
    ensures count == 0 ==> r == 0.0
    ensures count >= 0 ==> r >= 0.0
  {
    count as real / interval
  }

  /** Every delta divided by the interval. */
  function PerSecond(d: Tally<int>, interval: real): (r: Tally<real>)
    requires interval > 0.0
    ensures forall c :: r.Get(c) == Rate(d.Get(c), interval)
  {
    Tally(Rate(d.bytesSent, interval),
          Rate(d.bytesRecv, interval),
          Rate(d.packetsSent, interval),
          Rate(d.packetsRecv, interval),
          Rate(d.errIn, interval),
          Rate(d.errOut, interval),
          Rate(d.dropIn, interval),
          Rate(d.dropOut, interval))
  }

  /** Bytes over an interval as megabits per second. */
  function Megabits(bytes: int, interval: real): (m: real)
    requires interval > 0.0
    ensures m * interval * 1000000.0 == bytes as real * 8.0
  {
    (bytes * 8) as real / (interval * 1000000.0)
  }

  /** The threshold a condition is checked against, and the rate it looks at. */
  function ThresholdOf(k: AnomalyKind): real {
    if k == HighInputErrorRate || k == HighOutputErrorRate then ErrorRateThreshold else DropRateThreshold
  }

  function RateOf(k: AnomalyKind, rates: Tally<real>): real {
    match k
    case HighInputErrorRate => rates.errIn
    case HighOutputErrorRate => rates.errOut
    case HighInputDropRate => rates.dropIn
    case HighOutputDropRate => rates.dropOut
  }

  predicate Fires(k: AnomalyKind, rates: Tally<real>) {
    RateOf(k, rates) > ThresholdOf(k)
  }

  /** One check: the condition with its rate if the rate is strictly above the threshold, else nothing. */
  function Check(k: AnomalyKind, rates: Tally<real>): (a: seq<Anomaly>)
    ensures a != [] <==> RateOf(k, rates) > ThresholdOf(k)
    ensures a != [] ==> a == [Anomaly(k, RateOf(k, rates))]
  {
    if Fires(k, rates) then [Anomaly(k, RateOf(k, rates))] else []
  }

  /**
   * The four independent checks, in the order input errors, output errors,
   * input drops, output drops. Only conditions that fire are listed, each
   * with its own rate, each at most once and in that order.
   */
  function DetectAnomalies(rates: Tally<real>): (a: seq<Anomaly>)
    ensures |a| <= 4
    ensures forall i :: 0 <= i < |a| ==> Fires(a[i].kind, rates) && a[i].rate == RateOf(a[i].kind, rates)
    ensures forall i, j :: 0 <= i < j < |a| ==> Rank(a[i].kind) < Rank(a[j].kind)
  {
    Check(HighInputErrorRate, rates) + Check(HighOutputErrorRate, rates) +
    Check(HighInputDropRate, rates) + Check(HighOutputDropRate, rates)
  }

  /** Every condition that fires is listed: the checks are independent and cumulative. */
  lemma {:induction false} FiringConditionListed(rates: Tally<real>, k: AnomalyKind)
    ensures Fires(k, rates) <==> exists i :: 0 <= i < |DetectAnomalies(rates)| && DetectAnomalies(rates)[i].kind == k
  {
    var a := DetectAnomalies(rates);
    var c0, c1, c2 := Check(HighInputErrorRate, rates), Check(HighOutputErrorRate, rates), Check(HighInputDropRate, rates);
    if Fires(k, rates) {
      match k
      case HighInputErrorRate => assert a[0].kind == k;
      case HighOutputErrorRate => assert a[|c0|].kind == k;
      case HighInputDropRate => assert a[|c0| + |c1|].kind == k;
      case HighOutputDropRate => assert a[|c0| + |c1| + |c2|].kind == k;
    }
  }

  /** Nothing is listed exactly when no rate exceeds its threshold. */
  lemma NoAnomalyIffNoneFires(rates: Tally<real>)
    ensures DetectAnomalies(rates) == [] <==> forall k :: !Fires(k, rates)
  {
    if k :| Fires(k, rates) {
      FiringConditionListed(rates, k);
    }
  }

  /**
   * The arithmetic part of the analyzer, on two snapshots that hold all the
   * fields it reads: a short interval is refused, otherwise the report's
   * verdict is an anomaly exactly when some condition is listed.
   */
  function AnalyzeSnapshots(prev: Snapshot, cur: Snapshot): (r: Analysis)
    ensures r.IntervalTooShort? <==> cur.timestamp - prev.timestamp <= MinInterval
    ensures !r.IntervalTooShort? ==>
      && r.Analyzed?
      && r.report.interval == cur.timestamp - prev.timestamp
      && (r.report.longInterval <==> r.report.interval > LongInterval)
      && r.report.anomalies == DetectAnomalies(r.report.rates)
      && (r.report.verdict == AnomalyDetected <==> r.report.anomalies != [])
  {
    var interval := cur.timestamp - prev.timestamp;
    if interval <= MinInterval then IntervalTooShort
    else Analyzed(BuildReport(interval, Deltas(prev.counts, cur.counts)))
  }

  /** The report for the given clamped deltas over an interval that passed the check. */
  function BuildReport(interval: real, deltas: Tally<int>): (rep: Report)
    requires interval > MinInterval
    ensures rep.interval == interval && rep.deltas == deltas
    ensures rep.longInterval <==> interval > LongInterval
    ensures rep.rates == PerSecond(deltas, interval)
    ensures rep.sentMbps * interval * 1000000.0 == deltas.bytesSent as real * 8.0
    ensures rep.recvMbps * interval * 1000000.0 == deltas.bytesRecv as real * 8.0
    ensures rep.sentText == Humanize(Number(rep.rates.bytesSent))
    ensures rep.recvText == Humanize(Number(rep.rates.bytesRecv))
    ensures rep.anomalies == DetectAnomalies(rep.rates)
    ensures rep.verdict == AnomalyDetected <==> rep.anomalies != []
  {
    var rates := PerSecond(deltas, interval);
    var anomalies := DetectAnomalies(rates);
    Report(
      if anomalies != [] then AnomalyDetected else Stable,
      interval,
      interval > LongInterval,
      deltas,
      rates,
      Megabits(deltas.bytesSent, interval),
      Megabits(deltas.bytesRecv, interval),
      Humanize(Number(rates.bytesSent)),
      Humanize(Number(rates.bytesRecv)),
      anomalies)
  }

  /**
   * The per-counter numbers of a report: each delta is the clamped
   * difference of that counter, so none is negative; a counter that
   * did not go down has as rate its increase per second of the interval (so
   * that, over the interval, the rate adds up to exactly the increase); a
   * counter that went down has rate zero.
   */
  lemma {:induction false} AnalyzedRates(prev: Snapshot, cur: Snapshot)
    requires cur.timestamp - prev.timestamp > MinInterval
    ensures forall c :: RateMeetsDelta(prev, cur, c)
  {
    forall c ensures RateMeetsDelta(prev, cur, c) {
      var interval := cur.timestamp - prev.timestamp;
      var d := Deltas(prev.counts, cur.counts);
      var rep := BuildReport(interval, d);
      assert AnalyzeSnapshots(prev, cur).report == rep;
      assert rep.rates.Get(c) == Rate(d.Get(c), interval);
      assert d.Get(c) == ClampedDiff(prev.counts.Get(c), cur.counts.Get(c));
    }
  }

  ghost predicate RateMeetsDelta(prev: Snapshot, cur: Snapshot, c: Counter)
    requires cur.timestamp - prev.timestamp > MinInterval
  {
    var rep := AnalyzeSnapshots(prev, cur).report;
    && rep.deltas.Get(c) == ClampedDiff(prev.counts.Get(c), cur.counts.Get(c))
    && rep.deltas.Get(c) >= 0
    && (cur.counts.Get(c) >= prev.counts.Get(c) ==>
          rep.rates.Get(c) == Rate(cur.counts.Get(c) - prev.counts.Get(c), rep.interval))
    && (cur.counts.Get(c) <= prev.counts.Get(c) ==> rep.rates.Get(c) == 0.0)
  }

  /** The verdict is an anomaly exactly when some error or drop rate exceeds its threshold. */
  lemma VerdictIffThresholdExceeded(prev: Snapshot, cur: Snapshot)
    requires cur.timestamp - prev.timestamp > MinInterval
    ensures var rep := AnalyzeSnapshots(prev, cur).report;
      && (rep.verdict == AnomalyDetected <==> exists k :: Fires(k, rep.rates))
      && (rep.verdict == Stable <==> forall k :: !Fires(k, rep.rates))
  {
    NoAnomalyIffNoneFires(AnalyzeSnapshots(prev, cur).report.rates);
  }

  /**
   * The analyzer as the dashboard calls it: missing or empty arguments give
   * InsufficientData, then non-dictionaries InvalidFormat, then a missing key
   * MissingRequiredKeys; only then are the snapshots compared.
   */
  function AnalyzeNetworkTraffic(prev: StatsArg, cur: StatsArg): (r: Analysis)
    ensures r.InsufficientData? <==> !prev.Truthy() || !cur.Truthy()
    ensures r.InvalidFormat? <==> prev.Truthy() && cur.Truthy() && !(prev.DictValue? && cur.DictValue?)
    ensures r.MissingRequiredKeys? <==>
      prev.Truthy() && cur.Truthy() && prev.DictValue? && cur.DictValue? &&
      !(prev.HasRequiredKeys() && cur.HasRequiredKeys())
    ensures (r.IntervalTooShort? || r.Analyzed?) ==>
      prev.DictValue? && cur.DictValue? && r == AnalyzeSnapshots(prev.values, cur.values)
  {
    if !prev.Truthy() || !cur.Truthy() then InsufficientData
    else if !prev.DictValue? || !cur.DictValue? then InvalidFormat
    else if !prev.HasRequiredKeys() || !cur.HasRequiredKeys() then MissingRequiredKeys
    else AnalyzeSnapshots(prev.values, cur.values)
  }

  /** Two readings of the counter source always reach the interval check. */
  lemma SourceSnapshotsAreWellFormed(prev: Snapshot, cur: Snapshot)
    ensures AnalyzeNetworkTraffic(AsArg(prev), AsArg(cur)) == AnalyzeSnapshots(prev, cur)
  {
  }

  /** The first call, with no previous reading, has insufficient data. */
  lemma FirstCallInsufficient(cur: StatsArg)
    ensures AnalyzeNetworkTraffic(NoneValue, cur) == InsufficientData
  {
  }

  /**
   * Comparing a snapshot with itself, or with an older one, is refused as
   * too short: the analyzer never divides by a zero or negative interval.
   */
  lemma NoBackwardOrZeroInterval(prev: Snapshot, cur: Snapshot)
    requires cur.timestamp <= prev.timestamp
    ensures AnalyzeNetworkTraffic(AsArg(prev), AsArg(cur)) == IntervalTooShort
  {
  }

  /**
   * A counter that went down yields a zero delta and rate for that counter
   * alone: every other counter's delta and rate, the verdict's inputs for
   * them, and the interval are exactly what they would be had the counter
   * not been reset.
   */
  lemma {:induction false} ResetAffectsOnlyItsCounter(prev: Snapshot, cur: Snapshot, c: Counter, reset: int)
    requires reset < prev.counts.Get(c)
    requires cur.timestamp - prev.timestamp > MinInterval
    ensures var r := AnalyzeSnapshots(prev, cur);
            var r' := AnalyzeSnapshots(prev, cur.(counts := cur.counts.With(c, reset)));
            && r.Analyzed? && r'.Analyzed?
            && r'.report.deltas.Get(c) == 0 && r'.report.rates.Get(c) == 0.0
            && r'.report.interval == r.report.interval
            && (forall d :: d != c ==> r'.report.deltas.Get(d) == r.report.deltas.Get(d))
            && (forall d :: d != c ==> r'.report.rates.Get(d) == r.report.rates.Get(d))
  {
    var cur' := cur.(counts := cur.counts.With(c, reset));
    var r := AnalyzeSnapshots(prev, cur);
    var r' := AnalyzeSnapshots(prev, cur');
    var interval := cur.timestamp - prev.timestamp;
    var d := Deltas(prev.counts, cur.counts);
    var d' := Deltas(prev.counts, cur'.counts);
    assert r.report.deltas == d && r'.report.deltas == d';
    assert r.report.rates == PerSecond(d, interval) && r'.report.rates == PerSecond(d', interval);
    forall e | e != c
      ensures d'.Get(e) == d.Get(e) && r'.report.rates.Get(e) == r.report.rates.Get(e)
    {
      assert cur'.counts.Get(e) == cur.counts.Get(e);
      RateDeterminedByDelta(d, d', interval, e);
    }
  }

  /** Each rate depends only on its own delta and the interval. */
  lemma RateDeterminedByDelta(d: Tally<int>, d': Tally<int>, interval: real, c: Counter)
    requires interval > 0.0 && d.Get(c) == d'.Get(c)
    ensures PerSecond(d, interval).Get(c) == PerSecond(d', interval).Get(c)
  {
    var r, r' := PerSecond(d, interval), PerSecond(d', interval);
    assert r.Get(c) * interval == r'.Get(c) * interval;
  }

  /** The thresholds are strict: a rate exactly at the threshold does not fire. */
  lemma ThresholdsAreStrict(rates: Tally<real>)
    requires rates.errIn == 5.0 && rates.errOut == 5.0 && rates.dropIn == 10.0 && rates.dropOut == 10.0
    ensures DetectAnomalies(rates) == []
  {
  }

  /** The sample exchange of one second with heavy but error-free traffic. */
  function SamplePrev(): Snapshot {
    Snapshot(0.0, Tally(1000, 2000, 10, 20, 0, 0, 0, 0))
  }

  function SampleCur(errIn: int): Snapshot {
    Snapshot(1.0, Tally(101000, 52000, 110, 120, errIn, 0, 0, 0))
  }

  /** 100000 B/s sent, 50000 B/s received, 100 packets/s each way; no errors: stable. */
  lemma StableScenario()
    ensures var r := AnalyzeNetworkTraffic(AsArg(SamplePrev()), AsArg(SampleCur(0)));
            && r.Analyzed?
            && r.report.rates.bytesSent == 100000.0 && r.report.rates.bytesRecv == 50000.0
            && r.report.rates.packetsSent == 100.0 && r.report.rates.packetsRecv == 100.0
            && r.report.sentMbps == 0.8
            && r.report.verdict == Stable && r.report.anomalies == []
  {
  }

  /** The same exchange with 20 input errors in the second: one anomaly, the input error rate. */
  lemma AnomalyScenario()
    ensures var r := AnalyzeNetworkTraffic(AsArg(SamplePrev()), AsArg(SampleCur(20)));
            && r.Analyzed?
            && r.report.verdict == AnomalyDetected
            && r.report.anomalies == [Anomaly(HighInputErrorRate, 20.0)]
  {
  }

  /** 5 errors in one second do not fire; 6 do. */
  lemma ErrorThresholdBoundary()
    ensures AnalyzeNetworkTraffic(AsArg(SamplePrev()), AsArg(SampleCur(5))).report.verdict == Stable
    ensures AnalyzeNetworkTraffic(AsArg(SamplePrev()), AsArg(SampleCur(6))).report.verdict == AnomalyDetected
  {
  }
}
