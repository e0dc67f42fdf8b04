/**
 * The traffic scan of the dashboard's network tab: a toggle, and a single
 * slot holding the previous counter snapshot. Activating the scan stores a
 * baseline reading; each pass while it is active reads the counters again,
 * analyzes the pair when both readings exist and then makes the new reading
 * the previous one; deactivating clears the slot.
 *
 * Readings of the counter source are parameters (None when the read
 * failed). The refresh timing (sleep, rerun) and the rendering are not part
 * of the model; what is shown is reduced to its severity and its figures.
 */
module TrafficScan {
  import opened Wrappers
  import opened ByteFormat
  import opened TrafficAnalysis

  /** How the status line is styled. */
  datatype Severity = Alert | Waiting | Success

  /**
   * The styling the dashboard picks for an analysis by looking for phrases
   * in its message: the anomaly banner is an alert; "Insufficient data" and
   * "Interval too short" are waiting messages; everything else, the two
   * invalid-format messages included, is styled as a success.
   */
  function SeverityOf(a: Analysis): (s: Severity)
    ensures s == Alert <==> a.Analyzed? && a.report.verdict == AnomalyDetected
    ensures s == Waiting <==> a.InsufficientData? || a.IntervalTooShort?
  {
    match a
    case Analyzed(rep) => if rep.verdict == AnomalyDetected then Alert else Success
    case InsufficientData => Waiting
    case IntervalTooShort => Waiting
    case InvalidFormat => Success
    case MissingRequiredKeys => Success
  }

  /** The cumulative totals shown beside an analysis, taken from the current reading. */
  datatype Totals = Totals(sent: HumanBytes, recv: HumanBytes, counts: Tally<int>)

  /** What one pass of an active scan shows. */
  datatype TickStatus =
    | Compared(analysis: Analysis, severity: Severity, totals: Totals)
    | ReadFailed            // "Could not retrieve current network IO stats."
    | WaitingForInterval    // the first reading was stored; nothing to compare yet

  /** What one pass of the network tab does with the scan. */
  datatype PassStatus = Ticked(tick: TickStatus) | Deactivated | Idle

  /** The slot after a pass: a successful reading replaces it, a failed one leaves it. */
  function NextSlot(prev: Option<Snapshot>, current: Option<Snapshot>): (next: Option<Snapshot>)
    ensures current.Some? ==> next == current
    ensures current.None? ==> next == prev
  {
    if current.Some? then current else prev
  }

  /** What a pass of an active scan shows, given the slot and the new reading. */
  function TickStatusOf(prev: Option<Snapshot>, current: Option<Snapshot>): (t: TickStatus)
    ensures t.Compared? <==> prev.Some? && current.Some?
    ensures t.ReadFailed? <==> current.None?
    ensures t.Compared? ==>
      && t.analysis == AnalyzeSnapshots(prev.value, current.value)
      && t.severity == SeverityOf(t.analysis)
      && t.totals.counts == current.value.counts
      && t.totals.sent == Humanize(Number(current.value.counts.bytesSent as real))
      && t.totals.recv == Humanize(Number(current.value.counts.bytesRecv as real))
  {
    if current.Some? && prev.Some? then
      var analysis := AnalyzeNetworkTraffic(AsArg(prev.value), AsArg(current.value));
      var c := current.value.counts;
      Compared(analysis, SeverityOf(analysis),
               Totals(Humanize(Number(c.bytesSent as real)), Humanize(Number(c.bytesRecv as real)), c))
    else if current.None? then ReadFailed
    else WaitingForInterval
  }

  /** The scan's two entries of session state. */
  class Scan {
    /** The toggle's remembered state: the scan is running. */
    var running: bool
    /** The previous reading, None when there is none. */
    var prev: Option<Snapshot>

    /** A stopped scan never holds a reading. */
    ghost predicate Valid()
      reads this
    {
      !running ==> prev.None?
    }

    /** A fresh session: neither entry is set, which reads as not running and no reading. */
    constructor ()
      ensures Valid() && !running && prev.None?
    {
      running := false;
      prev := None;
    }

    /** Turning the scan on: running, with the baseline reading (None if it failed) in the slot. */
    method Activate(baseline: Option<Snapshot>)
      requires Valid() && !running
      modifies this
      ensures Valid() && running && prev == baseline
    {
      running := true;
      prev := baseline;
    }

    /**
     * One pass while running: with both readings present, analyze the pair
     * and shift the current reading into the slot; with only the current
     * reading, store it; with no current reading, leave the slot alone.
     */
    method Tick(current: Option<Snapshot>) returns (status: TickStatus)
      requires Valid() && running
      modifies this
      ensures Valid() && running
      ensures prev == NextSlot(old(prev), current)
      ensures status == TickStatusOf(old(prev), current)
    {
      if current.Some? && prev.Some? {
        var analysis := AnalyzeNetworkTraffic(AsArg(prev.value), AsArg(current.value));
        var c := current.value.counts;
        var sent := FormatBytes(Number(c.bytesSent as real));
        var recv := FormatBytes(Number(c.bytesRecv as real));
        status := Compared(analysis, SeverityOf(analysis), Totals(sent, recv, c));
        prev := current;
      } else if current.None? {
        status := ReadFailed;
      } else {
        status := WaitingForInterval;
        prev := current;
      }
    }

    /** Turning the scan off: not running, and the slot cleared so nothing stale survives. */
    method Deactivate()
      requires Valid() && running
      modifies this
      ensures Valid() && !running && prev.None?
    {
      running := false;
      prev := None;
    }

    /**
     * One pass of the network tab with the toggle in the given position. When
     * the toggle is on and the scan was not running, the scan is activated
     * with the baseline reading and then ticks with the current one in the
     * same pass; when it is off, a running scan is deactivated.
     */
    method Pass(toggleOn: bool, baseline: Option<Snapshot>, current: Option<Snapshot>) returns (status: PassStatus)
      requires Valid()
      modifies this
      ensures Valid() && running == toggleOn
      ensures toggleOn && !old(running) ==>
        prev == NextSlot(baseline, current) && status == Ticked(TickStatusOf(baseline, current))
      ensures toggleOn && old(running) ==>
        prev == NextSlot(old(prev), current) && status == Ticked(TickStatusOf(old(prev), current))
      ensures !toggleOn && old(running) ==> prev.None? && status == Deactivated
      ensures !toggleOn && !old(running) ==> prev == old(prev) && status == Idle
    {
      if toggleOn {
        if !running {
          Activate(baseline);
        }
        var tick := Tick(current);
        status := Ticked(tick);
      } else if running {
        Deactivate();
        status := Deactivated;
      } else {
        status := Idle;
      }
    }
  }

  /** The slot after a sequence of passes of a running scan, one reading each. */
  function SlotAfter(prev: Option<Snapshot>, readings: seq<Option<Snapshot>>): Option<Snapshot>
    decreases |readings|
  {
    if readings == [] then prev else SlotAfter(NextSlot(prev, readings[0]), readings[1..])
  }

  /** The most recent successful reading, or the fallback when every reading failed. */
  function LatestReading(readings: seq<Option<Snapshot>>, fallback: Option<Snapshot>): (r: Option<Snapshot>)
    ensures r == fallback || r in readings
    ensures r.None? ==> fallback.None?
    decreases |readings|
  {
    if readings == [] then fallback
    else if readings[|readings| - 1].Some? then readings[|readings| - 1]
    else LatestReading(readings[..|readings| - 1], fallback)
  }

  lemma {:induction false} SlotAfterAppend(prev: Option<Snapshot>, readings: seq<Option<Snapshot>>, r: Option<Snapshot>)
    ensures SlotAfter(prev, readings + [r]) == NextSlot(SlotAfter(prev, readings), r)
    decreases |readings|
  {
    if readings == [] {
      assert [] + [r] == [r];
    } else {
      assert (readings + [r])[1..] == readings[1..] + [r];
      SlotAfterAppend(NextSlot(prev, readings[0]), readings[1..], r);
    }
  }

  /**
   * Single-slot memory: after any sequence of passes, the slot holds the most
   * recent reading that succeeded, and the starting slot only if none did.
   */
  lemma {:induction false} SlotHoldsLatestReading(prev: Option<Snapshot>, readings: seq<Option<Snapshot>>)
    ensures SlotAfter(prev, readings) == LatestReading(readings, prev)
    decreases |readings|
  {
    if readings != [] {
      var init := readings[..|readings| - 1];
      var last := readings[|readings| - 1];
      assert readings == init + [last];
      SlotAfterAppend(prev, init, last);
      SlotHoldsLatestReading(prev, init);
    }
  }

  /**
   * The pass that activates the scan compares the baseline with a reading
   * taken in the same pass; when they are 0.1 s apart or less the result
   * is a waiting message, and the slot already holds the newer reading.
   */
  lemma ActivationPassWaits(baseline: Snapshot, current: Snapshot)
    requires current.timestamp - baseline.timestamp <= MinInterval
    ensures TickStatusOf(Some(baseline), Some(current)).severity == Waiting
    ensures NextSlot(Some(baseline), Some(current)) == Some(current)
  {
  }
}
