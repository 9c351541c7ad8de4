/** When a session should leave its transport (src/nnrp/client/transport.py:785-901). */
module MigrationMonitor {
  import opened Outcomes
  import opened Sequences
  import opened Sorting

  datatype Sample = Sample(rtt: nat, throughput: real, timedOut: bool)

  /** What `MigrationTriggerPolicy` accepts. */
  predicate Acceptable(windowSize: nat, consecutive: nat, maxTimeoutRate: real) {
    windowSize > 0 && consecutive > 0 && 0.0 <= maxTimeoutRate <= 1.0
  }

  datatype Policy = Policy(
    windowSize: nat, consecutive: nat, maxTimeoutRate: real, minThroughput: Option<real>,
    maxRtt: Option<nat>, maxJitter: Option<nat>)
  {
    predicate Valid() {
      Acceptable(windowSize, consecutive, maxTimeoutRate)
    }
  }

  datatype Reason = TimeoutRate | Throughput | RoundTrip | Jitter

  datatype Snapshot = Snapshot(
    samples: nat, medianRtt: Option<int>, medianThroughput: Option<real>, jitter: Option<int>, timeoutRate: real,
    reasons: seq<Reason>, consecutive: nat, trigger: bool)

  predicate Answered(s: Sample) {
    !s.timedOut
  }

  predicate TimedOut(s: Sample) {
    s.timedOut
  }

  function RttOf(s: Sample): int {
    s.rtt
  }

  function ThroughputOf(s: Sample): real {
    s.throughput
  }

  predicate Slower(x: real, y: real) {
    x < y
  }

  /** `int(median(values))` for values that are not negative. */
  function IntMedian(values: seq<int>): Option<int> {
    if values == [] then None else Some((Middles(values).0 + Middles(values).1) / 2)
  }

  function RealMedian(values: seq<real>): Option<real> {
    if values == [] then None
    else
      var m := MiddlesBy(values, Slower);
      Some((m.0 + m.1) / 2.0)
  }

  /** The distance of each value from the one before it. */
  function Steps(values: seq<int>): seq<int> {
    if |values| < 2 then []
    else
      var a, b := values[|values| - 2], values[|values| - 1];
      Steps(values[..|values| - 1]) + [if a <= b then b - a else a - b]
  }

  function Rtts(window: seq<Sample>): seq<int> {
    Map(Filter(window, Answered), RttOf)
  }

  function Throughputs(window: seq<Sample>): seq<real> {
    Map(Filter(window, Answered), ThroughputOf)
  }

  function Timeouts(window: seq<Sample>): nat {
    |Filter(window, TimedOut)|
  }

  predicate IsRate(rate: real, window: seq<Sample>) {
    rate * |window| as real == Timeouts(window) as real
  }

  /** Why a full window counts as degraded. */
  predicate Holds(r: Reason, window: seq<Sample>, p: Policy) {
    match r
    case TimeoutRate => Timeouts(window) as real > p.maxTimeoutRate * |window| as real
    case Throughput =>
      var m := RealMedian(Throughputs(window));
      m.Some? && p.minThroughput.Some? && m.value < p.minThroughput.value
    case RoundTrip =>
      var m := IntMedian(Rtts(window));
      m.Some? && p.maxRtt.Some? && m.value > p.maxRtt.value
    case Jitter =>
      var m := IntMedian(Steps(Rtts(window)));
      m.Some? && p.maxJitter.Some? && m.value > p.maxJitter.value
  }

  ghost predicate Degraded(window: seq<Sample>, p: Policy) {
    exists r :: Holds(r, window, p)
  }

  function HoldsIn(window: seq<Sample>, p: Policy): Reason -> bool {
    (r: Reason) => Holds(r, window, p)
  }

  /** The reasons that hold, in the order they are checked. */
  function Reasons(window: seq<Sample>, p: Policy): seq<Reason> {
    Filter([TimeoutRate, Throughput] + [RoundTrip, Jitter], HoldsIn(window, p))
  }

  lemma ReasonsOneByOne(window: seq<Sample>, p: Policy)
    ensures Reasons(window, p) ==
            (if Holds(TimeoutRate, window, p) then [TimeoutRate] else []) +
            (if Holds(Throughput, window, p) then [Throughput] else []) +
            (if Holds(RoundTrip, window, p) then [RoundTrip] else []) +
            (if Holds(Jitter, window, p) then [Jitter] else [])
    ensures Reasons(window, p) != [] <==> Degraded(window, p)
  {
    hide Holds, Filter;
    var h := HoldsIn(window, p);
    FilterTwo(TimeoutRate, Throughput, h);
    FilterTwo(RoundTrip, Jitter, h);
    FilterAppend([TimeoutRate, Throughput], [RoundTrip, Jitter], h);
    FourReasons(window, p);
  }

  lemma FourReasons(window: seq<Sample>, p: Policy)
    ensures Degraded(window, p) <==>
            || Holds(TimeoutRate, window, p) || Holds(Throughput, window, p)
            || Holds(RoundTrip, window, p) || Holds(Jitter, window, p)
  {
    hide Holds;
    if r :| Holds(r, window, p) {
      assert r == TimeoutRate || r == Throughput || r == RoundTrip || r == Jitter;
    }
  }

  lemma FilterTwo<T>(a: T, b: T, keep: T -> bool)
    ensures Filter([a, b], keep) == (if keep(a) then [a] else []) + (if keep(b) then [b] else [])
  {
    assert [a][..0] == [] && [a, b][..1] == [a];
    assert Filter([a], keep) == if keep(a) then [a] else [];
  }

  /** The full window that ended `back` samples ago was degraded. */
  ghost predicate DegradedAgo(history: seq<Sample>, p: Policy, back: nat) {
    back + p.windowSize <= |history| && Degraded(LastOf(history[..|history| - back], p.windowSize), p)
  }

  /** How many full windows in a row, ending now, were degraded. */
  ghost function DegradedRun(history: seq<Sample>, p: Policy): nat {
    if |history| == 0 || |history| < p.windowSize || !Degraded(LastOf(history, p.windowSize), p) then 0
    else DegradedRun(history[..|history| - 1], p) + 1
  }

  /** The run is at least `k` long exactly when each of the last `k` full windows was degraded. */
  lemma {:induction false} RunIff(history: seq<Sample>, p: Policy, k: nat)
    requires p.Valid()
    ensures DegradedRun(history, p) >= k <==> forall back :: 0 <= back < k ==> DegradedAgo(history, p, back)
    decreases |history|
  {
    hide Degraded, LastOf;
    assert history[..|history|] == history;
    if k > 0 {
      if DegradedAgo(history, p, 0) {
        var front := history[..|history| - 1];
        RunIff(front, p, k - 1);
        forall back: nat
          ensures DegradedAgo(front, p, back) <==> DegradedAgo(history, p, back + 1)
        {
          AgoShift(history, p, back);
        }
        if forall back :: 0 <= back < k - 1 ==> DegradedAgo(front, p, back) {
          forall back | 0 <= back < k
            ensures DegradedAgo(history, p, back)
          {
            assert back > 0 ==> DegradedAgo(front, p, back - 1);
          }
        } else {
          var back :| 0 <= back < k - 1 && !DegradedAgo(front, p, back);
          assert !DegradedAgo(history, p, back + 1);
        }
      } else {
        assert DegradedRun(history, p) == 0;
      }
    }
  }

  lemma AgoShift(history: seq<Sample>, p: Policy, back: nat)
    requires history != []
    ensures DegradedAgo(history[..|history| - 1], p, back) <==> DegradedAgo(history, p, back + 1)
  {
    hide Degraded, LastOf;
    if back < |history| {
      assert history[..|history| - 1][..|history| - 1 - back] == history[..|history| - (back + 1)];
    }
  }

  lemma RateMatters(window: seq<Sample>, p: Policy, rate: real)
    requires window != [] && rate == Timeouts(window) as real / |window| as real
    ensures IsRate(rate, window)
    ensures rate > p.maxTimeoutRate <==> Holds(TimeoutRate, window, p)
  {
    hide Timeouts;
    OverRate(Timeouts(window) as real, |window| as real, rate, p.maxTimeoutRate);
  }

  lemma OverRate(count: real, size: real, rate: real, limit: real)
    requires size > 0.0 && rate == count / size
    ensures rate * size == count && (rate > limit <==> count > limit * size)
  {
  }

  lemma FewSteps(values: seq<int>)
    ensures |values| < 2 ==> IntMedian(Steps(values)) == None
  {
  }

  // What the figures are

  /** The median is the middle of the values in ascending order, or the floor of the mean of the two in the middle. */
  lemma IntMedianIs(values: seq<int>, ascending: seq<int>)
    requires Permuted(ascending, values) && forall i, j :: 0 <= i < j < |ascending| ==> ascending[i] <= ascending[j]
    ensures var n := |ascending|;
            IntMedian(values) ==
              if n == 0 then None
              else if n % 2 == 1 then Some(ascending[n / 2])
              else Some((ascending[n / 2 - 1] + ascending[n / 2]) / 2)
  {
    hide Sort;
    PermutedMembers(ascending, values);
    if values != [] {
      SortSorted(values, Below);
      SortPermutes(values, Below);
      SortedUnique(ascending, Sort(values, Below), Below);
    }
  }

  lemma RealMedianIs(values: seq<real>, ascending: seq<real>)
    requires Permuted(ascending, values) && forall i, j :: 0 <= i < j < |ascending| ==> ascending[i] <= ascending[j]
    ensures var n := |ascending|;
            RealMedian(values) ==
              if n == 0 then None
              else if n % 2 == 1 then Some(ascending[n / 2])
              else Some((ascending[n / 2 - 1] + ascending[n / 2]) / 2.0)
  {
    hide Sort;
    PermutedMembers(ascending, values);
    if values != [] {
      SortSorted(values, Slower);
      SortPermutes(values, Slower);
      SortedUnique(ascending, Sort(values, Slower), Slower);
    }
  }

  /** There is one step between any two neighbours, and it is their distance. */
  lemma {:induction false} StepsAt(values: seq<int>)
    ensures |Steps(values)| == if |values| < 2 then 0 else |values| - 1
    ensures forall i :: 0 <= i < |Steps(values)| ==>
              && Steps(values)[i] >= 0
              && (Steps(values)[i] == values[i + 1] - values[i] || Steps(values)[i] == values[i] - values[i + 1])
  {
    if |values| >= 2 {
      StepsAt(values[..|values| - 1]);
    }
  }

  /** Only samples that did not time out have a round-trip time and a throughput; the others are counted. */
  lemma FiguresNext(window: seq<Sample>, s: Sample)
    ensures Rtts([]) == [] && Throughputs([]) == [] && Timeouts([]) == 0
    ensures Rtts(window + [s]) == Rtts(window) + if s.timedOut then [] else [s.rtt]
    ensures Throughputs(window + [s]) == Throughputs(window) + if s.timedOut then [] else [s.throughput]
    ensures Timeouts(window + [s]) == Timeouts(window) + if s.timedOut then 1 else 0
  {
    FilterNext(window, s, Answered);
    FilterNext(window, s, TimedOut);
  }

  class MigrationTriggerMonitor {
    const policy: Policy
    var samples: seq<Sample>
    var consecutive: nat
    ghost var history: seq<Sample>

    /** The state is a function of the history. */
    ghost predicate Valid()
      reads this
    {
      policy.Valid() && samples == LastOf(history, policy.windowSize) && consecutive == DegradedRun(history, policy)
    }

    constructor (policy: Policy)
      requires policy.Valid()
      ensures Valid() && this.policy == policy && history == []
    {
      this.policy := policy;
      samples, consecutive, history := [], 0, [];
    }

    /** Compares the figures of a full window with the policy. */
    method CheckWindow(medianRtt: Option<int>, medianThroughput: Option<real>, jitter: Option<int>, rate: real)
      returns (reasons: seq<Reason>)
      requires medianRtt == IntMedian(Rtts(samples)) && medianThroughput == RealMedian(Throughputs(samples))
      requires jitter == IntMedian(Steps(Rtts(samples)))
      requires rate > policy.maxTimeoutRate <==> Holds(TimeoutRate, samples, policy)
      ensures reasons == Reasons(samples, policy)
      ensures reasons ==
              (if rate > policy.maxTimeoutRate then [TimeoutRate] else [])
              + (if medianThroughput.Some? && policy.minThroughput.Some?
                    && medianThroughput.value < policy.minThroughput.value then [Throughput] else [])
              + (if medianRtt.Some? && policy.maxRtt.Some? && medianRtt.value > policy.maxRtt.value then [RoundTrip]
                 else [])
              + (if jitter.Some? && policy.maxJitter.Some? && jitter.value > policy.maxJitter.value then [Jitter]
                 else [])
    {
      hide Filter, IntMedian, RealMedian, Steps, Reasons;
      reasons := [];
      if rate > policy.maxTimeoutRate {
        reasons := reasons + [TimeoutRate];
      }
      if && policy.minThroughput.Some? && medianThroughput.Some?
         && medianThroughput.value < policy.minThroughput.value {
        reasons := reasons + [Throughput];
      }
      if policy.maxRtt.Some? && medianRtt.Some? && medianRtt.value > policy.maxRtt.value {
        reasons := reasons + [RoundTrip];
      }
      if policy.maxJitter.Some? && jitter.Some? && jitter.value > policy.maxJitter.value {
        reasons := reasons + [Jitter];
      }
      ReasonsOneByOne(samples, policy);
    }

    /** `_snapshot`, after the window took the latest sample but before the counter did. */
    method TakeSnapshot() returns (s: Snapshot)
      requires policy.Valid() && history != [] && samples == LastOf(history, policy.windowSize)
      requires consecutive == DegradedRun(history[..|history| - 1], policy)
      modifies this`consecutive
      ensures consecutive == DegradedRun(history, policy)
      ensures |history| < policy.windowSize ==> s == Snapshot(|history|, None, None, None, 0.0, [], 0, false)
      ensures |history| >= policy.windowSize ==> Reports(s) && Explains(s)
    {
      hide Filter, Holds, IntMedian, RealMedian, Steps, Degraded, Reasons, IsRate, Timeouts, Rtts, Throughputs;
      if |samples| < policy.windowSize {
        return Snapshot(|samples|, None, None, None, 0.0, [], consecutive, false);
      }
      var timeouts := Timeouts(samples);
      var rtts, throughputs := Rtts(samples), Throughputs(samples);
      var medianRtt, medianThroughput := IntMedian(rtts), RealMedian(throughputs);
      var jitter := if |rtts| >= 2 then IntMedian(Steps(rtts)) else None;
      FewSteps(rtts);
      var rate := timeouts as real / |samples| as real;
      RateMatters(samples, policy, rate);
      var reasons := CheckWindow(medianRtt, medianThroughput, jitter, rate);
      ReasonsOneByOne(samples, policy);
      if reasons != [] {
        consecutive := consecutive + 1;
      } else {
        consecutive := 0;
      }
      s := Snapshot(|samples|, medianRtt, medianThroughput, jitter, rate, reasons, consecutive,
                    consecutive >= policy.consecutive);
    }

    /** What the snapshot of a full window says. */
    ghost predicate Reports(s: Snapshot)
      reads this
    {
      && s.samples == |samples| && s.consecutive == consecutive
      && s.trigger == (consecutive >= policy.consecutive)
      && s.medianRtt == IntMedian(Rtts(samples)) && s.medianThroughput == RealMedian(Throughputs(samples))
      && s.jitter == IntMedian(Steps(Rtts(samples)))
      && IsRate(s.timeoutRate, samples)
      && s.reasons == Reasons(samples, policy)
    }

    /** The reasons are the figures beyond their limits: timeouts, throughput, round-trip time and jitter, in order. */
    ghost predicate Explains(s: Snapshot) {
      s.reasons ==
        (if s.timeoutRate > policy.maxTimeoutRate then [TimeoutRate] else [])
        + (if s.medianThroughput.Some? && policy.minThroughput.Some?
              && s.medianThroughput.value < policy.minThroughput.value then [Throughput] else [])
        + (if s.medianRtt.Some? && policy.maxRtt.Some? && s.medianRtt.value > policy.maxRtt.value then [RoundTrip]
           else [])
        + (if s.jitter.Some? && policy.maxJitter.Some? && s.jitter.value > policy.maxJitter.value then [Jitter]
           else [])
    }

    /** `observe`. It triggers exactly when the last `consecutive` full windows were all degraded. */
    method Observe(sample: Sample) returns (s: Snapshot)
      requires Valid()
      modifies this
      ensures Valid() && history == old(history) + [sample]
      ensures s.trigger <==> forall back :: 0 <= back < policy.consecutive ==> DegradedAgo(history, policy, back)
      ensures |history| < policy.windowSize ==> s == Snapshot(|history|, None, None, None, 0.0, [], 0, false)
      ensures |history| >= policy.windowSize ==> Reports(s) && Explains(s)
      ensures samples == history[if |history| < policy.windowSize then 0 else |history| - policy.windowSize..]
    {
      ghost var past := history;
      samples := samples + [sample];
      if |samples| > policy.windowSize {
        samples := samples[1..];
      }
      history := history + [sample];
      assert samples == LastOf(history, policy.windowSize);
      assert history[..|history| - 1] == past;
      s := TakeSnapshot();
      RunIff(history, policy, policy.consecutive);
    }
  }
}
