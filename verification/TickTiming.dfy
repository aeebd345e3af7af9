/** The manager's ticker (pkg/manager/manager.go) over timed collections: an exact ticker, and
    recording and storing that take no time. */
module TickTiming {
  import opened Wrappers
  import opened MetricsTypes
  import opened CollectProtocol
  import opened CollectRuns
  import opened CollectTiming
  import Manager

  /** The manager's clock counts nanoseconds, the collection's milliseconds. */
  const MS := 1_000_000

  /** A tick as the loop runs it, in milliseconds: the index of the ticker's signal (0 stands
      for the first collection), when Collect is called and when it returns. */
  datatype Span = Span(index: nat, begin: int, end: int, o: seq<Outcome>, provErr: Option<Error>)

  /** The ticker is created together with the first collection and signals every resolution. */
  function Due(created: int, resolution: nat, index: nat): int { created + index * resolution }

  /** The scrape timeout is 90% of the resolution, and the context handed on ends after one. */
  ghost predicate CollectsFor(resolution: nat, s: Span) {
    exists t: Timing, actions, end ::
      && t.start == s.begin && t.scrapeTimeout == 9 * resolution / 10 && t.parentTimeout == resolution
      && Honoured(|s.o|, t) && TimedRun(s.o, s.provErr, t, actions, end) && end.s.collector.Returned?
      && s.end == end.now
  }

  /** The ticker's channel holds one signal and drops the others. The next tick handles the
      first signal since the previous one was taken, at once or when Collect has returned. */
  predicate Follows(created: int, resolution: nat, prev: Span, next: Span) {
    && prev.index < next.index
    && prev.begin <= Due(created, resolution, next.index) <= prev.begin + resolution
    && next.begin == Max(prev.end, Due(created, resolution, next.index))
  }

  /** The loop from its creation on, with n sources at every tick */
  ghost predicate Loop(created: int, resolution: nat, n: nat, spans: seq<Span>) {
    && spans != [] && spans[0].index == 0 && spans[0].begin == created
    && (forall k :: 0 <= k < |spans| ==> |spans[k].o| == n && CollectsFor(resolution, spans[k]))
    && (forall k :: 0 < k < |spans| ==> Follows(created, resolution, spans[k - 1], spans[k]))
  }

  /** What the manager is told at a tick: the instant of the signal and what the sources give */
  function TickOf(created: int, resolution: nat, s: Span): Manager.Tick {
    Manager.Tick(MS * Due(created, resolution, s.index), s.o, s.provErr)
  }

  /** The manager's history while tick k runs, or after it and before the next one begins */
  ghost predicate HistoryAt(h: seq<Manager.Event>, created: int, resolution: nat, spans: seq<Span>, k: nat)
    requires k < |spans|
  {
    var ticks := seq(k + 1, j requires 0 <= j < |spans| => TickOf(created, resolution, spans[j]));
    Manager.Records(h, ticks) || exists e :: Manager.Records(h + [e], ticks)
  }

  /** Tick k is the last one begun at the instant now, in nanoseconds */
  predicate DuringTick(spans: seq<Span>, k: nat, now: Time) {
    k + 1 < |spans| && MS * spans[k].begin <= now <= MS * spans[k + 1].begin
  }

  /** The last start in the history is the signal of tick k */
  lemma LastStartIs(h: seq<Manager.Event>, created: int, resolution: nat, spans: seq<Span>, k: nat)
    requires k < |spans| && HistoryAt(h, created, resolution, spans, k)
    ensures Manager.LastStart(h, 2 * k) && h[2 * k].time == MS * Due(created, resolution, spans[k].index)
  {
    var ticks := seq(k + 1, j requires 0 <= j < |spans| => TickOf(created, resolution, spans[j]));
    if Manager.Records(h, ticks) {
      assert Manager.Recorded(h[2 * k], h[2 * k + 1], ticks[k]);
    } else {
      var e :| Manager.Records(h + [e], ticks);
      assert Manager.Recorded((h + [e])[2 * k], (h + [e])[2 * k + 1], ticks[k]);
    }
  }

  /** So the health check answers Stale exactly if that signal lies more than 1.1 resolutions back. */
  lemma OverdueAt(h: seq<Manager.Event>, created: int, resolution: nat, spans: seq<Span>, k: nat, now: Time)
    requires k < |spans| && HistoryAt(h, created, resolution, spans, k)
    ensures Manager.Overdue(h, MS * resolution, now)
       <==> 10 * (now - MS * Due(created, resolution, spans[k].index)) > 11 * (MS * resolution)
  {
    LastStartIs(h, created, resolution, spans, k);
    assert forall j :: Manager.LastStart(h, j) ==> j == 2 * k;
  }

  /** No health check on the loop ever answers Stale, whatever the delays, the durations, the
      interleavings and the instant of the check */
  ghost predicate NeverStale(resolution: nat, n: nat) {
    forall created, spans, k: nat, now, h ::
      Loop(created, resolution, n, spans) && DuringTick(spans, k, now) && HistoryAt(h, created, resolution, spans, k)
      ==> !Manager.Overdue(h, MS * resolution, now)
  }

  // ----- a resolution of at least the longest delay -----

  lemma SpanFits(resolution: nat, s: Span)
    requires CollectsFor(resolution, s) && resolution >= DelayMs(|s.o|) - 1
    ensures s.begin <= s.end <= s.begin + resolution
    ensures s.end <= s.begin + 9 * resolution / 10 || s.end < s.begin + DelayMs(|s.o|)
  {
    var t: Timing, actions, end :|
      && t.start == s.begin && t.scrapeTimeout == 9 * resolution / 10 && t.parentTimeout == resolution
      && Honoured(|s.o|, t) && TimedRun(s.o, s.provErr, t, actions, end) && end.s.collector.Returned?
      && s.end == end.now;
    CompletionTime(s.o, s.provErr, t, actions, end);
    if s.o != [] {
      CollectionDeadline(s.o, s.provErr, t, actions, end);
    }
  }

  lemma {:induction false} SignalsApart(created: int, resolution: nat, i: nat, j: nat)
    requires i < j
    ensures Due(created, resolution, j) >= Due(created, resolution, i) + resolution
    decreases j
  {
    assert j * resolution == (j - 1) * resolution + resolution;
    if j > i + 1 {
      SignalsApart(created, resolution, i, j - 1);
    }
  }

  /** Every tick begins with its signal, one resolution after the previous one */
  lemma {:induction false} OnTime(created: int, resolution: nat, n: nat, spans: seq<Span>, k: nat)
    requires Loop(created, resolution, n, spans) && resolution >= DelayMs(n) - 1 && k < |spans|
    ensures spans[k].begin == Due(created, resolution, spans[k].index)
    ensures spans[0].begin == created && (k > 0 ==> spans[k].begin == spans[k - 1].begin + resolution)
    ensures spans[k].end <= spans[k].begin + 9 * resolution / 10 || spans[k].end < spans[k].begin + DelayMs(n)
  {
    SpanFits(resolution, spans[k]);
    if k > 0 {
      OnTime(created, resolution, n, spans, k - 1);
      SpanFits(resolution, spans[k - 1]);
      SignalsApart(created, resolution, spans[k - 1].index, spans[k].index);
    }
  }

  // ----- a shorter one -----

  /** A collection in which every source sleeps for the longest delay */
  lemma SlowSpan(resolution: nat, s: Span)
    requires s.o != [] && s.end == s.begin + DelayMs(|s.o|) - 1
    ensures CollectsFor(resolution, s)
  {
    var n, sleep := |s.o|, DelayMs(|s.o|) - 1;
    var t := Timing(s.begin, 9 * resolution / 10, resolution, seq(n, _ => sleep), seq(n, _ => 0));
    var actions, end := UniformRun(s.o, s.provErr, t, sleep, 0);
    assert Honoured(n, t);
  }

  /** Tick j begins j times lag after its signal and takes lag longer than the resolution */
  predicate LateSpan(created: int, resolution: nat, lag: nat, s: Span, j: nat) {
    && s.index == j && s.begin == Due(created, resolution, j) + j * lag
    && s.end == s.begin + resolution + lag
  }

  lemma LateFollows(created: int, resolution: nat, lag: nat, prev: Span, next: Span, j: nat)
    requires LateSpan(created, resolution, lag, prev, j) && LateSpan(created, resolution, lag, next, j + 1)
    requires j * lag <= resolution
    ensures Follows(created, resolution, prev, next)
  {
    assert (j + 1) * lag == j * lag + lag && (j + 1) * resolution == j * resolution + resolution;
    assert j * lag >= 0;
  }

  lemma LoopExtends(created: int, resolution: nat, n: nat, spans: seq<Span>, s: Span)
    requires Loop(created, resolution, n, spans) && |s.o| == n && CollectsFor(resolution, s)
    requires Follows(created, resolution, spans[|spans| - 1], s)
    ensures Loop(created, resolution, n, spans + [s])
  {
  }

  /** If every collection takes lag longer than the resolution, every tick is late by lag more
      than the one before, until a signal is dropped. */
  lemma {:induction false} Lagging(created: int, resolution: nat, o: seq<Outcome>, lag: nat, m: nat)
    returns (spans: seq<Span>)
    requires o != [] && resolution + lag == DelayMs(|o|) - 1
    requires forall j: nat :: j < m ==> j * lag <= resolution
    ensures Loop(created, resolution, |o|, spans) && |spans| == m + 1
    ensures forall j :: 0 <= j <= m ==> LateSpan(created, resolution, lag, spans[j], j)
  {
    var begin := Due(created, resolution, m) + m * lag;
    var s := Span(m, begin, begin + resolution + lag, o, None);
    SlowSpan(resolution, s);
    if m == 0 {
      return [s];
    }
    spans := Lagging(created, resolution, o, lag, m - 1);
    LateFollows(created, resolution, lag, spans[m - 1], s, m - 1);
    LoopExtends(created, resolution, |o|, spans, s);
    spans := spans + [s];
  }

  lemma {:induction false} RecordsExist(ticks: seq<Manager.Tick>) returns (h: seq<Manager.Event>)
    ensures Manager.Records(h, ticks)
  {
    if ticks == [] {
      return [];
    }
    var front, tick := ticks[..|ticks| - 1], ticks[|ticks| - 1];
    var before := RecordsExist(front);
    var actions, t := RunInOrder(tick.o, tick.provErr, Upto(|tick.o|), Upto(|tick.o|));
    h := before + [Manager.TickStart(tick.time)] + [Manager.TickEnd(NewAggregate(t.errs), |t.nodes|, None)];
    Manager.TickedBy(before, h, MetricsBatch(t.nodes, t.pods), tick, actions, t);
    Manager.TickedRecords(before, h, MetricsBatch(t.nodes, t.pods), front, tick);
    assert ticks == front + [tick];
  }

  lemma HistoryExists(created: int, resolution: nat, spans: seq<Span>, k: nat) returns (h: seq<Manager.Event>)
    requires k < |spans|
    ensures HistoryAt(h, created, resolution, spans, k)
  {
    h := RecordsExist(seq(k + 1, j requires 0 <= j < |spans| => TickOf(created, resolution, spans[j])));
  }

  lemma NotStaleOnTime(created: int, resolution: nat, n: nat, spans: seq<Span>, k: nat, now: Time,
                       h: seq<Manager.Event>)
    requires Loop(created, resolution, n, spans) && DuringTick(spans, k, now)
    requires HistoryAt(h, created, resolution, spans, k) && resolution >= DelayMs(n) - 1
    ensures !Manager.Overdue(h, MS * resolution, now)
  {
    OnTime(created, resolution, n, spans, k);
    OnTime(created, resolution, n, spans, k + 1);
    OverdueAt(h, created, resolution, spans, k, now);
  }

  /** k lags are at most a tenth of the resolution, k + 1 are more */
  lemma TenthReached(resolution: nat, lag: nat) returns (k: nat)
    requires lag > 0
    ensures 10 * (k * lag) <= resolution < 10 * ((k + 1) * lag)
    ensures forall j: nat :: j <= k ==> j * lag <= resolution
  {
    k := resolution / (10 * lag);
    assert resolution == (10 * lag) * k + resolution % (10 * lag);
    forall j: nat | j <= k ensures j * lag <= resolution {
      assert (k - j) * lag >= 0 && k * lag == j * lag + (k - j) * lag;
    }
  }

  /** Just before tick k + 1 the signal of tick k lies a resolution and k + 1 lags back */
  lemma StaleBeforeNext(resolution: nat, lag: nat, spans: seq<Span>, k: nat, h: seq<Manager.Event>)
    requires k + 1 < |spans| && HistoryAt(h, 0, resolution, spans, k)
    requires LateSpan(0, resolution, lag, spans[k], k) && LateSpan(0, resolution, lag, spans[k + 1], k + 1)
    requires resolution < 10 * ((k + 1) * lag)
    ensures Manager.Overdue(h, MS * resolution, MS * spans[k + 1].begin)
    ensures DuringTick(spans, k, MS * spans[k + 1].begin)
  {
    OverdueAt(h, 0, resolution, spans, k, MS * spans[k + 1].begin);
    assert (k + 1) * resolution == k * resolution + resolution;
    assert (k + 1) * lag == k * lag + lag;
    assert spans[k + 1].begin - Due(0, resolution, k) == resolution + (k + 1) * lag;
    assert spans[k + 1].begin - spans[k].begin == resolution + lag;
  }

  /** With a shorter resolution the delays add up until a check just before some tick comes too late. */
  lemma StaleCheck(resolution: nat, n: nat)
    requires 0 < resolution < DelayMs(n) - 1
    ensures !NeverStale(resolution, n)
  {
    var lag := DelayMs(n) - 1 - resolution;
    var k := TenthReached(resolution, lag);
    var spans := Lagging(0, resolution, seq(n, _ => Outcome("", None, None)), lag, k + 1);
    var h := HistoryExists(0, resolution, spans, k);
    StaleBeforeNext(resolution, lag, spans, k, h);
    assert Loop(0, resolution, n, spans);
  }

  /** Over all runs of the loop no check answers Stale if and only if the resolution is at least
      the longest stagger delay. */
  lemma NeverStaleExactly(resolution: nat, n: nat)
    requires resolution > 0
    ensures NeverStale(resolution, n) <==> resolution >= (if 8 * n <= 4000 then 8 * n else 4000) - 1
  {
    DelayExactly(n);
    if resolution >= DelayMs(n) - 1 {
      forall created, spans, k: nat, now, h |
        Loop(created, resolution, n, spans) && DuringTick(spans, k, now) && HistoryAt(h, created, resolution, spans, k)
        ensures !Manager.Overdue(h, MS * resolution, now)
      {
        NotStaleOnTime(created, resolution, n, spans, k, now, h);
      }
    } else {
      StaleCheck(resolution, n);
    }
  }
}
