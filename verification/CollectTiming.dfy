/** Timed runs of the collection protocol (pkg/sources/manager.go): staggered starts,
    shortened scrape timeouts, and time that only passes when nothing else can happen. */
module CollectTiming {
  import opened Wrappers
  import opened MetricsTypes
  import opened CollectProtocol
  import opened CollectRuns

  const MAX_DELAY_MS := 4 * 1000
  const DELAY_PER_SOURCE_MS := 8

  function Min(a: int, b: int): int { if a < b then a else b }
  function Max(a: int, b: int): int { if a < b then b else a }

  /** The exclusive bound handed to rand.Intn */
  function DelayMs(n: nat): int {
    var delayMs := DELAY_PER_SOURCE_MS * n;
    if delayMs > MAX_DELAY_MS then MAX_DELAY_MS else delayMs
  }

  /** Eight milliseconds for each source, four seconds at most */
  lemma DelayExactly(n: nat)
    ensures DelayMs(n) == if 8 * n <= 4000 then 8 * n else 4000
  {
  }

  /** All times in milliseconds. scrapeTimeout and parentTimeout count from start;
      sleeps are the random delays, durations what each source's Collect takes. */
  datatype Timing = Timing(start: int, scrapeTimeout: int, parentTimeout: int,
                           sleeps: seq<int>, durations: seq<int>)
  {
    function Ready(i: nat): int
      requires i < |sleeps| && i < |durations|
    {
      start + sleeps[i] + durations[i]
    }
  }

  /** The delays are drawn below the bound. The context handed to a source ends
      scrapeTimeout - sleep after its wake-up, or with the parent context if that is sooner;
      a source whose context has already ended returns at once. */
  ghost predicate Honoured(n: nat, t: Timing) {
    && |t.sleeps| == n && |t.durations| == n
    && (forall i :: 0 <= i < n ==> 0 <= t.sleeps[i] < DelayMs(n))
    && (forall i :: 0 <= i < n ==>
          0 <= t.durations[i]
               <= Max(0, Min(t.scrapeTimeout - t.sleeps[i], t.parentTimeout - t.sleeps[i])))
  }

  datatype TimedState = TimedState(s: State, now: int)
  datatype TimedAction = Act(a: Action) | Tick

  ghost predicate ActEnabled(o: seq<Outcome>, t: Timing, ts: TimedState, a: Action) {
    && |t.sleeps| == |t.durations| == |o|
    && Enabled(o, ts.s, a)
    && (a.Scrape? ==> t.Ready(a.worker) <= ts.now)
  }

  ghost predicate TimedEnabled(o: seq<Outcome>, t: Timing, ts: TimedState, a: TimedAction) {
    match a
    case Act(b) => ActEnabled(o, t, ts, b)
    case Tick => !ts.s.collector.Returned? && forall b :: !ActEnabled(o, t, ts, b)
  }

  function TimedNext(o: seq<Outcome>, ts: TimedState, a: TimedAction): TimedState
    requires a.Act? ==> Enabled(o, ts.s, a.a)
  {
    match a
    case Act(b) => ts.(s := Next(o, ts.s, b))
    case Tick => ts.(now := ts.now + 1)
  }

  ghost predicate TimedReaches(o: seq<Outcome>, t: Timing, ts: TimedState, actions: seq<TimedAction>, end: TimedState)
    decreases |actions|
  {
    if actions == [] then ts == end
    else TimedEnabled(o, t, ts, actions[0])
         && TimedReaches(o, t, TimedNext(o, ts, actions[0]), actions[1..], end)
  }

  ghost predicate TimedRun(o: seq<Outcome>, provErr: Option<Error>, t: Timing,
                           actions: seq<TimedAction>, end: TimedState)
  {
    TimedReaches(o, t, TimedState(Init(o, provErr), t.start), actions, end)
  }

  /** The last instant at which some source returns; start if there is no source */
  function Latest(t: Timing, n: nat): int
    requires n <= |t.sleeps| && n <= |t.durations|
  {
    if n == 0 then t.start else Max(t.Ready(n - 1), Latest(t, n - 1))
  }

  lemma {:induction false} LatestBounds(t: Timing, n: nat)
    requires n <= |t.sleeps| && n <= |t.durations|
    ensures t.start <= Latest(t, n)
    ensures forall i: nat :: i < n ==> t.Ready(i) <= Latest(t, n)
    ensures Latest(t, n) == t.start || exists i: nat :: i < n && t.Ready(i) == Latest(t, n)
  {
    if n > 0 {
      LatestBounds(t, n - 1);
    }
  }

  /** A worker that has scraped did so no earlier than its source returned */
  ghost predicate NotBefore(n: nat, t: Timing, ts: TimedState) {
    && |t.sleeps| == |t.durations| == |ts.s.workers| == n
    && forall i: nat :: i < n ==>
         ts.s.workers[i].NotStarted? || ts.s.workers[i].Scraping? || t.Ready(i) <= ts.now
  }

  ghost predicate TimedInv(o: seq<Outcome>, provErr: Option<Error>, t: Timing, ts: TimedState,
                           batchOrder: seq<nat>, errorOrder: seq<nat>)
  {
    && |t.sleeps| == |t.durations| == |o|
    && Inv(o, provErr, ts.s, batchOrder, errorOrder)
    && t.start <= ts.now <= Latest(t, |o|)
    && NotBefore(|o|, t, ts)
  }

  /** Once all sources are back, something other than waiting is possible until the end */
  lemma SomeAction(o: seq<Outcome>, provErr: Option<Error>, t: Timing, ts: TimedState,
                   batchOrder: seq<nat>, errorOrder: seq<nat>)
    returns (a: Action)
    requires TimedInv(o, provErr, t, ts, batchOrder, errorOrder)
    requires !ts.s.collector.Returned? && ts.now >= Latest(t, |o|)
    ensures ActEnabled(o, t, ts, a)
  {
    var bs := CompleteOrder(|o|, batchOrder);
    var es := CompleteOrder(|o|, errorOrder);
    a := Schedule(o, provErr, ts.s, batchOrder, errorOrder, bs, es);
    LatestBounds(t, |o|);
  }

  /** Time passes only while some source is still out */
  lemma TickMeansWaiting(o: seq<Outcome>, provErr: Option<Error>, t: Timing, ts: TimedState,
                         batchOrder: seq<nat>, errorOrder: seq<nat>)
    requires TimedInv(o, provErr, t, ts, batchOrder, errorOrder) && TimedEnabled(o, t, ts, Tick)
    ensures ts.now < Latest(t, |o|)
  {
    if ts.now >= Latest(t, |o|) {
      var a := SomeAction(o, provErr, t, ts, batchOrder, errorOrder);
    }
  }

  lemma ActKeepsTimes(o: seq<Outcome>, t: Timing, ts: TimedState, a: Action)
    requires NotBefore(|o|, t, ts) && ActEnabled(o, t, ts, a)
    ensures NotBefore(|o|, t, TimedNext(o, ts, Act(a)))
  {
  }

  lemma TimedStepKeepsInv(o: seq<Outcome>, provErr: Option<Error>, t: Timing, ts: TimedState,
                          batchOrder: seq<nat>, errorOrder: seq<nat>, a: TimedAction)
    returns (batchOrder': seq<nat>, errorOrder': seq<nat>)
    requires TimedInv(o, provErr, t, ts, batchOrder, errorOrder) && TimedEnabled(o, t, ts, a)
    ensures TimedInv(o, provErr, t, TimedNext(o, ts, a), batchOrder', errorOrder')
    ensures a.Act? ==> Remaining(|o|, TimedNext(o, ts, a).s) == Remaining(|o|, ts.s) - 1
  {
    match a {
      case Act(b) =>
        batchOrder', errorOrder' := BatchOrder(batchOrder, b), ErrorOrder(errorOrder, b);
        StepKeepsInv(o, provErr, ts.s, batchOrder, errorOrder, b);
        StepCountsDown(o, provErr, ts.s, batchOrder, errorOrder, b);
        ActKeepsTimes(o, t, ts, b);
      case Tick =>
        batchOrder', errorOrder' := batchOrder, errorOrder;
        TickMeansWaiting(o, provErr, t, ts, batchOrder, errorOrder);
    }
  }

  lemma {:induction false} TimedRunKeepsInv(o: seq<Outcome>, provErr: Option<Error>, t: Timing, ts: TimedState,
                                            batchOrder: seq<nat>, errorOrder: seq<nat>,
                                            actions: seq<TimedAction>, end: TimedState)
    returns (batchOrder': seq<nat>, errorOrder': seq<nat>)
    requires TimedInv(o, provErr, t, ts, batchOrder, errorOrder) && TimedReaches(o, t, ts, actions, end)
    ensures TimedInv(o, provErr, t, end, batchOrder', errorOrder')
    decreases |actions|
  {
    if actions == [] {
      return batchOrder, errorOrder;
    }
    var bs, es := TimedStepKeepsInv(o, provErr, t, ts, batchOrder, errorOrder, actions[0]);
    batchOrder', errorOrder' := TimedRunKeepsInv(o, provErr, t, TimedNext(o, ts, actions[0]), bs, es, actions[1..], end);
  }

  lemma TimedInvInitially(o: seq<Outcome>, provErr: Option<Error>, t: Timing)
    requires |t.sleeps| == |t.durations| == |o|
    ensures TimedInv(o, provErr, t, TimedState(Init(o, provErr), t.start), [], [])
  {
    InvInitially(o, provErr);
    LatestBounds(t, |o|);
  }

  lemma DoneAtLatest(o: seq<Outcome>, provErr: Option<Error>, t: Timing, ts: TimedState,
                     batchOrder: seq<nat>, errorOrder: seq<nat>)
    requires TimedInv(o, provErr, t, ts, batchOrder, errorOrder) && ts.s.collector.Returned?
    ensures ts.now == Latest(t, |o|)
  {
    AllFinished(o, provErr, ts.s, batchOrder, errorOrder);
    LatestBounds(t, |o|);
    assert forall i: nat :: i < |o| ==> t.Ready(i) <= ts.now;
  }

  lemma TimedRunInv(o: seq<Outcome>, provErr: Option<Error>, t: Timing, actions: seq<TimedAction>, end: TimedState)
    returns (batchOrder: seq<nat>, errorOrder: seq<nat>)
    requires |t.sleeps| == |t.durations| == |o| && TimedRun(o, provErr, t, actions, end)
    ensures TimedInv(o, provErr, t, end, batchOrder, errorOrder)
  {
    TimedInvInitially(o, provErr, t);
    batchOrder, errorOrder :=
      TimedRunKeepsInv(o, provErr, t, TimedState(Init(o, provErr), t.start), [], [], actions, end);
  }

  /** A complete timed run ends exactly when its last source has slept and returned */
  lemma CompletionTime(o: seq<Outcome>, provErr: Option<Error>, t: Timing,
                       actions: seq<TimedAction>, end: TimedState)
    requires |t.sleeps| == |t.durations| == |o|
    requires TimedRun(o, provErr, t, actions, end) && end.s.collector.Returned?
    ensures end.now == Latest(t, |o|)
    ensures forall i: nat :: i < |o| ==> t.start + t.sleeps[i] + t.durations[i] <= end.now
    ensures end.now == t.start || exists i: nat :: i < |o| && end.now == t.start + t.sleeps[i] + t.durations[i]
    ensures t.start <= end.now
  {
    var bs, es := TimedRunInv(o, provErr, t, actions, end);
    DoneAtLatest(o, provErr, t, end, bs, es);
    LatestBounds(t, |o|);
    assert forall i: nat :: i < |o| ==> t.Ready(i) == t.start + t.sleeps[i] + t.durations[i];
  }

  lemma {:induction false} CanFinish(o: seq<Outcome>, provErr: Option<Error>, t: Timing, ts: TimedState,
                                     batchOrder: seq<nat>, errorOrder: seq<nat>)
    returns (actions: seq<TimedAction>, end: TimedState)
    requires TimedInv(o, provErr, t, ts, batchOrder, errorOrder)
    ensures TimedReaches(o, t, ts, actions, end) && end.s.collector.Returned?
    decreases Latest(t, |o|) - ts.now + Remaining(|o|, ts.s)
  {
    RemainingBounds(o, provErr, ts.s, batchOrder, errorOrder);
    if ts.s.collector.Returned? {
      return [], ts;
    }
    var a := Tick;
    if b :| ActEnabled(o, t, ts, b) {
      a := Act(b);
    } else {
      TickMeansWaiting(o, provErr, t, ts, batchOrder, errorOrder);
    }
    var bs, es := TimedStepKeepsInv(o, provErr, t, ts, batchOrder, errorOrder, a);
    RemainingBounds(o, provErr, TimedNext(o, ts, a).s, bs, es);
    var rest;
    rest, end := CanFinish(o, provErr, t, TimedNext(o, ts, a), bs, es);
    actions := [a] + rest;
    assert actions[1..] == rest;
  }

  lemma HonouredLatest(n: nat, t: Timing)
    requires Honoured(n, t) && n > 0
    ensures Latest(t, n) <= t.start + Max(Min(t.scrapeTimeout, t.parentTimeout), DelayMs(n) - 1)
  {
    LatestBounds(t, n);
    assert forall i: nat :: i < n ==>
      t.Ready(i) <= t.start + Max(Min(t.scrapeTimeout, t.parentTimeout), DelayMs(n) - 1);
  }

  /** A collection begun at start is over by the effective deadline, or by the longest
      possible stagger delay if that is later; the stagger bound lies in [8, 4000]. */
  lemma CollectionDeadline(o: seq<Outcome>, provErr: Option<Error>, t: Timing,
                           actions: seq<TimedAction>, end: TimedState)
    requires Honoured(|o|, t) && TimedRun(o, provErr, t, actions, end) && o != []
    ensures 8 <= DelayMs(|o|) <= 4000
    ensures end.now <= t.start + Max(Min(t.scrapeTimeout, t.parentTimeout), DelayMs(|o|) - 1)
    ensures end.now <= t.start + Max(t.scrapeTimeout, 3999)
    ensures (end.now <= t.start + t.scrapeTimeout && end.now <= t.start + t.parentTimeout)
            || end.now < t.start + (if 8 * |o| <= 4000 then 8 * |o| else 4000)
  {
    var bs, es := TimedRunInv(o, provErr, t, actions, end);
    HonouredLatest(|o|, t);
  }

  /** Every honoured collection begun at start is over by start + bound */
  ghost predicate AlwaysWithin(o: seq<Outcome>, provErr: Option<Error>, start: int,
                               scrapeTimeout: int, parentTimeout: int, bound: int)
  {
    forall t: Timing, actions, end ::
      t.start == start && t.scrapeTimeout == scrapeTimeout && t.parentTimeout == parentTimeout
      && Honoured(|o|, t) && TimedRun(o, provErr, t, actions, end) && end.s.collector.Returned?
      ==> end.now <= start + bound
  }

  lemma UniformLatest(t: Timing, n: nat, sleep: int, duration: int)
    requires n > 0 && sleep >= 0 && duration >= 0
    requires t.sleeps == seq(n, _ => sleep) && t.durations == seq(n, _ => duration)
    ensures Latest(t, n) == t.start + sleep + duration
  {
    LatestBounds(t, n);
    assert forall i: nat :: i < n ==> t.Ready(i) == t.start + sleep + duration;
    assert t.Ready(0) <= Latest(t, n);
  }

  /** If every source sleeps and collects equally long, that is how long the collection takes */
  lemma UniformRun(o: seq<Outcome>, provErr: Option<Error>, t: Timing, sleep: int, duration: int)
    returns (actions: seq<TimedAction>, end: TimedState)
    requires o != [] && sleep >= 0 && duration >= 0
    requires t.sleeps == seq(|o|, _ => sleep) && t.durations == seq(|o|, _ => duration)
    ensures TimedRun(o, provErr, t, actions, end) && end.s.collector.Returned?
    ensures end.now == t.start + sleep + duration
  {
    TimedInvInitially(o, provErr, t);
    actions, end := CanFinish(o, provErr, t, TimedState(Init(o, provErr), t.start), [], []);
    CompletionTime(o, provErr, t, actions, end);
    UniformLatest(t, |o|, sleep, duration);
  }

  /** The exact worst case over all delays and honoured durations: the effective deadline or
      the longest possible delay, whichever is later */
  lemma WorstCaseExactly(o: seq<Outcome>, provErr: Option<Error>, start: int,
                         scrapeTimeout: int, parentTimeout: int, bound: int)
    requires o != []
    ensures AlwaysWithin(o, provErr, start, scrapeTimeout, parentTimeout, bound)
       <==> (bound >= scrapeTimeout || bound >= parentTimeout)
            && bound >= (if 8 * |o| <= 4000 then 8 * |o| else 4000) - 1
  {
    DelayExactly(|o|);
    var n, deadline := |o|, Min(scrapeTimeout, parentTimeout);
    if bound >= Max(deadline, DelayMs(n) - 1) {
      forall t: Timing, actions, end |
        t.start == start && t.scrapeTimeout == scrapeTimeout && t.parentTimeout == parentTimeout
        && Honoured(|o|, t) && TimedRun(o, provErr, t, actions, end) && end.s.collector.Returned?
        ensures end.now <= start + bound
      {
        CollectionDeadline(o, provErr, t, actions, end);
      }
    } else if bound < DelayMs(n) - 1 {
      LateRun(o, provErr, start, scrapeTimeout, parentTimeout, bound, DelayMs(n) - 1, 0);
    } else {
      LateRun(o, provErr, start, scrapeTimeout, parentTimeout, bound, 0, deadline);
    }
  }

  lemma LateRun(o: seq<Outcome>, provErr: Option<Error>, start: int, scrapeTimeout: int, parentTimeout: int,
                bound: int, sleep: int, duration: int)
    requires o != [] && 0 <= sleep < DelayMs(|o|) && bound < sleep + duration
    requires 0 <= duration <= Max(0, Min(scrapeTimeout, parentTimeout) - sleep)
    ensures !AlwaysWithin(o, provErr, start, scrapeTimeout, parentTimeout, bound)
  {
    var t := Timing(start, scrapeTimeout, parentTimeout, seq(|o|, _ => sleep), seq(|o|, _ => duration));
    var actions, end := UniformRun(o, provErr, t, sleep, duration);
    assert Honoured(|o|, t);
  }

  /** The comment at the staggering code says the overall timeout is preserved. It is if and
      only if the scrape timeout is at least the longest stagger delay. */
  lemma ScrapeTimeoutKeptExactly(o: seq<Outcome>, provErr: Option<Error>, start: int,
                                 scrapeTimeout: int, parentTimeout: int)
    requires o != []
    ensures AlwaysWithin(o, provErr, start, scrapeTimeout, parentTimeout, scrapeTimeout)
       <==> scrapeTimeout >= (if 8 * |o| <= 4000 then 8 * |o| else 4000) - 1
  {
    WorstCaseExactly(o, provErr, start, scrapeTimeout, parentTimeout, scrapeTimeout);
  }

  /** Five hundred sources under a scrape timeout of three seconds break it: the delay of one
      source alone may come close to four. */
  lemma ScrapeTimeoutExceeded(o: seq<Outcome>, provErr: Option<Error>, start: int)
    requires |o| == 500
    ensures !AlwaysWithin(o, provErr, start, 3000, 10000, 3000)
  {
    ScrapeTimeoutKeptExactly(o, provErr, start, 3000, 10000);
  }

  /** The server scrapes with 90% of the metric resolution under a context of one resolution.
      A tick is sure to be over when the next one is due if and only if the resolution is at
      least the longest stagger delay. */
  lemma TickFitsExactly(o: seq<Outcome>, provErr: Option<Error>, start: int, resolution: nat)
    requires o != []
    ensures AlwaysWithin(o, provErr, start, 9 * resolution / 10, resolution, resolution)
       <==> resolution >= (if 8 * |o| <= 4000 then 8 * |o| else 4000) - 1
  {
    WorstCaseExactly(o, provErr, start, 9 * resolution / 10, resolution, resolution);
  }
}
