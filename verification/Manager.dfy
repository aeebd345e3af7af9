/** The collection ticks and the health check (pkg/manager/manager.go). */
module Manager {
  import opened Wrappers
  import opened MetricsTypes
  import opened CollectProtocol
  import opened CollectRuns
  import opened SinkProvider
  import SourceManager

  /** The critical sections of Collect, in the order in which they happen */
  datatype Event = TickStart(time: Time) | TickEnd(collectErr: Option<Error>, nodes: nat, storeErr: Option<Error>)

  /** No store error, and either no collect error or at least one node */
  predicate GoodTick(e: Event)
    requires e.TickEnd?
  {
    e.storeErr == None && (e.collectErr == None || e.nodes > 0)
  }

  /** Event k is the last of its kind */
  predicate LastStart(h: seq<Event>, k: int) {
    0 <= k < |h| && h[k].TickStart? && forall j :: k < j < |h| ==> !h[j].TickStart?
  }

  predicate LastEnd(h: seq<Event>, k: int) {
    0 <= k < |h| && h[k].TickEnd? && forall j :: k < j < |h| ==> !h[j].TickEnd?
  }

  /** The answers of the health check: no error, too long since the last tick, bad last tick */
  datatype Verdict = Healthy | Stale | BadTick

  ghost predicate LastTickGood(h: seq<Event>) { exists k :: LastEnd(h, k) && GoodTick(h[k]) }

  /** What a healthy answer means: the last completed tick was good, and the last tick begun
      started no longer ago than 1.1 times the resolution. */
  ghost predicate HealthyMeans(h: seq<Event>, resolution: int, now: Time) {
    && LastTickGood(h)
    && (exists k :: LastStart(h, k) && 10 * (now - h[k].time) <= 11 * resolution)
  }

  /** What a stale answer means: the last tick begun started longer ago than that. Before the
      first tick the zero time stands for its start. */
  ghost predicate Overdue(h: seq<Event>, resolution: int, now: Time) {
    if h == [] then 10 * (now - ZERO_TIME) > 11 * resolution
    else exists k :: LastStart(h, k) && 10 * (now - h[k].time) > 11 * resolution
  }

  /** Ticks are taken one after the other: starts and ends alternate */
  predicate Alternates(h: seq<Event>) {
    forall k :: 0 <= k < |h| ==> (h[k].TickStart? <==> k % 2 == 0)
  }

  /** The fields after a history: (lastTickStart, lastOk) */
  function After(h: seq<Event>): (Time, bool) {
    if h == [] then (ZERO_TIME, false)
    else
      var (start, ok) := After(h[..|h| - 1]);
      match h[|h| - 1]
      case TickStart(t) => (t, ok)
      case TickEnd(_, _, _) => (start, GoodTick(h[|h| - 1]))
  }

  /** The two fields summarise the last start and the last end of the whole history */
  lemma {:induction false} AfterMeans(h: seq<Event>)
    ensures After(h).1 <==> LastTickGood(h)
    ensures forall k :: LastStart(h, k) ==> After(h).0 == h[k].time
  {
    if h != [] {
      var n := |h| - 1;
      AfterMeans(h[..n]);
      if h[n].TickStart? {
        assert LastStart(h, n);
        forall k ensures LastEnd(h, k) <==> LastEnd(h[..n], k) {
          SameLast(h, k);
        }
      } else {
        assert LastEnd(h, n);
        forall k ensures LastStart(h, k) <==> LastStart(h[..n], k) {
          SameLast(h, k);
        }
      }
    }
  }

  lemma SameLast(h: seq<Event>, k: int)
    requires h != []
    ensures h[|h| - 1].TickStart? ==> (LastEnd(h, k) <==> LastEnd(h[..|h| - 1], k))
    ensures h[|h| - 1].TickEnd? ==> (LastStart(h, k) <==> LastStart(h[..|h| - 1], k))
  {
  }

  lemma LastTickBegun(h: seq<Event>) returns (k: nat)
    requires Alternates(h) && h != []
    ensures LastStart(h, k) && After(h).0 == h[k].time
    ensures forall j :: LastStart(h, j) ==> j == k
  {
    k := if |h| % 2 == 1 then |h| - 1 else |h| - 2;
    AfterMeans(h);
  }

  lemma WithinTenths(age: int, limit: int)
    ensures age <= limit / 10 <==> 10 * age <= limit
  {
  }

  /** The check CheckHealth makes on the time is the meaning of a stale answer */
  lemma OverdueExactly(h: seq<Event>, resolution: int, now: Time)
    requires Alternates(h)
    ensures Overdue(h, resolution, now) <==> now - After(h).0 > 11 * resolution / 10
  {
    WithinTenths(now - After(h).0, 11 * resolution);
    if h != [] {
      var k := LastTickBegun(h);
    }
  }

  /** The check on both fields is the meaning of a healthy answer */
  lemma HealthyExactly(h: seq<Event>, resolution: int, now: Time)
    requires Alternates(h)
    ensures HealthyMeans(h, resolution, now)
       <==> After(h).1 && now - After(h).0 <= 11 * resolution / 10
  {
    WithinTenths(now - After(h).0, 11 * resolution);
    AfterMeans(h);
    if h != [] {
      var k := LastTickBegun(h);
    }
  }

  /** Once a tick has ended it alone decides: it was good if and only if storing worked and, after
      an error, at least one node came in. */
  lemma EndDecides(h: seq<Event>, collectErr: Option<Error>, nodes: nat, storeErr: Option<Error>)
    ensures LastTickGood(h + [TickEnd(collectErr, nodes, storeErr)])
       <==> storeErr == None && (collectErr == None || nodes > 0)
  {
    var h' := h + [TickEnd(collectErr, nodes, storeErr)];
    assert LastEnd(h', |h|);
    assert forall k :: LastEnd(h', k) ==> k == |h|;
  }

  /** One tick: its start time and what the sources give */
  datatype Tick = Tick(time: Time, o: seq<Outcome>, provErr: Option<Error>)

  /** start and end are what a tick leaves in the history, after some run of the collection */
  ghost predicate Recorded(start: Event, end: Event, tick: Tick) {
    && start == TickStart(tick.time)
    && exists actions, t :: Run(tick.o, tick.provErr, actions, t) && t.collector.Returned?
                            && end == TickEnd(NewAggregate(t.errs), |t.nodes|, None)
  }

  /** One tick: after some run of the collection the sink holds just what was collected, and
      the tick's start and end are added to the history */
  ghost predicate Ticked(before: seq<Event>, after: seq<Event>, installed: MetricsBatch, tick: Tick) {
    exists actions, t :: Run(tick.o, tick.provErr, actions, t) && t.collector.Returned?
      && installed == MetricsBatch(t.nodes, t.pods)
      && after == before + [TickStart(tick.time), TickEnd(NewAggregate(t.errs), |t.nodes|, None)]
  }

  /** The history ends with this tick, and the sink holds what it collected */
  ghost predicate LastTicked(h: seq<Event>, installed: MetricsBatch, tick: Tick) {
    |h| >= 2 && Ticked(h[..|h| - 2], h, installed, tick)
  }

  lemma TickedIsLast(before: seq<Event>, after: seq<Event>, installed: MetricsBatch, tick: Tick)
    requires Ticked(before, after, installed, tick)
    ensures LastTicked(after, installed, tick)
  {
    assert after[..|after| - 2] == before;
  }

  lemma TickedBy(before: seq<Event>, after: seq<Event>, installed: MetricsBatch, tick: Tick,
                 actions: seq<Action>, t: State)
    requires Run(tick.o, tick.provErr, actions, t) && t.collector.Returned?
    requires installed == MetricsBatch(t.nodes, t.pods)
    requires after == before + [TickStart(tick.time)] + [TickEnd(NewAggregate(t.errs), |t.nodes|, None)]
    ensures Ticked(before, after, installed, tick)
  {
    assert after == before + [TickStart(tick.time), TickEnd(NewAggregate(t.errs), |t.nodes|, None)];
  }

  /** h consists of the starts and ends of the given ticks, one after the other */
  ghost predicate Records(h: seq<Event>, ticks: seq<Tick>) {
    && |h| == 2 * |ticks|
    && forall k :: 0 <= k < |ticks| ==> Recorded(h[2 * k], h[2 * k + 1], ticks[k])
  }

  lemma TickedRecords(h: seq<Event>, h': seq<Event>, installed: MetricsBatch, ticks: seq<Tick>, tick: Tick)
    requires Records(h, ticks) && Ticked(h, h', installed, tick)
    ensures Records(h', ticks + [tick])
  {
    assert Recorded(h'[|h|], h'[|h| + 1], tick);
    var all := ticks + [tick];
    forall k | 0 <= k < |all| ensures Recorded(h'[2 * k], h'[2 * k + 1], all[k]) {
      if k < |ticks| {
        assert h'[2 * k] == h[2 * k] && h'[2 * k + 1] == h[2 * k + 1];
      }
    }
  }

  /** These ticks are recorded, and the sink holds what the last one collected */
  ghost predicate Collected(h: seq<Event>, installed: MetricsBatch, done: seq<Tick>) {
    done != [] && Records(h, done) && LastTicked(h, installed, done[|done| - 1])
  }

  lemma PrefixExtends<T>(first: T, rest: seq<T>, i: nat)
    requires i < |rest|
    ensures [first] + rest[..i] + [rest[i]] == [first] + rest[..i + 1]
  {
  }

  class Manager {
    const resolution: int
    const sink: SinkMetricsProvider
    var lastTickStart: Time
    var lastOk: bool
    ghost var history: seq<Event>

    ghost predicate Valid()
      reads this
    {
      && resolution > 0
      && Alternates(history)
      && (lastTickStart, lastOk) == After(history)
    }

    constructor (sink: SinkMetricsProvider, resolution: int)
      requires resolution > 0
      ensures Valid() && this.sink == sink && this.resolution == resolution && history == []
    {
      this.sink, this.resolution := sink, resolution;
      lastTickStart, lastOk := ZERO_TIME, false;
      history := [];
    }

    method BeginTick(startTime: Time)
      requires Valid() && |history| % 2 == 0
      modifies this
      ensures Valid() && history == old(history) + [TickStart(startTime)]
    {
      lastTickStart := startTime;
      history := history + [TickStart(startTime)];
      assert history[..|history| - 1] == old(history);
    }

    method EndTick(healthyTick: bool, ghost e: Event)
      requires Valid() && |history| % 2 == 1
      requires e.TickEnd? && (healthyTick <==> GoodTick(e))
      modifies this
      ensures Valid() && history == old(history) + [e]
    {
      lastOk := healthyTick;
      history := history + [e];
      assert history[..|history| - 1] == old(history);
    }

    method CollectSources(o: seq<Outcome>, provErr: Option<Error>)
      returns (data: MetricsBatch, collectErr: Option<Error>)
      ensures exists actions, t :: Run(o, provErr, actions, t) && t.collector.Returned?
                && data == MetricsBatch(t.nodes, t.pods) && collectErr == NewAggregate(t.errs)
    {
      data, collectErr := SourceManager.Collect(o, provErr);
    }

    /** One tick over the sources' outcomes o: whatever the interleaving, the sink then holds
        exactly what was collected, and the tick is good unless nothing came in with an error. */
    method Collect(startTime: Time, o: seq<Outcome>, provErr: Option<Error>)
      requires Valid() && sink.Valid() && |history| % 2 == 0
      modifies this, sink
      ensures Valid() && sink.Valid()
      ensures Ticked(old(history), history, sink.installed, Tick(startTime, o, provErr))
    {
      BeginTick(startTime);
      var healthyTick := true;
      var data, collectErr := CollectSources(o, provErr);
      ghost var actions, t :| Run(o, provErr, actions, t) && t.collector.Returned?
                              && data == MetricsBatch(t.nodes, t.pods) && collectErr == NewAggregate(t.errs);
      if collectErr.Some? {
        if |data.nodes| == 0 {
          healthyTick := false;
        }
      }
      var recvErr := sink.Receive(data);
      if recvErr.Some? {
        healthyTick := false;
      }
      EndTick(healthyTick, TickEnd(collectErr, |data.nodes|, recvErr));
      TickedBy(old(history), history, sink.installed, Tick(startTime, o, provErr), actions, t);
    }

    /** The first collection and then one for every tick until the stop signal */
    method RunUntil(first: Tick, ticks: seq<Tick>)
      requires Valid() && sink.Valid() && history == []
      modifies this, sink
      ensures Valid() && sink.Valid()
      ensures Records(history, [first] + ticks)
      ensures LastTicked(history, sink.installed, if ticks == [] then first else ticks[|ticks| - 1])
    {
      CollectNext(first, []);
      ghost var done := [] + [first];
      for i := 0 to |ticks|
        invariant Valid() && sink.Valid()
        invariant done == [first] + ticks[..i] && Collected(history, sink.installed, done)
      {
        CollectNext(ticks[i], done);
        PrefixExtends(first, ticks, i);
        done := done + [ticks[i]];
      }
      assert ticks[..|ticks|] == ticks;
    }

    /** The collection for one tick, after those in done */
    method CollectNext(tick: Tick, ghost done: seq<Tick>)
      requires Valid() && sink.Valid() && Records(history, done)
      modifies this, sink
      ensures Valid() && sink.Valid()
      ensures Collected(history, sink.installed, done + [tick])
    {
      ghost var before := history;
      Collect(tick.time, tick.o, tick.provErr);
      assert Tick(tick.time, tick.o, tick.provErr) == tick;
      TickedRecords(before, history, sink.installed, done, tick);
      TickedIsLast(before, history, sink.installed, tick);
    }

    /** May be called at any time, between the two critical sections of a tick as well */
    method CheckHealth(now: Time) returns (verdict: Verdict)
      requires Valid()
      ensures verdict == Healthy <==> HealthyMeans(history, resolution, now)
      ensures verdict == Stale <==> Overdue(history, resolution, now)
      ensures verdict == BadTick <==> !Overdue(history, resolution, now) && !LastTickGood(history)
    {
      var lastTick, healthyTick := lastTickStart, lastOk;
      var maxTickWait := 11 * resolution / 10;
      var tickWait := now - lastTick;
      HealthyExactly(history, resolution, now);
      OverdueExactly(history, resolution, now);
      AfterMeans(history);
      if tickWait > maxTickWait {
        return Stale;
      }
      if !healthyTick {
        return BadTick;
      }
      verdict := Healthy;
    }
  }
}
