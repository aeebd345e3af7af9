/** What holds of every run of the collection protocol: channel safety, progress and
    run length, conservation, and exactly which results the interleavings can give. */
module CollectRuns {
  import opened Wrappers
  import opened MetricsTypes
  import opened SeqTools
  import opened CollectProtocol

  ghost predicate Run(o: seq<Outcome>, provErr: Option<Error>, actions: seq<Action>, t: State) {
    Reaches(o, Init(o, provErr), actions, t)
  }

  lemma {:induction false} RunKeepsInv(o: seq<Outcome>, provErr: Option<Error>, s: State,
                                       batchOrder: seq<nat>, errorOrder: seq<nat>,
                                       actions: seq<Action>, t: State)
    returns (batchOrder': seq<nat>, errorOrder': seq<nat>)
    requires Inv(o, provErr, s, batchOrder, errorOrder) && Reaches(o, s, actions, t)
    ensures Inv(o, provErr, t, batchOrder', errorOrder')
    decreases |actions|
  {
    if actions == [] {
      return batchOrder, errorOrder;
    }
    var a := actions[0];
    StepKeepsInv(o, provErr, s, batchOrder, errorOrder, a);
    batchOrder', errorOrder' := RunKeepsInv(o, provErr, Next(o, s, a), BatchOrder(batchOrder, a),
                                            ErrorOrder(errorOrder, a), actions[1..], t);
  }

  lemma RunOrders(o: seq<Outcome>, provErr: Option<Error>, actions: seq<Action>, t: State)
    returns (batchOrder: seq<nat>, errorOrder: seq<nat>)
    requires Run(o, provErr, actions, t)
    ensures Inv(o, provErr, t, batchOrder, errorOrder)
  {
    InvInitially(o, provErr);
    batchOrder, errorOrder := RunKeepsInv(o, provErr, Init(o, provErr), [], [], actions, t);
  }

  // ----- channel safety -----

  /** Some goroutine stands at a send whose channel is closed: Go would panic */
  predicate SendHitsClosed(s: State) {
    exists i :: 0 <= i < |s.workers| &&
      ((s.workers[i].Sending? && s.responsesClosed) || (s.workers[i].Reporting? && s.errorsClosed))
  }

  /** Some goroutine stands at a send whose channel is full */
  predicate SendWaits(o: seq<Outcome>, s: State) {
    exists i :: 0 <= i < |s.workers| &&
      ((s.workers[i].Sending? && |s.responses| >= |o|) || (s.workers[i].Reporting? && |s.errors| >= |o|))
  }

  /** The collector has taken an error and finds no batch */
  predicate BatchReceiveWaits(s: State) { s.collector.ReceivingBatch? && s.responses == [] }

  lemma OrdersBounded(o: seq<Outcome>, provErr: Option<Error>, s: State,
                      batchOrder: seq<nat>, errorOrder: seq<nat>)
    requires Inv(o, provErr, s, batchOrder, errorOrder)
    ensures |errorOrder| <= |batchOrder| <= |o|
    ensures forall i: nat :: i < |o| && s.workers[i].Sending? ==> |batchOrder| < |o|
    ensures forall i: nat :: i < |o| && s.workers[i].Reporting? ==> |errorOrder| < |o|
    ensures |batchOrder| == |o| ==> forall i: nat :: i < |o| ==> i in batchOrder
    ensures |errorOrder| == |o| ==> forall i: nat :: i < |o| ==> i in errorOrder
  {
    OrderBounds(|o|, batchOrder);
    OrderBounds(|o|, errorOrder);
    NoDupIncluded(errorOrder, batchOrder);
  }

  lemma ChannelSafety(o: seq<Outcome>, provErr: Option<Error>, actions: seq<Action>, t: State)
    requires Run(o, provErr, actions, t)
    ensures !SendHitsClosed(t) && !SendWaits(o, t) && !BatchReceiveWaits(t)
  {
    var batchOrder, errorOrder := RunOrders(o, provErr, actions, t);
    OrdersBounded(o, provErr, t, batchOrder, errorOrder);
  }

  // ----- progress and run length -----

  function WorkerSteps(w: Worker): nat {
    match w
    case NotStarted => 4
    case Scraping => 3
    case Sending => 2
    case Reporting => 1
    case Finished => 0
  }

  function WorkLeft(ws: seq<Worker>): nat {
    if ws == [] then 0 else WorkerSteps(ws[0]) + WorkLeft(ws[1..])
  }

  /** The number of actions still to come */
  function Remaining(n: nat, s: State): int {
    WorkLeft(s.workers) +
    match s.collector
    case Spawning => 2 * n + 2
    case ReceivingError => 2 * (n - s.count) + 2
    case ReceivingBatch(_) => 2 * (n - s.count) + 1
    case ClosingErrors => 2
    case ClosingResponses => 1
    case Returned => 0
  }

  lemma {:induction false} WorkLeftUpdate(ws: seq<Worker>, i: nat, w: Worker)
    requires i < |ws|
    ensures WorkLeft(ws[i := w]) == WorkLeft(ws) - WorkerSteps(ws[i]) + WorkerSteps(w)
  {
    if i == 0 {
      assert ws[i := w][1..] == ws[1..];
    } else {
      WorkLeftUpdate(ws[1..], i - 1, w);
      assert ws[i := w][1..] == ws[1..][i - 1 := w];
    }
  }

  lemma StepCountsDown(o: seq<Outcome>, provErr: Option<Error>, s: State,
                       batchOrder: seq<nat>, errorOrder: seq<nat>, a: Action)
    requires Inv(o, provErr, s, batchOrder, errorOrder) && Enabled(o, s, a)
    ensures Remaining(|o|, Next(o, s, a)) == Remaining(|o|, s) - 1
  {
    if IsWorkerStep(a) {
      WorkerStepCounts(o, s, batchOrder, errorOrder, a);
    } else {
      CollectorStepCounts(o, s, batchOrder, errorOrder, a);
    }
  }

  predicate IsWorkerStep(a: Action) { a.Scrape? || a.SendBatch? || a.SendError? }

  lemma WorkerStepCounts(o: seq<Outcome>, s: State, batchOrder: seq<nat>, errorOrder: seq<nat>, a: Action)
    requires WorkersMatch(o, s, batchOrder, errorOrder) && Enabled(o, s, a) && IsWorkerStep(a)
    ensures Remaining(|o|, Next(o, s, a)) == Remaining(|o|, s) - 1
  {
    if a.Scrape? {
      WorkLeftUpdate(s.workers, a.worker, Sending);
    } else if a.SendBatch? {
      WorkLeftUpdate(s.workers, a.worker, Reporting);
    } else {
      WorkLeftUpdate(s.workers, a.worker, Finished);
    }
  }

  lemma CollectorStepCounts(o: seq<Outcome>, s: State, batchOrder: seq<nat>, errorOrder: seq<nat>, a: Action)
    requires WorkersMatch(o, s, batchOrder, errorOrder) && CollectorMatches(o, s)
    requires Enabled(o, s, a) && !IsWorkerStep(a)
    ensures Remaining(|o|, Next(o, s, a)) == Remaining(|o|, s) - 1
  {
    if a.Spawn? {
      WorkLeftUpdate(s.workers, s.count, Scraping);
    }
  }

  lemma {:induction false} WorkLeftAt(ws: seq<Worker>, w: Worker)
    requires forall i :: 0 <= i < |ws| ==> ws[i] == w
    ensures WorkLeft(ws) == |ws| * WorkerSteps(w)
  {
    if ws != [] {
      WorkLeftAt(ws[1..], w);
    }
  }

  lemma AllFinished(o: seq<Outcome>, provErr: Option<Error>, s: State,
                    batchOrder: seq<nat>, errorOrder: seq<nat>)
    requires Inv(o, provErr, s, batchOrder, errorOrder) && s.collector.Returned?
    ensures |s.workers| == |o| && forall i: nat :: i < |o| ==> s.workers[i].Finished?
  {
    OrdersBounded(o, provErr, s, batchOrder, errorOrder);
  }

  lemma RemainingPositive(o: seq<Outcome>, s: State)
    requires CollectorMatches(o, s) && !s.collector.Returned?
    ensures Remaining(|o|, s) > 0
  {
  }

  lemma RemainingZero(n: nat, s: State)
    requires s.collector.Returned? && forall i: nat :: i < |s.workers| ==> s.workers[i].Finished?
    ensures Remaining(n, s) == 0
  {
    WorkLeftAt(s.workers, Finished);
  }

  lemma RemainingBounds(o: seq<Outcome>, provErr: Option<Error>, s: State,
                        batchOrder: seq<nat>, errorOrder: seq<nat>)
    requires Inv(o, provErr, s, batchOrder, errorOrder)
    ensures Remaining(|o|, s) >= 0
    ensures Remaining(|o|, s) == 0 <==> s.collector.Returned?
  {
    if s.collector.Returned? {
      AllFinished(o, provErr, s, batchOrder, errorOrder);
      RemainingZero(|o|, s);
    } else {
      RemainingPositive(o, s);
    }
  }

  /** In an unfinished state some action is enabled that stays on the chosen send orders */
  lemma Schedule(o: seq<Outcome>, provErr: Option<Error>, s: State,
                 batchOrder: seq<nat>, errorOrder: seq<nat>, bs: seq<nat>, es: seq<nat>)
    returns (a: Action)
    requires Inv(o, provErr, s, batchOrder, errorOrder)
    requires IsOrder(|o|, bs) && IsOrder(|o|, es) && batchOrder <= bs && errorOrder <= es
    requires !s.collector.Returned?
    ensures Enabled(o, s, a)
    ensures BatchOrder(batchOrder, a) <= bs && ErrorOrder(errorOrder, a) <= es
  {
    OrdersBounded(o, provErr, s, batchOrder, errorOrder);
    if s.collector.Spawning? {
      a := Spawn;
    } else if |errorOrder| < |o| {
      a := ScheduleWorker(o, s, batchOrder, errorOrder, bs, es);
    } else {
      match s.collector
      case ReceivingError => a := ReceiveError;
      case ReceivingBatch(_) => a := ReceiveBatch;
      case ClosingErrors => a := CloseErrors;
      case ClosingResponses => a := CloseResponses;
    }
  }

  lemma ScheduleWorker(o: seq<Outcome>, s: State, batchOrder: seq<nat>, errorOrder: seq<nat>,
                       bs: seq<nat>, es: seq<nat>)
    returns (a: Action)
    requires WorkersMatch(o, s, batchOrder, errorOrder) && CollectorMatches(o, s)
    requires IsOrder(|o|, bs) && IsOrder(|o|, es) && batchOrder <= bs && errorOrder <= es
    requires |errorOrder| < |o| && |s.errors| <= |errorOrder| && |s.responses| <= |batchOrder|
    requires ErrorsTaken(s, |o|) <= |errorOrder| && !s.collector.Spawning?
    ensures Enabled(o, s, a)
    ensures BatchOrder(batchOrder, a) <= bs && ErrorOrder(errorOrder, a) <= es
  {
    if i: nat :| i < |o| && s.workers[i].Scraping? {
      a := Scrape(i);
    } else if |batchOrder| < |o| {
      var i := bs[|batchOrder|];
      assert i !in batchOrder;
      assert bs[..|batchOrder| + 1] == batchOrder + [i];
      a := SendBatch(i);
    } else {
      var i := es[|errorOrder|];
      assert i !in errorOrder;
      OrderBounds(|o|, batchOrder);
      assert es[..|errorOrder| + 1] == errorOrder + [i];
      a := SendError(i);
    }
  }

  lemma {:induction false} FinishAlong(o: seq<Outcome>, provErr: Option<Error>, s: State,
                                       batchOrder: seq<nat>, errorOrder: seq<nat>,
                                       bs: seq<nat>, es: seq<nat>)
    returns (actions: seq<Action>, t: State)
    requires Inv(o, provErr, s, batchOrder, errorOrder)
    requires IsOrder(|o|, bs) && IsOrder(|o|, es) && batchOrder <= bs && errorOrder <= es
    ensures Reaches(o, s, actions, t) && t.collector.Returned?
    ensures Inv(o, provErr, t, bs, es)
    decreases Remaining(|o|, s)
  {
    RemainingBounds(o, provErr, s, batchOrder, errorOrder);
    if s.collector.Returned? {
      OrdersBounded(o, provErr, s, batchOrder, errorOrder);
      assert batchOrder == bs && errorOrder == es;
      return [], s;
    }
    var a := Schedule(o, provErr, s, batchOrder, errorOrder, bs, es);
    StepKeepsInv(o, provErr, s, batchOrder, errorOrder, a);
    StepCountsDown(o, provErr, s, batchOrder, errorOrder, a);
    var rest;
    rest, t := FinishAlong(o, provErr, Next(o, s, a), BatchOrder(batchOrder, a),
                           ErrorOrder(errorOrder, a), bs, es);
    actions := [a] + rest;
    assert actions[1..] == rest;
  }

  function Upto(n: nat): (r: seq<nat>)
    ensures IsOrder(n, r)
  {
    seq(n, i => i)
  }

  /** Any duplicate-free list of indices below n extends to an order */
  lemma {:induction false} CompleteOrder(n: nat, s: seq<nat>) returns (r: seq<nat>)
    requires NoDup(s) && forall j :: 0 <= j < |s| ==> s[j] < n
    ensures IsOrder(n, r) && s <= r
    decreases n - |s|
  {
    OrderBounds(n, s);
    if |s| == n {
      return s;
    }
    if i: nat :| i < n && i !in s {
      r := CompleteOrder(n, s + [i]);
    } else {
      NoDupIncluded(Upto(n), s);
    }
  }

  lemma NeverStuck(o: seq<Outcome>, provErr: Option<Error>, actions: seq<Action>, t: State)
    returns (a: Action)
    requires Run(o, provErr, actions, t) && !t.collector.Returned?
    ensures Enabled(o, t, a)
  {
    var batchOrder, errorOrder := RunOrders(o, provErr, actions, t);
    var bs := CompleteOrder(|o|, batchOrder);
    var es := CompleteOrder(|o|, errorOrder);
    a := Schedule(o, provErr, t, batchOrder, errorOrder, bs, es);
  }

  lemma {:induction false} StepsCounted(o: seq<Outcome>, provErr: Option<Error>, s: State,
                                        batchOrder: seq<nat>, errorOrder: seq<nat>,
                                        actions: seq<Action>, t: State)
    requires Inv(o, provErr, s, batchOrder, errorOrder) && Reaches(o, s, actions, t)
    ensures |actions| + Remaining(|o|, t) == Remaining(|o|, s)
    decreases |actions|
  {
    if actions != [] {
      var a := actions[0];
      StepKeepsInv(o, provErr, s, batchOrder, errorOrder, a);
      StepCountsDown(o, provErr, s, batchOrder, errorOrder, a);
      StepsCounted(o, provErr, Next(o, s, a), BatchOrder(batchOrder, a), ErrorOrder(errorOrder, a), actions[1..], t);
    }
  }

  lemma RunSteps(o: seq<Outcome>, provErr: Option<Error>, actions: seq<Action>, t: State)
    requires Run(o, provErr, actions, t)
    ensures |actions| + Remaining(|o|, t) == 6 * |o| + 2
  {
    var s := Init(o, provErr);
    InvInitially(o, provErr);
    StepsCounted(o, provErr, s, [], [], actions, t);
    RemainingInitially(o, provErr);
  }

  lemma RemainingInitially(o: seq<Outcome>, provErr: Option<Error>)
    ensures Remaining(|o|, Init(o, provErr)) == 6 * |o| + 2
  {
    WorkLeftAt(Init(o, provErr).workers, NotStarted);
  }

  /** No run is longer than 6n + 2 actions, and a run is complete exactly when it has that many. */
  lemma EveryRunEnds(o: seq<Outcome>, provErr: Option<Error>, actions: seq<Action>, t: State)
    requires Run(o, provErr, actions, t)
    ensures |actions| <= 6 * |o| + 2
    ensures t.collector.Returned? <==> |actions| == 6 * |o| + 2
  {
    RunSteps(o, provErr, actions, t);
    var batchOrder, errorOrder := RunOrders(o, provErr, actions, t);
    RemainingBounds(o, provErr, t, batchOrder, errorOrder);
  }

  // ----- conservation, and the exact set of results -----

  /** The result of Collect when batches and errors come out of the channels in these orders */
  ghost predicate ResultInOrder(o: seq<Outcome>, provErr: Option<Error>, nodes: seq<NodeMetricsPoint>,
                                pods: seq<PodMetricsPoint>, errs: seq<Error>,
                                batchOrder: seq<nat>, errorOrder: seq<nat>)
  {
    && IsOrder(|o|, batchOrder) && IsOrder(|o|, errorOrder)
    && nodes == Gather(NodesOf, Pick(Batches(o), batchOrder))
    && pods == Gather(PodsOf, Pick(Batches(o), batchOrder))
    && errs == ErrorsOf(provErr) + Gather(ErrorsOf, Pick(Reports(o), errorOrder))
  }

  lemma FinalResult(o: seq<Outcome>, provErr: Option<Error>, t: State,
                    batchOrder: seq<nat>, errorOrder: seq<nat>)
    requires Inv(o, provErr, t, batchOrder, errorOrder) && t.collector.Returned?
    ensures ResultInOrder(o, provErr, t.nodes, t.pods, t.errs, batchOrder, errorOrder)
  {
    OrdersBounded(o, provErr, t, batchOrder, errorOrder);
    var bs, es := Pick(Batches(o), batchOrder), Pick(Reports(o), errorOrder);
    assert bs[..|o|] == bs && es[..|o|] == es;
  }

  /** Collect can return a result if and only if it is the one of some batch order and some
      error order; the two orders are independent, so the k-th error and the k-th batch
      need not come from the same source. */
  lemma ResultsExactly(o: seq<Outcome>, provErr: Option<Error>, nodes: seq<NodeMetricsPoint>,
                       pods: seq<PodMetricsPoint>, errs: seq<Error>)
    ensures (exists actions, t :: Run(o, provErr, actions, t) && t.collector.Returned?
                                  && t.nodes == nodes && t.pods == pods && t.errs == errs)
       <==> (exists batchOrder, errorOrder ::
               ResultInOrder(o, provErr, nodes, pods, errs, batchOrder, errorOrder))
  {
    if actions, t :| Run(o, provErr, actions, t) && t.collector.Returned?
                     && t.nodes == nodes && t.pods == pods && t.errs == errs {
      var batchOrder, errorOrder := RunOrders(o, provErr, actions, t);
      FinalResult(o, provErr, t, batchOrder, errorOrder);
    }
    if batchOrder, errorOrder :| ResultInOrder(o, provErr, nodes, pods, errs, batchOrder, errorOrder) {
      var actions, t := RunInOrder(o, provErr, batchOrder, errorOrder);
    }
  }

  lemma RunInOrder(o: seq<Outcome>, provErr: Option<Error>, batchOrder: seq<nat>, errorOrder: seq<nat>)
    returns (actions: seq<Action>, t: State)
    requires IsOrder(|o|, batchOrder) && IsOrder(|o|, errorOrder)
    ensures Run(o, provErr, actions, t) && t.collector.Returned?
    ensures ResultInOrder(o, provErr, t.nodes, t.pods, t.errs, batchOrder, errorOrder)
  {
    InvInitially(o, provErr);
    actions, t := FinishAlong(o, provErr, Init(o, provErr), [], [], batchOrder, errorOrder);
    FinalResult(o, provErr, t, batchOrder, errorOrder);
  }

  /** With two failing sources the errors may come out in one order and the batches in the
      other, so that the collector pairs each error with the other source's batch. */
  lemma ErrorsAndBatchesMayCross(a: Outcome, b: Outcome) returns (actions: seq<Action>, t: State)
    requires a.err.Some? && b.err.Some?
    ensures Run([a, b], None, actions, t) && t.collector.Returned?
    ensures t.nodes == NodesOf(a.batch) + NodesOf(b.batch)
    ensures t.errs == [ScrapeFailed(b.source, b.err.value), ScrapeFailed(a.source, a.err.value)]
  {
    var o := [a, b];
    actions, t := RunInOrder(o, None, [0, 1], [1, 0]);
    assert Pick(Batches(o), [0, 1]) == [a.batch, b.batch];
    assert Pick(Reports(o), [1, 0]) == [Report(b), Report(a)];
    GatherPair(NodesOf, a.batch, b.batch);
    GatherPair(ErrorsOf, Report(b), Report(a));
  }

  lemma GatherPair<X, T>(f: X -> seq<T>, x: X, y: X)
    ensures Gather(f, [x, y]) == f(x) + f(y)
  {
    GatherSnoc(f, [x], y);
    GatherSnoc(f, [], x);
    assert [] + [x] == [x] && [x] + [y] == [x, y];
  }

  /** What is conserved: nothing is lost, duplicated or invented on any result of Collect */
  ghost predicate Conserved(o: seq<Outcome>, provErr: Option<Error>, nodes: seq<NodeMetricsPoint>,
                            pods: seq<PodMetricsPoint>, errs: seq<Error>)
  {
    && multiset(nodes) == multiset(Gather(NodesOf, Batches(o)))
    && multiset(pods) == multiset(Gather(PodsOf, Batches(o)))
    && multiset(errs) == multiset(ErrorsOf(provErr)) + multiset(Gather(ErrorsOf, Reports(o)))
    && (provErr.Some? ==> errs != [] && errs[0] == provErr.value)
  }

  lemma OrderConserves(o: seq<Outcome>, provErr: Option<Error>, nodes: seq<NodeMetricsPoint>,
                       pods: seq<PodMetricsPoint>, errs: seq<Error>,
                       batchOrder: seq<nat>, errorOrder: seq<nat>)
    requires ResultInOrder(o, provErr, nodes, pods, errs, batchOrder, errorOrder)
    ensures Conserved(o, provErr, nodes, pods, errs)
  {
    PickPermutes(Batches(o), batchOrder);
    PickPermutes(Reports(o), errorOrder);
    GatherPermutes(NodesOf, Pick(Batches(o), batchOrder), Batches(o));
    GatherPermutes(PodsOf, Pick(Batches(o), batchOrder), Batches(o));
    GatherPermutes(ErrorsOf, Pick(Reports(o), errorOrder), Reports(o));
  }

  /** Conservation over every interleaving */
  lemma Conservation(o: seq<Outcome>, provErr: Option<Error>, actions: seq<Action>, t: State)
    requires Run(o, provErr, actions, t) && t.collector.Returned?
    ensures Conserved(o, provErr, t.nodes, t.pods, t.errs)
  {
    var batchOrder, errorOrder := RunOrders(o, provErr, actions, t);
    FinalResult(o, provErr, t, batchOrder, errorOrder);
    OrderConserves(o, provErr, t.nodes, t.pods, t.errs, batchOrder, errorOrder);
  }
}
