/** The goroutines, the two buffered channels and the receive loop of
    sourceManager.Collect (pkg/sources/manager.go) as a transition system: one
    atomic action per send, receive, spawn, scrape and close. */
module CollectProtocol {
  import opened Wrappers
  import opened MetricsTypes
  import opened SeqTools

  /** What one source's Collect returns; either part may be missing */
  datatype Outcome = Outcome(source: string, batch: Option<MetricsBatch>, err: Option<Error>)

  /** The error a goroutine reports: nil, or the scrape error wrapped with the source name */
  function Report(oc: Outcome): Option<Error> {
    match oc.err
    case None => None
    case Some(e) => Some(ScrapeFailed(oc.source, e))
  }

  function Batches(o: seq<Outcome>): (r: seq<Option<MetricsBatch>>)
    ensures |r| == |o| && forall i :: 0 <= i < |o| ==> r[i] == o[i].batch
  {
    seq(|o|, i requires 0 <= i < |o| => o[i].batch)
  }

  function Reports(o: seq<Outcome>): (r: seq<Option<Error>>)
    ensures |r| == |o| && forall i :: 0 <= i < |o| ==> r[i] == Report(o[i])
  {
    seq(|o|, i requires 0 <= i < |o| => Report(o[i]))
  }

  function NodesOf(b: Option<MetricsBatch>): seq<NodeMetricsPoint> { if b.Some? then b.value.nodes else [] }
  function PodsOf(b: Option<MetricsBatch>): seq<PodMetricsPoint> { if b.Some? then b.value.pods else [] }
  function ErrorsOf(e: Option<Error>): seq<Error> { if e.Some? then [e.value] else [] }

  datatype Worker = NotStarted | Scraping | Sending | Reporting | Finished

  /** Deferred calls run last in, first out: errChannel is closed before responseChannel. */
  datatype Collector =
    | Spawning | ReceivingError | ReceivingBatch(err: Option<Error>)
    | ClosingErrors | ClosingResponses | Returned

  datatype State = State(
    workers: seq<Worker>,
    responses: seq<Option<MetricsBatch>>, responsesClosed: bool,
    errors: seq<Option<Error>>, errorsClosed: bool,
    collector: Collector,
    count: nat,  // iterations done of the collector's current loop
    nodes: seq<NodeMetricsPoint>, pods: seq<PodMetricsPoint>, errs: seq<Error>)

  datatype Action =
    | Spawn | Scrape(worker: nat) | SendBatch(worker: nat) | SendError(worker: nat)
    | ReceiveError | ReceiveBatch | CloseErrors | CloseResponses

  /** provErr is what GetMetricSources reported beside its sources */
  function Init(o: seq<Outcome>, provErr: Option<Error>): State {
    State(seq(|o|, _ => NotStarted), [], false, [], false,
          if o == [] then ClosingErrors else Spawning, 0, [], [], ErrorsOf(provErr))
  }

  /** Both channels are made with capacity len(sources). A send on a closed channel is not
      enabled here; SendHitsClosed tells it from a send that waits for room. */
  predicate Enabled(o: seq<Outcome>, s: State, a: Action) {
    && |s.workers| == |o|
    && match a {
      case Spawn => s.collector.Spawning? && s.count < |o|
      case Scrape(i) => i < |o| && s.workers[i].Scraping?
      case SendBatch(i) => i < |o| && s.workers[i].Sending? && |s.responses| < |o| && !s.responsesClosed
      case SendError(i) => i < |o| && s.workers[i].Reporting? && |s.errors| < |o| && !s.errorsClosed
      case ReceiveError => s.collector.ReceivingError? && s.errors != []
      case ReceiveBatch => s.collector.ReceivingBatch? && s.responses != []
      case CloseErrors => s.collector.ClosingErrors?
      case CloseResponses => s.collector.ClosingResponses?
    }
  }

  function Next(o: seq<Outcome>, s: State, a: Action): State
    requires Enabled(o, s, a)
  {
    match a {
      case Spawn =>
        var started := s.(workers := s.workers[s.count := Scraping]);
        if s.count + 1 < |o| then started.(count := s.count + 1)
        else started.(collector := ReceivingError, count := 0)
      case Scrape(i) => s.(workers := s.workers[i := Sending])
      case SendBatch(i) => s.(workers := s.workers[i := Reporting], responses := s.responses + [o[i].batch])
      case SendError(i) => s.(workers := s.workers[i := Finished], errors := s.errors + [Report(o[i])])
      case ReceiveError => s.(collector := ReceivingBatch(s.errors[0]), errors := s.errors[1..])
      case ReceiveBatch =>
        var b := s.responses[0];
        s.(responses := s.responses[1..],
           errs := s.errs + ErrorsOf(s.collector.err),
           nodes := s.nodes + NodesOf(b), pods := s.pods + PodsOf(b),
           collector := if s.count + 1 < |o| then ReceivingError else ClosingErrors,
           count := s.count + 1)
      case CloseErrors => s.(errorsClosed := true, collector := ClosingResponses)
      case CloseResponses => s.(responsesClosed := true, collector := Returned)
    }
  }

  /** The actions lead, one after the other, from s to t */
  ghost predicate Reaches(o: seq<Outcome>, s: State, actions: seq<Action>, t: State)
    decreases |actions|
  {
    if actions == [] then s == t
    else Enabled(o, s, actions[0]) && Reaches(o, Next(o, s, actions[0]), actions[1..], t)
  }

  // ----- the invariant -----

  function ErrorsTaken(s: State, n: nat): nat {
    match s.collector
    case Spawning => 0
    case ReceivingError => s.count
    case ReceivingBatch(_) => s.count + 1
    case _ => n
  }

  function BatchesTaken(s: State, n: nat): nat {
    match s.collector
    case Spawning => 0
    case ReceivingError => s.count
    case ReceivingBatch(_) => s.count
    case _ => n
  }

  ghost predicate WorkersMatch(o: seq<Outcome>, s: State, batchOrder: seq<nat>, errorOrder: seq<nat>) {
    && |s.workers| == |o|
    && NoDup(batchOrder) && NoDup(errorOrder)
    && (forall j :: 0 <= j < |batchOrder| ==> batchOrder[j] < |o|)
    && (forall j :: 0 <= j < |errorOrder| ==> errorOrder[j] < |o|)
    && (forall i: nat :: i < |o| ==> (i in batchOrder <==> s.workers[i].Reporting? || s.workers[i].Finished?))
    && (forall i: nat :: i < |o| ==> (i in errorOrder <==> s.workers[i].Finished?))
    && (forall i: nat :: i < |o| ==> (s.workers[i].NotStarted? <==> s.collector.Spawning? && i >= s.count))
  }

  ghost predicate CollectorMatches(o: seq<Outcome>, s: State) {
    && (s.collector.Spawning? || s.collector.ReceivingError? || s.collector.ReceivingBatch? ==> s.count < |o|)
    && (s.errorsClosed <==> s.collector.ClosingResponses? || s.collector.Returned?)
    && (s.responsesClosed <==> s.collector.Returned?)
  }

  ghost predicate DataMatches(o: seq<Outcome>, provErr: Option<Error>, s: State,
                              bs: seq<Option<MetricsBatch>>, es: seq<Option<Error>>)
  {
    var batches, errors := BatchesTaken(s, |o|), ErrorsTaken(s, |o|);
    && batches <= |bs| && errors <= |es|
    && s.responses == bs[batches..]
    && s.errors == es[errors..]
    && s.nodes == Gather(NodesOf, bs[..batches])
    && s.pods == Gather(PodsOf, bs[..batches])
    && s.errs == ErrorsOf(provErr) + Gather(ErrorsOf, es[..batches])
    && (s.collector.ReceivingBatch? ==> s.collector.err == es[s.count])
  }

  /** batchOrder and errorOrder list the workers in the order of their completed sends. */
  ghost predicate Inv(o: seq<Outcome>, provErr: Option<Error>, s: State,
                      batchOrder: seq<nat>, errorOrder: seq<nat>)
  {
    && WorkersMatch(o, s, batchOrder, errorOrder)
    && CollectorMatches(o, s)
    && PickedMatches(o, provErr, s, batchOrder, errorOrder)
  }

  function BatchOrder(order: seq<nat>, a: Action): seq<nat> { if a.SendBatch? then order + [a.worker] else order }
  function ErrorOrder(order: seq<nat>, a: Action): seq<nat> { if a.SendError? then order + [a.worker] else order }

  lemma WorkersInitially(o: seq<Outcome>, provErr: Option<Error>)
    ensures WorkersMatch(o, Init(o, provErr), [], []) && CollectorMatches(o, Init(o, provErr))
  {
  }

  lemma DataInitially(o: seq<Outcome>, provErr: Option<Error>)
    ensures DataMatches(o, provErr, Init(o, provErr), [], [])
  {
  }

  lemma InvInitially(o: seq<Outcome>, provErr: Option<Error>)
    ensures Inv(o, provErr, Init(o, provErr), [], [])
  {
    WorkersInitially(o, provErr);
    DataInitially(o, provErr);
    assert Pick(Batches(o), []) == [] && Pick(Reports(o), []) == [];
    assert PickedMatches(o, provErr, Init(o, provErr), [], []);
  }

  lemma StepKeepsCollector(o: seq<Outcome>, s: State, a: Action)
    requires CollectorMatches(o, s) && Enabled(o, s, a)
    ensures CollectorMatches(o, Next(o, s, a))
  {
  }

  lemma SpawnKeepsWorkers(o: seq<Outcome>, s: State, batchOrder: seq<nat>, errorOrder: seq<nat>)
    requires WorkersMatch(o, s, batchOrder, errorOrder) && Enabled(o, s, Spawn)
    ensures WorkersMatch(o, Next(o, s, Spawn), batchOrder, errorOrder)
  {
  }

  lemma ScrapeKeepsWorkers(o: seq<Outcome>, s: State, batchOrder: seq<nat>, errorOrder: seq<nat>, i: nat)
    requires WorkersMatch(o, s, batchOrder, errorOrder) && Enabled(o, s, Scrape(i))
    ensures WorkersMatch(o, Next(o, s, Scrape(i)), batchOrder, errorOrder)
  {
  }

  lemma SendBatchKeepsWorkers(o: seq<Outcome>, s: State, batchOrder: seq<nat>, errorOrder: seq<nat>, i: nat)
    requires WorkersMatch(o, s, batchOrder, errorOrder) && Enabled(o, s, SendBatch(i))
    ensures WorkersMatch(o, Next(o, s, SendBatch(i)), batchOrder + [i], errorOrder)
  {
    assert i !in batchOrder;
  }

  lemma SendErrorKeepsWorkers(o: seq<Outcome>, s: State, batchOrder: seq<nat>, errorOrder: seq<nat>, i: nat)
    requires WorkersMatch(o, s, batchOrder, errorOrder) && Enabled(o, s, SendError(i))
    ensures WorkersMatch(o, Next(o, s, SendError(i)), batchOrder, errorOrder + [i])
  {
    assert i !in errorOrder;
  }

  lemma StepKeepsWorkers(o: seq<Outcome>, s: State, batchOrder: seq<nat>, errorOrder: seq<nat>, a: Action)
    requires WorkersMatch(o, s, batchOrder, errorOrder) && CollectorMatches(o, s) && Enabled(o, s, a)
    ensures WorkersMatch(o, Next(o, s, a), BatchOrder(batchOrder, a), ErrorOrder(errorOrder, a))
    ensures CollectorMatches(o, Next(o, s, a))
  {
    StepKeepsCollector(o, s, a);
    match a {
      case Spawn => SpawnKeepsWorkers(o, s, batchOrder, errorOrder);
      case Scrape(i) => ScrapeKeepsWorkers(o, s, batchOrder, errorOrder, i);
      case SendBatch(i) => SendBatchKeepsWorkers(o, s, batchOrder, errorOrder, i);
      case SendError(i) => SendErrorKeepsWorkers(o, s, batchOrder, errorOrder, i);
      case _ =>
    }
  }

  /** Each action keeps the invariant, extending the two send orders */
  lemma StepKeepsInv(o: seq<Outcome>, provErr: Option<Error>, s: State,
                     batchOrder: seq<nat>, errorOrder: seq<nat>, a: Action)
    requires Inv(o, provErr, s, batchOrder, errorOrder) && Enabled(o, s, a)
    ensures Inv(o, provErr, Next(o, s, a), BatchOrder(batchOrder, a), ErrorOrder(errorOrder, a))
  {
    StepKeepsWorkers(o, s, batchOrder, errorOrder, a);
    if a.SendBatch? || a.SendError? {
      SendKeepsPicked(o, provErr, s, batchOrder, errorOrder, a);
    } else if a.ReceiveBatch? {
      ReceiveKeepsData(o, provErr, s, Pick(Batches(o), batchOrder), Pick(Reports(o), errorOrder));
    } else {
      OtherKeepsData(o, provErr, s, Pick(Batches(o), batchOrder), Pick(Reports(o), errorOrder), a);
    }
  }

  ghost predicate PickedMatches(o: seq<Outcome>, provErr: Option<Error>, s: State,
                                batchOrder: seq<nat>, errorOrder: seq<nat>)
  {
    && (forall j :: 0 <= j < |batchOrder| ==> batchOrder[j] < |o|)
    && (forall j :: 0 <= j < |errorOrder| ==> errorOrder[j] < |o|)
    && DataMatches(o, provErr, s, Pick(Batches(o), batchOrder), Pick(Reports(o), errorOrder))
  }

  lemma SendKeepsPicked(o: seq<Outcome>, provErr: Option<Error>, s: State,
                        batchOrder: seq<nat>, errorOrder: seq<nat>, a: Action)
    requires PickedMatches(o, provErr, s, batchOrder, errorOrder)
    requires Enabled(o, s, a) && (a.SendBatch? || a.SendError?)
    ensures PickedMatches(o, provErr, Next(o, s, a), BatchOrder(batchOrder, a), ErrorOrder(errorOrder, a))
  {
    var bs, es := Pick(Batches(o), batchOrder), Pick(Reports(o), errorOrder);
    if a.SendBatch? {
      SendBatchKeepsData(o, provErr, s, bs, es, a.worker);
      PickAppend(Batches(o), batchOrder, [a.worker]);
      assert Pick(Batches(o), [a.worker]) == [o[a.worker].batch];
    } else {
      SendErrorKeepsData(o, provErr, s, bs, es, a.worker);
      PickAppend(Reports(o), errorOrder, [a.worker]);
      assert Pick(Reports(o), [a.worker]) == [Report(o[a.worker])];
    }
  }

  lemma SendBatchKeepsData(o: seq<Outcome>, provErr: Option<Error>, s: State,
                           bs: seq<Option<MetricsBatch>>, es: seq<Option<Error>>, i: nat)
    requires DataMatches(o, provErr, s, bs, es) && Enabled(o, s, SendBatch(i))
    ensures DataMatches(o, provErr, Next(o, s, SendBatch(i)), bs + [o[i].batch], es)
  {
    SliceAppend(bs, o[i].batch, BatchesTaken(s, |o|));
  }

  lemma SendErrorKeepsData(o: seq<Outcome>, provErr: Option<Error>, s: State,
                           bs: seq<Option<MetricsBatch>>, es: seq<Option<Error>>, i: nat)
    requires DataMatches(o, provErr, s, bs, es) && Enabled(o, s, SendError(i))
    ensures DataMatches(o, provErr, Next(o, s, SendError(i)), bs, es + [Report(o[i])])
  {
    SliceAppend(es, Report(o[i]), BatchesTaken(s, |o|));
    SliceAppend(es, Report(o[i]), ErrorsTaken(s, |o|));
  }

  lemma OtherKeepsData(o: seq<Outcome>, provErr: Option<Error>, s: State,
                       bs: seq<Option<MetricsBatch>>, es: seq<Option<Error>>, a: Action)
    requires DataMatches(o, provErr, s, bs, es) && CollectorMatches(o, s) && Enabled(o, s, a)
    requires !a.SendBatch? && !a.SendError? && !a.ReceiveBatch?
    ensures DataMatches(o, provErr, Next(o, s, a), bs, es)
  {
  }

  lemma ReceiveKeepsData(o: seq<Outcome>, provErr: Option<Error>, s: State,
                         bs: seq<Option<MetricsBatch>>, es: seq<Option<Error>>)
    requires Enabled(o, s, ReceiveBatch) && s.count < |o|
    requires DataMatches(o, provErr, s, bs, es)
    ensures DataMatches(o, provErr, Next(o, s, ReceiveBatch), bs, es)
  {
    var k := s.count;
    assert bs[..k + 1] == bs[..k] + [bs[k]];
    assert es[..k + 1] == es[..k] + [es[k]];
    GatherSnoc(NodesOf, bs[..k], bs[k]);
    GatherSnoc(PodsOf, bs[..k], bs[k]);
    GatherSnoc(ErrorsOf, es[..k], es[k]);
  }
}
