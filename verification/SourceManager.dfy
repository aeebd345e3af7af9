/** sourceManager.Collect (pkg/sources/manager.go) over channel objects, with the Go
    scheduler as nondeterministic choice. */
module SourceManager {
  import opened Wrappers
  import opened MetricsTypes
  import opened CollectProtocol
  import opened CollectRuns
  import opened CollectResults

  /** A buffered Go channel. The preconditions are the cases in which the operation neither
      blocks nor panics. */
  class Channel<T> {
    const capacity: nat
    var buffer: seq<T>
    var closed: bool

    constructor (capacity: nat)
      ensures this.capacity == capacity && buffer == [] && !closed
    {
      this.capacity := capacity;
      buffer, closed := [], false;
    }

    method Send(x: T)
      requires !closed && |buffer| < capacity
      modifies this`buffer
      ensures buffer == old(buffer) + [x]
    {
      buffer := buffer + [x];
    }

    method Receive() returns (x: T)
      requires buffer != []
      modifies this`buffer
      ensures [x] + buffer == old(buffer)
    {
      x, buffer := buffer[0], buffer[1..];
    }

    method Close()
      requires !closed
      modifies this`closed
      ensures closed
    {
      closed := true;
    }
  }

  /** One activation of Collect: its locals, the two channels, and the goroutines */
  class Collection {
    const o: seq<Outcome>
    const responseChannel: Channel<Option<MetricsBatch>>
    const errChannel: Channel<Option<Error>>
    var workers: seq<Worker>
    var collector: Collector
    var count: nat
    var nodes: seq<NodeMetricsPoint>
    var pods: seq<PodMetricsPoint>
    var errs: seq<Error>

    /** The protocol state this object stands for */
    ghost function Abs(): State
      reads this, responseChannel, errChannel
    {
      State(workers, responseChannel.buffer, responseChannel.closed,
            errChannel.buffer, errChannel.closed, collector, count, nodes, pods, errs)
    }

    constructor (o: seq<Outcome>, provErr: Option<Error>)
      ensures this.o == o && fresh(responseChannel) && fresh(errChannel)
      ensures responseChannel.capacity == errChannel.capacity == |o|
      ensures Abs() == Init(o, provErr)
    {
      this.o := o;
      responseChannel := new Channel<Option<MetricsBatch>>(|o|);
      errChannel := new Channel<Option<Error>>(|o|);
      workers := seq(|o|, _ => NotStarted);
      collector := if o == [] then ClosingErrors else Spawning;
      count, nodes, pods := 0, [], [];
      errs := if provErr.Some? then [provErr.value] else [];
    }

    /** The loop that starts the goroutines */
    method SpawnNext()
      requires Enabled(o, Abs(), Spawn)
      modifies this
      ensures Abs() == Next(o, old(Abs()), Spawn)
    {
      workers := workers[count := Scraping];
      if count + 1 < |o| {
        count := count + 1;
      } else {
        collector, count := ReceivingError, 0;
      }
    }

    /** One step of goroutine i: scrape, send the batch, send the error */
    method RunWorker(i: nat) returns (ghost a: Action)
      requires i < |workers| == |o| && (workers[i].Scraping? || workers[i].Sending? || workers[i].Reporting?)
      requires responseChannel.capacity == errChannel.capacity == |o|
      requires !SendHitsClosed(Abs()) && !SendWaits(o, Abs())
      modifies this, responseChannel, errChannel
      ensures Enabled(o, old(Abs()), a) && Abs() == Next(o, old(Abs()), a)
    {
      match workers[i] {
        case Scraping =>
          a := Scrape(i);
          workers := workers[i := Sending];
        case Sending =>
          a := SendBatch(i);
          responseChannel.Send(o[i].batch);
          workers := workers[i := Reporting];
        case Reporting =>
          a := SendError(i);
          errChannel.Send(Report(o[i]));
          workers := workers[i := Finished];
      }
    }

    /** One step of the receive loop: the error first, then the batch and the appends */
    method ReceiveNext() returns (ghost a: Action)
      requires |workers| == |o|
      requires (collector.ReceivingError? && errChannel.buffer != []) || collector.ReceivingBatch?
      requires !BatchReceiveWaits(Abs())
      modifies this, responseChannel, errChannel
      ensures Enabled(o, old(Abs()), a) && Abs() == Next(o, old(Abs()), a)
    {
      if collector.ReceivingError? {
        a := ReceiveError;
        var err := errChannel.Receive();
        collector := ReceivingBatch(err);
      } else {
        a := ReceiveBatch;
        TakeBatch();
      }
    }

    /** The second half of an iteration: the batch, after the error has been received */
    method TakeBatch()
      requires |workers| == |o| && collector.ReceivingBatch? && !BatchReceiveWaits(Abs())
      modifies this, responseChannel
      ensures Enabled(o, old(Abs()), ReceiveBatch) && Abs() == Next(o, old(Abs()), ReceiveBatch)
    {
      var srcBatch := responseChannel.Receive();
      assert responseChannel.buffer == old(responseChannel.buffer)[1..];
      if collector.err.Some? {
        errs := errs + [collector.err.value];
      }
      if srcBatch.Some? {
        nodes := nodes + srcBatch.value.nodes;
        pods := pods + srcBatch.value.pods;
      }
      count := count + 1;
      collector := if count < |o| then ReceivingError else ClosingErrors;
    }

    /** The deferred closes */
    method CloseNext() returns (ghost a: Action)
      requires |workers| == |o| && (collector.ClosingErrors? || collector.ClosingResponses?)
      requires !errChannel.closed || collector.ClosingResponses?
      requires !responseChannel.closed
      modifies this, responseChannel, errChannel
      ensures Enabled(o, old(Abs()), a) && Abs() == Next(o, old(Abs()), a)
    {
      if collector.ClosingErrors? {
        a := CloseErrors;
        errChannel.Close();
        collector := ClosingResponses;
      } else {
        a := CloseResponses;
        responseChannel.Close();
        collector := Returned;
      }
    }
  }

  /** Runs one goroutine per source and the receive loop to the end, under an arbitrary
      schedule. No send or receive is attempted that would block or panic, something can
      always move, and the result is that of a complete run of the protocol. */
  method Collect(o: seq<Outcome>, provErr: Option<Error>) returns (res: MetricsBatch, err: Option<Error>)
    ensures exists actions, t :: Run(o, provErr, actions, t) && t.collector.Returned?
              && res == MetricsBatch(t.nodes, t.pods) && err == NewAggregate(t.errs)
    ensures exists errs :: err == NewAggregate(errs) && Conserved(o, provErr, res.nodes, res.pods, errs)
    ensures err == None <==> provErr == None && forall i :: 0 <= i < |o| ==> o[i].err == None
    ensures err.Some? ==> err.value.Aggregate? && forall e :: e in err.value.errs <==>
              provErr == Some(e)
              || exists i :: 0 <= i < |o| && o[i].err.Some? && e == ScrapeFailed(o[i].source, o[i].err.value)
    ensures err.Some? ==> |err.value.errs| == (if provErr.Some? then 1 else 0) + |FailedSources(o)|
    ensures forall p :: multiset(res.nodes)[p] == |NodePlaces(o, p)|
    ensures forall p :: multiset(res.pods)[p] == |PodPlaces(o, p)|
  {
    var c := new Collection(o, provErr);
    ghost var actions: seq<Action> := [];
    while !c.collector.Returned?
      invariant c.o == o && fresh(c) && fresh(c.responseChannel) && fresh(c.errChannel)
      invariant c.responseChannel.capacity == c.errChannel.capacity == |o|
      invariant Run(o, provErr, actions, c.Abs())
      decreases Remaining(|o|, c.Abs())
    {
      ghost var a := Spawn;
      ghost var s := c.Abs();
      SomethingMoves(o, provErr, actions, s);
      if {
        case c.collector.Spawning? =>
          c.SpawnNext();
        case exists i :: 0 <= i < |o| && (c.workers[i].Scraping? || c.workers[i].Sending? || c.workers[i].Reporting?) =>
          var i :| 0 <= i < |o| && (c.workers[i].Scraping? || c.workers[i].Sending? || c.workers[i].Reporting?);
          a := c.RunWorker(i);
        case (c.collector.ReceivingError? && c.errChannel.buffer != []) || c.collector.ReceivingBatch? =>
          a := c.ReceiveNext();
        case c.collector.ClosingErrors? || c.collector.ClosingResponses? =>
          a := c.CloseNext();
      }
      RunAdvances(o, provErr, actions, s, a);
      actions := actions + [a];
    }
    Conservation(o, provErr, actions, c.Abs());
    ErrorsExactly(o, provErr, actions, c.Abs());
    PointsExactly(o, provErr, actions, c.Abs());
    FailedSome(o, Opaque(0));
    res, err := MetricsBatch(c.nodes, c.pods), NewAggregate(c.errs);
  }

  /** In a reachable unfinished state the collector or some goroutine can move, and no
      channel operation it could try is unsafe */
  lemma SomethingMoves(o: seq<Outcome>, provErr: Option<Error>, actions: seq<Action>, s: State)
    requires Run(o, provErr, actions, s) && !s.collector.Returned?
    ensures |s.workers| == |o|
    ensures s.collector.Spawning? ==> Enabled(o, s, Spawn)
    ensures s.collector.Spawning? || s.collector.ReceivingBatch? || s.collector.ClosingErrors?
            || s.collector.ClosingResponses? || (s.collector.ReceivingError? && s.errors != [])
            || exists i :: 0 <= i < |o| && (s.workers[i].Scraping? || s.workers[i].Sending? || s.workers[i].Reporting?)
    ensures !SendHitsClosed(s) && !SendWaits(o, s) && !BatchReceiveWaits(s)
    ensures !s.responsesClosed && (s.errorsClosed ==> s.collector.ClosingResponses?)
  {
    var a := NeverStuck(o, provErr, actions, s);
    ChannelSafety(o, provErr, actions, s);
    var batchOrder, errorOrder := RunOrders(o, provErr, actions, s);
  }

  lemma RunAdvances(o: seq<Outcome>, provErr: Option<Error>, actions: seq<Action>, s: State, a: Action)
    requires Run(o, provErr, actions, s) && Enabled(o, s, a)
    ensures Run(o, provErr, actions + [a], Next(o, s, a))
    ensures 0 <= Remaining(|o|, Next(o, s, a)) < Remaining(|o|, s)
  {
    RunExtends(o, Init(o, provErr), actions, s, a);
    var batchOrder, errorOrder := RunOrders(o, provErr, actions, s);
    StepKeepsInv(o, provErr, s, batchOrder, errorOrder, a);
    StepCountsDown(o, provErr, s, batchOrder, errorOrder, a);
    RemainingBounds(o, provErr, Next(o, s, a), BatchOrder(batchOrder, a), ErrorOrder(errorOrder, a));
  }

  lemma {:induction false} RunExtends(o: seq<Outcome>, s: State, actions: seq<Action>, t: State, a: Action)
    requires Reaches(o, s, actions, t) && Enabled(o, t, a)
    ensures Reaches(o, s, actions + [a], Next(o, t, a))
    decreases |actions|
  {
    if actions == [] {
      assert [a][1..] == [];
    } else {
      RunExtends(o, Next(o, s, actions[0]), actions[1..], t, a);
      assert (actions + [a])[1..] == actions[1..] + [a];
    }
  }
}
