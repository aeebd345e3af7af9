/** Ticks and List calls on one sink: the manager stores the batch of one cycle after the other
    (pkg/manager/manager.go) while List calls read (pkg/storage/podmetrics/reststorage.go), with
    the steps of both in any interleaving. */
module Serving {
  import opened Wrappers
  import opened MetricsTypes
  import opened SinkProvider
  import opened SinkRuns
  import opened PodStorage
  import opened Pipeline
  import CollectRuns

  /** What one tick of the manager collects from */
  datatype Cycle = Cycle(ks: seq<Kubelet>, provErr: Option<Error>)

  /** Some run of the collection returns this batch */
  ghost predicate CollectedIn(c: Cycle, batch: MetricsBatch) {
    exists actions, t :: CollectRuns.Run(Outcomes(c.ks), c.provErr, actions, t) && t.collector.Returned?
                         && batch == MetricsBatch(t.nodes, t.pods)
  }

  /** The calls on a new sink: the Receive of each cycle, then any number of reads */
  ghost predicate Calls(cycles: seq<Cycle>, s: State) {
    && Fresh(s) && |cycles| <= |s.threads|
    && (forall k :: 0 <= k < |cycles| ==> s.threads[k].Building? && CollectedIn(cycles[k], s.threads[k].batch))
    && (forall i :: |cycles| <= i < |s.threads| ==> s.threads[i].Asking?)
  }

  /** The manager takes one tick after the other: the Receive of a cycle begins after the
      previous one has returned. Reads step whenever the lock lets them. */
  predicate MayStep(n: nat, s: State, i: nat) {
    CanStep(s, i) && (0 < i < n ==> s.threads[i - 1].Received?)
  }

  ghost predicate InTurn(n: nat, s: State, schedule: seq<nat>, t: State)
    decreases |schedule|
  {
    if schedule == [] then s == t
    else MayStep(n, s, schedule[0]) && InTurn(n, Step(s, schedule[0]), schedule[1..], t)
  }

  predicate Receives(t: Thread, b: MetricsBatch) {
    (t.Building? || t.SettingNodes? || t.SettingPods?) && t.batch == b
  }

  predicate Reads(t: Thread) { t.Asking? || t.Reading? || t.Answered? }

  /** The cycles whose Receive has returned are the first ones, their batches were installed in
      that order, and at most the next one has gone as far as taking the lock. */
  ghost predicate StoredInTurn(batches: seq<MetricsBatch>, s: State) {
    && |s.installed| <= |batches| <= |s.threads|
    && s.installed == batches[..|s.installed|]
    && (forall i :: 0 <= i < |s.installed| ==> s.threads[i].Received?)
    && (forall i :: |s.installed| <= i < |batches| ==> Receives(s.threads[i], batches[i]))
    && (forall i :: |s.installed| < i < |batches| ==> s.threads[i].Building?)
    && (forall i :: |batches| <= i < |s.threads| ==> Reads(s.threads[i]))
  }

  lemma StepKeepsTurn(batches: seq<MetricsBatch>, s: State, i: nat)
    requires StoredInTurn(batches, s) && MayStep(|batches|, s, i)
    ensures StoredInTurn(batches, Step(s, i))
  {
    var t, m := Step(s, i), |s.installed|;
    assert forall j :: 0 <= j < |s.threads| && j != i ==> t.threads[j] == s.threads[j];
    if i < |batches| {
      assert i == m;
      assert batches[..m + 1] == batches[..m] + [batches[m]];
    }
  }

  lemma {:induction false} RunKeepsTurn(batches: seq<MetricsBatch>, s: State, schedule: seq<nat>, t: State)
    requires StoredInTurn(batches, s) && InTurn(|batches|, s, schedule, t)
    ensures StoredInTurn(batches, t) && Reaches(s, schedule, t)
    decreases |schedule|
  {
    if schedule != [] {
      StepKeepsTurn(batches, s, schedule[0]);
      RunKeepsTurn(batches, Step(s, schedule[0]), schedule[1..], t);
    }
  }

  /** The batches of the cycles' Receive calls */
  function BatchesOf(n: nat, s: State): (r: seq<MetricsBatch>)
    requires n <= |s.threads| && forall k :: 0 <= k < n ==> s.threads[k].Building?
    ensures |r| == n && forall k :: 0 <= k < n ==> r[k] == s.threads[k].batch
  {
    seq(n, k requires 0 <= k < n => s.threads[k].batch)
  }

  /** Neither the order of the ticks nor the lock leaves unfinished calls waiting for each other */
  lemma NoDeadlockInTurn(batches: seq<MetricsBatch>, s: State, i: nat)
    requires StoredInTurn(batches, s) && i < |s.threads| && !Finished(s.threads[i])
    ensures exists j: nat :: MayStep(|batches|, s, j)
  {
    var m := |s.installed|;
    if j :| 0 <= j < |s.threads| && s.threads[j].Reading? {
      assert MayStep(|batches|, s, j);
    } else if m < |batches| {
      assert forall j :: 0 <= j < |s.threads| && j != m ==> !Writes(s.threads[j]);
      assert MayStep(|batches|, s, m);
    } else {
      assert MayStep(|batches|, s, i);
    }
  }

  // ----- List -----

  /** What GetPodMetrics asks the provider for */
  function Keys(pods: seq<Pod>): seq<Key> {
    seq(|pods|, i requires 0 <= i < |pods| => PodName(NameOf(pods[i])))
  }

  /** item is the one made for the pod from the point that answered it */
  ghost predicate ItemFrom(pod: Pod, answer: Point, item: PodMetrics) {
    && answer.PodData? && NamespacedName(item.namespace, item.name) == NameOf(pod)
    && Describes(item.containers, answer.point.containers)
    && item.time.window == CADVISOR_WINDOW && IsEarliest(item.time.timestamp, answer.point.containers)
  }

  /** items are those GetPodMetrics makes from the answers of its read */
  ghost predicate ItemsFrom(pods: seq<Pod>, answers: seq<Option<Point>>, items: seq<PodMetrics>)
    decreases |pods|
  {
    && |answers| == |pods|
    && if pods == [] then items == []
       else if pods[0].phase.Running? && answers[0].Some? then
         items != [] && ItemFrom(pods[0], answers[0].value, items[0])
         && ItemsFrom(pods[1..], answers[1..], items[1..])
       else ItemsFrom(pods[1..], answers[1..], items)
  }

  /** Answers out of one batch give the join of the pods with that batch */
  lemma {:induction false} AnswersJoin(batch: MetricsBatch, pods: seq<Pod>, answers: seq<Option<Point>>,
                                       items: seq<PodMetrics>)
    requires ItemsFrom(pods, answers, items) && Answers(batch, Keys(pods), answers)
    ensures Joined(batch, pods, items)
    decreases |pods|
  {
    if pods != [] {
      assert answers[0] == Search(batch, Keys(pods)[0]);
      assert Keys(pods)[1..] == Keys(pods[1..]);
      AnswersJoin(batch, pods[1..], answers[1..],
                  if Servable(batch, pods[0]) then items[1..] else items);
    }
  }

  lemma {:induction false} NothingToJoin(pods: seq<Pod>, items: seq<PodMetrics>)
    requires Joined(MetricsBatch([], []), pods, items)
    ensures items == []
    decreases |pods|
  {
    if pods != [] {
      NothingToJoin(pods[1..], items);
    }
  }

  /** items answers List from cycle k alone, counted from 1; nothing before the first */
  ghost predicate ListedFrom(cycles: seq<Cycle>, k: nat, pods: seq<Pod>, items: seq<PodMetrics>) {
    k <= |cycles| && if k == 0 then items == [] else ListedAsMeasured(cycles[k - 1].ks, pods, items)
  }

  lemma CallsInTurn(cycles: seq<Cycle>, s: State, before: seq<nat>, mid: State, after: seq<nat>, t: State)
    returns (batches: seq<MetricsBatch>)
    requires Calls(cycles, s) && InTurn(|cycles|, s, before, mid) && InTurn(|cycles|, mid, after, t)
    ensures |batches| == |cycles| && forall j :: 0 <= j < |cycles| ==> CollectedIn(cycles[j], batches[j])
    ensures StoredInTurn(batches, mid) && StoredInTurn(batches, t)
    ensures Reaches(s, before, mid) && Reaches(mid, after, t)
  {
    batches := BatchesOf(|cycles|, s);
    RunKeepsTurn(batches, s, before, mid);
    RunKeepsTurn(batches, mid, after, t);
  }

  lemma ReceivedIsInstalled(batches: seq<MetricsBatch>, s: State, j: nat)
    requires StoredInTurn(batches, s) && j < |batches| && s.threads[j].Received?
    ensures j < |s.installed|
  {
    assert j >= |s.installed| ==> Receives(s.threads[j], batches[j]);
  }

  /** A read that is answered has searched one of the batches of the cycles, or none */
  lemma ReadInTurn(batches: seq<MetricsBatch>, s: State, before: seq<nat>, mid: State, after: seq<nat>, t: State,
                   i: nat)
    requires Fresh(s) && Reaches(s, before, mid) && Reaches(mid, after, t) && StoredInTurn(batches, t)
    requires i < |t.threads| && t.threads[i].Answered?
    ensures t.threads[i].at <= |batches|
    ensures Answers(BatchAt(batches, t.threads[i].at), t.threads[i].keys, t.threads[i].answers)
  {
    RunsCompose(s, before, mid, after, t);
    ReadsComeFromOneBatch(s, before + after, t, i);
  }

  lemma JoinedInCycle(c: Cycle, batch: MetricsBatch, pods: seq<Pod>, items: seq<PodMetrics>)
    requires CollectedIn(c, batch) && Joined(batch, pods, items)
    ensures ListedAsMeasured(c.ks, pods, items)
  {
    var actions, t :| CollectRuns.Run(Outcomes(c.ks), c.provErr, actions, t) && t.collector.Returned?
                      && batch == MetricsBatch(t.nodes, t.pods);
    ListEndToEnd(c.ks, c.provErr, actions, t, pods, items);
  }

  lemma ItemsOfCycle(cycles: seq<Cycle>, batches: seq<MetricsBatch>, k: nat, pods: seq<Pod>,
                     answers: seq<Option<Point>>, items: seq<PodMetrics>)
    requires k <= |batches| == |cycles| && forall j :: 0 <= j < |cycles| ==> CollectedIn(cycles[j], batches[j])
    requires ItemsFrom(pods, answers, items) && Answers(BatchAt(batches, k), Keys(pods), answers)
    ensures ListedFrom(cycles, k, pods, items)
  {
    AnswersJoin(BatchAt(batches, k), pods, answers, items);
    if k == 0 {
      NothingToJoin(pods, items);
    } else {
      JoinedInCycle(cycles[k - 1], batches[k - 1], pods, items);
    }
  }

  /** Over every interleaving of ticks and List calls, what a List call returns comes from one
      single cycle, which is no older than the last one stored before the call began. */
  lemma ListSeesOneCycle(cycles: seq<Cycle>, s: State, before: seq<nat>, mid: State, after: seq<nat>, t: State,
                         i: nat, pods: seq<Pod>, items: seq<PodMetrics>)
    requires Calls(cycles, s) && InTurn(|cycles|, s, before, mid) && InTurn(|cycles|, mid, after, t)
    requires i < |mid.threads| && mid.threads[i].Asking?
    requires i < |t.threads| && t.threads[i].Answered? && t.threads[i].keys == Keys(pods)
    requires ItemsFrom(pods, t.threads[i].answers, items)
    ensures ListedFrom(cycles, t.threads[i].at, pods, items)
    ensures |cycles| <= |mid.threads|
    ensures forall j: nat :: j < |cycles| && mid.threads[j].Received? ==> j < t.threads[i].at
  {
    var batches := CallsInTurn(cycles, s, before, mid, after, t);
    ReadsAreFresh(s, before, mid, after, t, i);
    ReadInTurn(batches, s, before, mid, after, t, i);
    ItemsOfCycle(cycles, batches, t.threads[i].at, pods, t.threads[i].answers, items);
    forall j: nat | j < |cycles| && mid.threads[j].Received? ensures j < t.threads[i].at {
      ReceivedIsInstalled(batches, mid, j);
    }
  }
}
