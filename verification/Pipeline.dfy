/** End to end: kubelet summaries are decoded (pkg/sources/summary/summary.go), collected over
    any interleaving (pkg/sources/manager.go), stored (pkg/provider/sink/sinkprov.go) and
    served (pkg/storage/podmetrics/reststorage.go). */
module Pipeline {
  import opened Wrappers
  import opened MetricsTypes
  import opened SeqTools
  import opened CollectProtocol
  import opened CollectRuns
  import opened CollectResults
  import opened SummarySource
  import opened SinkProvider
  import opened Confluence
  import opened PodStorage
  import Manager

  /** One kubelet: the node's name and what GetSummary returns for it */
  datatype Kubelet = Kubelet(node: string, fetched: Option<Summary>)

  /** What the summary source of each kubelet returns to the source manager */
  function Outcomes(ks: seq<Kubelet>): (o: seq<Outcome>)
    ensures |o| == |ks|
    ensures forall i :: 0 <= i < |ks| ==>
              o[i].batch == CollectedBatch(ks[i].node, ks[i].fetched)
              && o[i].err == CollectedError(ks[i].node, ks[i].fetched)
  {
    seq(|ks|, i requires 0 <= i < |ks| =>
      Outcome("kubelet_summary:" + ks[i].node, CollectedBatch(ks[i].node, ks[i].fetched),
              CollectedError(ks[i].node, ks[i].fetched)))
  }

  /** Some kubelet reported pod p, and all its containers decode */
  ghost predicate Measured(ks: seq<Kubelet>, p: PodStats) {
    PodDecodes(p) && exists i :: 0 <= i < |ks| && ks[i].fetched.Some? && p in ks[i].fetched.value.pods
  }

  /** All non-zero CPU and memory times of the pod's containers */
  function PodSamples(p: PodStats): set<Time> {
    set i, t | 0 <= i < |p.containers| && t in SampleTimes(p.containers[i].cpu, p.containers[i].memory) :: t
  }

  /** The served answer is that of p: its containers' readings, stamped with the earliest
      sample of all of them */
  ghost predicate ServedFrom(p: PodStats, time: TimeInfo, metrics: seq<ContainerMetrics>) {
    && PodDecodes(p)
    && |metrics| == |p.containers|
    && (forall j :: 0 <= j < |metrics| ==>
          && metrics[j].name == p.containers[j].name
          && CpuUsage(p.containers[j].cpu, metrics[j].usage.cpu)
          && MemoryUsage(p.containers[j].memory, metrics[j].usage.memory))
    && time.window == 30_000_000_000
    && (if p.containers == [] then time.timestamp == 0 else IsMinimum(time.timestamp, PodSamples(p)))
  }

  /** getScrapeTime per container and the earliest of these per pod compose to the minimum of
      all samples. */
  lemma EarliestSample(p: PodStats, ts: Time)
    requires PodDecodes(p) && IsEarliest(ts, PodPoint(p).containers) && p.containers != []
    ensures IsMinimum(ts, PodSamples(p))
  {
    var cs := PodPoint(p).containers;
    var i :| 0 <= i < |cs| && cs[i].point.timestamp == ts;
    assert ts in SampleTimes(p.containers[i].cpu, p.containers[i].memory);
    forall u | u in PodSamples(p) ensures ts <= u {
      var j :| 0 <= j < |p.containers| && u in SampleTimes(p.containers[j].cpu, p.containers[j].memory);
      assert cs[j] == ContainerPoint(p.containers[j]);
      assert cs[j].point.timestamp <= u;
    }
  }

  lemma SameMembers<T>(s: seq<T>, t: seq<T>, y: T)
    requires multiset(s) == multiset(t)
    ensures y in s <==> y in t
  {
    assert y in s <==> y in multiset(s);
    assert y in t <==> y in multiset(t);
  }

  lemma DecodedMember(p: PodStats, y: PodMetricsPoint)
    ensures y in DecodedOrNone(p) <==> PodDecodes(p) && y == PodPoint(p)
  {
  }

  lemma DecodedFrom(ks: seq<Kubelet>, y: PodMetricsPoint) returns (p: PodStats)
    requires y in Gather(PodsOf, Batches(Outcomes(ks)))
    ensures Measured(ks, p) && y == PodPoint(p)
  {
    var bs := Batches(Outcomes(ks));
    GatherMember(PodsOf, bs, y);
    var b :| b in bs && y in PodsOf(b);
    var i :| 0 <= i < |bs| && bs[i] == b;
    GatherMember(DecodedOrNone, ks[i].fetched.value.pods, y);
    p :| p in ks[i].fetched.value.pods && y in DecodedOrNone(p);
    DecodedMember(p, y);
  }

  lemma DecodedInto(ks: seq<Kubelet>, p: PodStats)
    requires Measured(ks, p)
    ensures PodPoint(p) in Gather(PodsOf, Batches(Outcomes(ks)))
  {
    var bs := Batches(Outcomes(ks));
    var i :| 0 <= i < |ks| && ks[i].fetched.Some? && p in ks[i].fetched.value.pods;
    DecodedMember(p, PodPoint(p));
    GatherMember(DecodedOrNone, ks[i].fetched.value.pods, PodPoint(p));
    assert bs[i] in bs && PodPoint(p) in PodsOf(bs[i]);
    GatherMember(PodsOf, bs, PodPoint(p));
  }

  /** After any run, the collected pods are exactly the decodings of the measured ones */
  lemma CollectedPods(ks: seq<Kubelet>, provErr: Option<Error>, actions: seq<Action>, t: State, y: PodMetricsPoint)
    requires Run(Outcomes(ks), provErr, actions, t) && t.collector.Returned?
    ensures y in t.pods <==> exists p :: Measured(ks, p) && y == PodPoint(p)
  {
    Conservation(Outcomes(ks), provErr, actions, t);
    SameMembers(t.pods, Gather(PodsOf, Batches(Outcomes(ks))), y);
    if y in t.pods {
      var p := DecodedFrom(ks, y);
    }
    if p :| Measured(ks, p) && y == PodPoint(p) {
      DecodedInto(ks, p);
    }
  }

  /** Over every interleaving: a pod is unknown exactly when no kubelet measured it, and
      otherwise what is served is the data of a measured pod of that name. */
  lemma PodServed(ks: seq<Kubelet>, provErr: Option<Error>, actions: seq<Action>, t: State,
                  key: NamespacedName, time: TimeInfo, metrics: Option<seq<ContainerMetrics>>)
    requires Run(Outcomes(ks), provErr, actions, t) && t.collector.Returned?
    requires PodAnswer(MetricsBatch(t.nodes, t.pods), key, time, metrics)
    ensures metrics.Some? <==> exists p :: Measured(ks, p) && p.name == key.name && p.namespace == key.namespace
    ensures metrics.Some? ==> exists p :: Measured(ks, p) && p.name == key.name && p.namespace == key.namespace
                                          && ServedFrom(p, time, metrics.value)
    ensures metrics.None? ==> time == TimeInfo(0, 0)
  {
    FirstMatchMeaning(PodKey, t.pods, key);
    if metrics.Some? {
      var y := FirstMatch(PodKey, t.pods, key).value;
      assert y in t.pods;
      CollectedPods(ks, provErr, actions, t, y);
      var p :| Measured(ks, p) && y == PodPoint(p);
      DecodedIsServed(p, time, metrics.value);
    }
    if p :| Measured(ks, p) && p.name == key.name && p.namespace == key.namespace {
      CollectedPods(ks, provErr, actions, t, PodPoint(p));
      assert PodKey(PodPoint(p)) == key;
    }
  }

  lemma DecodedIsServed(p: PodStats, time: TimeInfo, metrics: seq<ContainerMetrics>)
    requires PodDecodes(p) && Describes(metrics, PodPoint(p).containers)
    requires time.window == CADVISOR_WINDOW && IsEarliest(time.timestamp, PodPoint(p).containers)
    ensures ServedFrom(p, time, metrics)
  {
    var cs := PodPoint(p).containers;
    forall j | 0 <= j < |metrics|
      ensures metrics[j].name == p.containers[j].name
      ensures CpuUsage(p.containers[j].cpu, metrics[j].usage.cpu)
      ensures MemoryUsage(p.containers[j].memory, metrics[j].usage.memory)
    {
      assert cs[j] == ContainerPoint(p.containers[j]) && ContainerDecodes(p.containers[j]);
      ContainerPointMeans(p.containers[j]);
    }
    if p.containers != [] {
      EarliestSample(p, time.timestamp);
    }
  }

  /** A pod measured once is served from that measurement, whatever the interleaving */
  lemma UniquePodServed(ks: seq<Kubelet>, provErr: Option<Error>, actions: seq<Action>, t: State,
                        p: PodStats, time: TimeInfo, metrics: Option<seq<ContainerMetrics>>)
    requires Run(Outcomes(ks), provErr, actions, t) && t.collector.Returned?
    requires Measured(ks, p)
    requires forall q :: Measured(ks, q) && q.name == p.name && q.namespace == p.namespace ==> q == p
    requires PodAnswer(MetricsBatch(t.nodes, t.pods), NamespacedName(p.namespace, p.name), time, metrics)
    ensures metrics.Some? && ServedFrom(p, time, metrics.value)
  {
    PodServed(ks, provErr, actions, t, NamespacedName(p.namespace, p.name), time, metrics);
  }

  /** item names the running pod and carries the measurement p of it */
  ghost predicate MeasuredItem(ks: seq<Kubelet>, pod: Pod, p: PodStats, item: PodMetrics) {
    && pod.phase.Running? && item.name == pod.name == p.name && item.namespace == pod.namespace == p.namespace
    && Measured(ks, p) && ServedFrom(p, item.time, item.containers)
  }

  ghost predicate CarriesMeasurement(ks: seq<Kubelet>, pod: Pod, item: PodMetrics) {
    exists p :: MeasuredItem(ks, pod, p, item)
  }

  /** The pod runs and some kubelet measured it */
  ghost predicate RunsMeasured(ks: seq<Kubelet>, pod: Pod) {
    pod.phase.Running? && exists p :: Measured(ks, p) && p.name == pod.name && p.namespace == pod.namespace
  }

  lemma ServableExactly(ks: seq<Kubelet>, provErr: Option<Error>, actions: seq<Action>, t: State, pod: Pod)
    requires Run(Outcomes(ks), provErr, actions, t) && t.collector.Returned?
    ensures Servable(MetricsBatch(t.nodes, t.pods), pod) <==> RunsMeasured(ks, pod)
  {
    var found := FirstMatch(PodKey, t.pods, NameOf(pod));
    FirstMatchMeaning(PodKey, t.pods, NameOf(pod));
    if found.Some? {
      CollectedPods(ks, provErr, actions, t, found.value);
    }
    if p :| Measured(ks, p) && p.name == pod.name && p.namespace == pod.namespace {
      CollectedPods(ks, provErr, actions, t, PodPoint(p));
      assert PodKey(PodPoint(p)) == NameOf(pod);
    }
  }

  /** After a tick a pod gets an item exactly when it runs and was measured, and the item carries
      such a measurement: what Get answers about one pod. */
  lemma GetEndToEnd(ks: seq<Kubelet>, provErr: Option<Error>, actions: seq<Action>, t: State,
                    pod: Pod, item: PodMetrics)
    requires Run(Outcomes(ks), provErr, actions, t) && t.collector.Returned?
    ensures Servable(MetricsBatch(t.nodes, t.pods), pod) <==> RunsMeasured(ks, pod)
    ensures Servable(MetricsBatch(t.nodes, t.pods), pod) && ItemFor(MetricsBatch(t.nodes, t.pods), pod, item) ==>
              CarriesMeasurement(ks, pod, item)
  {
    var batch := MetricsBatch(t.nodes, t.pods);
    ServableExactly(ks, provErr, actions, t, pod);
    if Servable(batch, pod) && ItemFor(batch, pod, item) {
      PodServed(ks, provErr, actions, t, NameOf(pod), item.time, Some(item.containers));
      var p :| Measured(ks, p) && p.name == pod.name && p.namespace == pod.namespace
               && ServedFrom(p, item.time, item.containers);
      assert MeasuredItem(ks, pod, p, item);
    }
  }

  /** kept lists, in increasing order, exactly the indices of the running measured pods, and the
      items carry their measurements in that order. */
  ghost predicate ListsMeasured(ks: seq<Kubelet>, pods: seq<Pod>, items: seq<PodMetrics>, kept: seq<nat>) {
    && StrictlyIncreasing(kept) && |kept| == |items|
    && (forall j :: 0 <= j < |kept| ==>
          kept[j] < |pods| && CarriesMeasurement(ks, pods[kept[j]], items[j]))
    && (forall i: nat :: i < |pods| && RunsMeasured(ks, pods[i]) ==> i in kept)
  }

  /** One item for each running measured pod among the listed ones, in their order, and nothing else */
  ghost predicate ListedAsMeasured(ks: seq<Kubelet>, pods: seq<Pod>, items: seq<PodMetrics>) {
    exists kept :: ListsMeasured(ks, pods, items, kept)
  }

  /** From kubelet to client: after a tick, List returns one item for each listed pod that runs
      and was measured by some kubelet, in order, and every item carries such a measurement. */
  lemma ListEndToEnd(ks: seq<Kubelet>, provErr: Option<Error>, actions: seq<Action>, t: State,
                     pods: seq<Pod>, items: seq<PodMetrics>)
    requires Run(Outcomes(ks), provErr, actions, t) && t.collector.Returned?
    requires Joined(MetricsBatch(t.nodes, t.pods), pods, items)
    ensures ListedAsMeasured(ks, pods, items)
  {
    assert pods[0..] == pods;
    var kept := JoinedMeaning(MetricsBatch(t.nodes, t.pods), pods, 0, items);
    forall j | 0 <= j < |kept| ensures CarriesMeasurement(ks, pods[kept[j]], items[j]) {
      GetEndToEnd(ks, provErr, actions, t, pods[kept[j]], items[j]);
    }
    forall i: nat | i < |pods| && RunsMeasured(ks, pods[i]) ensures i in kept {
      ServableExactly(ks, provErr, actions, t, pods[i]);
    }
    assert ListsMeasured(ks, pods, items, kept);
  }

  // ----- nodes and errors, from kubelet to client -----

  /** The kubelet's summary came in, and it stands for a node of this name: an empty one if the
      node carries no timestamp */
  predicate StandsFor(k: Kubelet, name: string) {
    k.fetched.Some? && name == if Unstamped(k) then "" else k.node
  }

  /** time and usage are those of the kubelet's node readings */
  ghost predicate NodeServedFrom(k: Kubelet, time: TimeInfo, usage: ResourceList)
    requires k.fetched.Some?
  {
    var n := k.fetched.value.node;
    && time.window == 30_000_000_000
    && Measures(MetricsPoint(time.timestamp, usage.cpu, usage.memory), n.cpu, n.memory)
  }

  /** After any run, the collected node points are those of the kubelets whose summary came in */
  lemma CollectedNodes(ks: seq<Kubelet>, provErr: Option<Error>, actions: seq<Action>, t: State, y: NodeMetricsPoint)
    requires Run(Outcomes(ks), provErr, actions, t) && t.collector.Returned?
    ensures y in t.nodes <==>
              exists k :: k in ks && k.fetched.Some? && y == NodePoint(k.node, k.fetched.value.node)
  {
    var bs := Batches(Outcomes(ks));
    Conservation(Outcomes(ks), provErr, actions, t);
    SameMembers(t.nodes, Gather(NodesOf, bs), y);
    GatherMember(NodesOf, bs, y);
    NodesFrom(ks, y);
  }

  lemma NodesFrom(ks: seq<Kubelet>, y: NodeMetricsPoint)
    ensures (exists b :: b in Batches(Outcomes(ks)) && y in NodesOf(b))
       <==> exists k :: k in ks && k.fetched.Some? && y == NodePoint(k.node, k.fetched.value.node)
  {
    var bs := Batches(Outcomes(ks));
    if b :| b in bs && y in NodesOf(b) {
      var i: nat :| i < |bs| && bs[i] == b;
      NodesOfKubelet(ks, i);
      assert ks[i] in ks;
    }
    if k :| k in ks && k.fetched.Some? && y == NodePoint(k.node, k.fetched.value.node) {
      var i: nat :| i < |ks| && ks[i] == k;
      NodesOfKubelet(ks, i);
      assert bs[i] in bs;
    }
  }

  /** Over every interleaving: a node is unknown exactly when no summary stands for it, and
      otherwise time and usage are those of such a summary. */
  lemma NodeServed(ks: seq<Kubelet>, provErr: Option<Error>, actions: seq<Action>, t: State,
                   name: string, time: TimeInfo, usage: Option<ResourceList>)
    requires Run(Outcomes(ks), provErr, actions, t) && t.collector.Returned?
    requires NodeAnswer(MetricsBatch(t.nodes, t.pods), name, time, usage)
    ensures usage.Some? <==> exists k :: k in ks && StandsFor(k, name)
    ensures usage.Some? ==> exists k :: k in ks && StandsFor(k, name) && NodeServedFrom(k, time, usage.value)
    ensures usage.None? ==> time == TimeInfo(0, 0)
  {
    FirstMatchMeaning(NodeKey, t.nodes, name);
    if usage.Some? {
      var y := FirstMatch(NodeKey, t.nodes, name).value;
      assert y in t.nodes;
      CollectedNodes(ks, provErr, actions, t, y);
      var k :| k in ks && k.fetched.Some? && y == NodePoint(k.node, k.fetched.value.node);
      NodePointMeans(k.node, k.fetched.value.node);
      assert StandsFor(k, name) && NodeServedFrom(k, time, usage.value);
    }
    if k :| k in ks && StandsFor(k, name) {
      var y := NodePoint(k.node, k.fetched.value.node);
      CollectedNodes(ks, provErr, actions, t, y);
      NodePointMeans(k.node, k.fetched.value.node);
      assert NodeKey(y) == name;
    }
  }

  /** cause is why the kubelet's collection failed: the fetch, or all that is missing in its summary */
  ghost predicate FailsBecause(k: Kubelet, cause: Error) {
    if k.fetched.None? then cause == FetchFailed(k.node)
    else
      && cause.Aggregate? && cause.errs != []
      && forall e :: e in cause.errs <==> SummaryComplains(e, k.fetched.value)
  }

  /** Over every interleaving the errors of a tick are the one from listing the nodes, and one
      for each kubelet whose fetch failed or whose summary lacks a reading; it names the source
      and tells everything that is missing. */
  lemma TickErrorsExactly(ks: seq<Kubelet>, provErr: Option<Error>, actions: seq<Action>, t: State)
    requires Run(Outcomes(ks), provErr, actions, t) && t.collector.Returned?
    ensures |t.errs| == (if provErr.Some? then 1 else 0) + |FailedKubelets(ks)|
    ensures forall e :: e in t.errs ==>
              provErr == Some(e)
              || exists k, cause :: k in ks && FailsBecause(k, cause)
                                    && e == ScrapeFailed("kubelet_summary:" + k.node, cause)
    ensures forall k :: k in ks && Fails(k) ==>
              exists cause :: FailsBecause(k, cause) && ScrapeFailed("kubelet_summary:" + k.node, cause) in t.errs
  {
    var o := Outcomes(ks);
    ErrorsExactly(o, provErr, actions, t);
    forall i: nat | i < |ks|
      ensures o[i].source == "kubelet_summary:" + ks[i].node && (o[i].err.Some? <==> Fails(ks[i]))
      ensures o[i].err.Some? ==> FailsBecause(ks[i], o[i].err.value)
    {
      SourceErrorExactly(ks[i].node, ks[i].fetched);
    }
    assert FailedSources(o) == FailedKubelets(ks);
    forall k | k in ks && Fails(k)
      ensures exists cause :: FailsBecause(k, cause) && ScrapeFailed("kubelet_summary:" + k.node, cause) in t.errs
    {
      var i: nat :| i < |ks| && ks[i] == k;
      assert FailsBecause(k, o[i].err.value);
    }
  }

  /** The fetch failed, or something is missing in the summary */
  ghost predicate Fails(k: Kubelet) {
    k.fetched.None? || exists e :: SummaryComplains(e, k.fetched.value)
  }

  ghost function FailedKubelets(ks: seq<Kubelet>): set<int> { set i | 0 <= i < |ks| && Fails(ks[i]) }

  // ----- nodes: the uniqueness contract, and what makes a tick healthy -----

  predicate NodesNamed(ks: seq<Kubelet>) {
    && (forall i, j :: 0 <= i < j < |ks| ==> ks[i].node != ks[j].node)
    && (forall i :: 0 <= i < |ks| ==> ks[i].node != "")
  }

  /** The summary came in, but neither CPU nor memory carries a timestamp */
  predicate Unstamped(k: Kubelet) {
    k.fetched.Some? && SampleTimes(k.fetched.value.node.cpu, k.fetched.value.node.memory) == {}
  }

  /** The node points of kubelet i: one if the summary came in, with an empty name if unstamped */
  lemma NodesOfKubelet(ks: seq<Kubelet>, i: nat)
    requires i < |ks|
    ensures var ns := NodesOf(Batches(Outcomes(ks))[i]);
            && (ks[i].fetched.None? ==> ns == [])
            && (ks[i].fetched.Some? ==>
                  ns == [NodePoint(ks[i].node, ks[i].fetched.value.node)]
                  && ns[0].name == (if Unstamped(ks[i]) then "" else ks[i].node)
                  && (Unstamped(ks[i]) ==> ns[0] == BLANK_NODE))
  {
  }

  /** Summary sources of distinct nodes keep the uniqueness contract for node names if and only
      if at most one node lacks a timestamp: such nodes are all reported with an empty name. */
  lemma NodeContractExactly(ks: seq<Kubelet>)
    requires NodesNamed(ks)
    ensures UniqueAcross(NodesOf, NodeKey, Batches(Outcomes(ks)))
       <==> forall i, j :: 0 <= i < j < |ks| ==> !(Unstamped(ks[i]) && Unstamped(ks[j]))
  {
    if forall i, j :: 0 <= i < j < |ks| ==> !(Unstamped(ks[i]) && Unstamped(ks[j])) {
      var bs := Batches(Outcomes(ks));
      forall i, j, p, q | 0 <= i < |bs| && 0 <= j < |bs| && i != j && p in NodesOf(bs[i]) && q in NodesOf(bs[j])
        ensures NodeKey(p) != NodeKey(q)
      {
        NamesDiffer(ks, i, j, p, q);
      }
    } else {
      var i: nat, j: nat :| i < j < |ks| && Unstamped(ks[i]) && Unstamped(ks[j]);
      UnstampedClash(ks, i, j);
    }
  }

  lemma NamesDiffer(ks: seq<Kubelet>, i: nat, j: nat, p: NodeMetricsPoint, q: NodeMetricsPoint)
    requires NodesNamed(ks) && i < |ks| && j < |ks| && i != j && !(Unstamped(ks[i]) && Unstamped(ks[j]))
    requires p in NodesOf(Batches(Outcomes(ks))[i]) && q in NodesOf(Batches(Outcomes(ks))[j])
    ensures NodeKey(p) != NodeKey(q)
  {
    NodesOfKubelet(ks, i);
    NodesOfKubelet(ks, j);
  }

  lemma UnstampedClash(ks: seq<Kubelet>, i: nat, j: nat)
    requires i < j < |ks| && Unstamped(ks[i]) && Unstamped(ks[j])
    ensures !UniqueAcross(NodesOf, NodeKey, Batches(Outcomes(ks)))
  {
    var bs := Batches(Outcomes(ks));
    NodesOfKubelet(ks, i);
    NodesOfKubelet(ks, j);
    assert NodesOf(bs[i])[0] in NodesOf(bs[i]) && NodesOf(bs[j])[0] in NodesOf(bs[j]);
    assert NodeKey(NodesOf(bs[i])[0]) == NodeKey(NodesOf(bs[j])[0]);
  }

  /** Even then what is stored for nodes does not depend on the interleaving */
  lemma NodesAlwaysAgree(ks: seq<Kubelet>)
    requires NodesNamed(ks)
    ensures SourcesAgree(NodesOf, NodeKey, Batches(Outcomes(ks)))
  {
    var bs := Batches(Outcomes(ks));
    forall i, j, k | 0 <= i < |bs| && 0 <= j < |bs|
      && FirstMatch(NodeKey, NodesOf(bs[i]), k).Some? && FirstMatch(NodeKey, NodesOf(bs[j]), k).Some?
      ensures FirstMatch(NodeKey, NodesOf(bs[i]), k) == FirstMatch(NodeKey, NodesOf(bs[j]), k)
    {
      NodesOfKubelet(ks, i);
      NodesOfKubelet(ks, j);
      FirstMatchOfOne(NodeKey, NodesOf(bs[i])[0], k);
      FirstMatchOfOne(NodeKey, NodesOf(bs[j])[0], k);
    }
  }

  lemma FirstMatchOfOne<K, P>(key: P -> K, p: P, k: K)
    ensures FirstMatch(key, [p], k) == if key(p) == k then Some(p) else None
  {
  }

  /** So only pods reported differently by two nodes can make the stored index depend on the
      interleaving. */
  lemma PipelineConfluentExactly(ks: seq<Kubelet>, provErr: Option<Error>)
    requires NodesNamed(ks)
    ensures Confluent(Outcomes(ks), provErr) <==> SourcesAgree(PodsOf, PodKey, Batches(Outcomes(ks)))
  {
    NodesAlwaysAgree(ks);
    ConfluentExactly(Outcomes(ks), provErr);
  }

  predicate SomethingFetched(ks: seq<Kubelet>, provErr: Option<Error>) {
    (exists i :: 0 <= i < |ks| && ks[i].fetched.Some?) || (ks == [] && provErr == None)
  }

  lemma {:induction false} NothingFetched(bs: seq<Option<MetricsBatch>>)
    requires forall i :: 0 <= i < |bs| ==> bs[i] == None
    ensures Gather(NodesOf, bs) == []
    decreases |bs|
  {
    if bs != [] {
      NothingFetched(bs[1..]);
    }
  }

  /** Some node point comes in exactly when some summary did */
  lemma NodesExactly(ks: seq<Kubelet>)
    ensures Gather(NodesOf, Batches(Outcomes(ks))) != [] <==> exists i :: 0 <= i < |ks| && ks[i].fetched.Some?
  {
    var bs := Batches(Outcomes(ks));
    if i :| 0 <= i < |ks| && ks[i].fetched.Some? {
      assert bs[i] in bs;
      NodesOfKubelet(ks, i);
      GatherMember(NodesOf, bs, NodesOf(bs[i])[0]);
    } else {
      NothingFetched(bs);
    }
  }

  /** A kubelet whose summary did not come in leaves an error */
  lemma FailureReported(ks: seq<Kubelet>, i: nat)
    requires i < |ks| && ks[i].fetched.None?
    ensures Gather(ErrorsOf, Reports(Outcomes(ks))) != []
  {
    var es := Reports(Outcomes(ks));
    assert es[i] in es && es[i].Some?;
    GatherMember(ErrorsOf, es, es[i].value);
  }

  lemma SameEmpty<T>(s: seq<T>, t: seq<T>)
    requires multiset(s) == multiset(t)
    ensures s == [] <==> t == []
  {
  }

  /** Every tick over summary sources is good if and only if some summary came in, or there was
      nothing to fetch and no error listing the nodes. */
  lemma TickGoodExactly(ks: seq<Kubelet>, provErr: Option<Error>, actions: seq<Action>, t: State)
    requires Run(Outcomes(ks), provErr, actions, t) && t.collector.Returned?
    ensures (NewAggregate(t.errs) == None || |t.nodes| > 0) <==> SomethingFetched(ks, provErr)
  {
    var o := Outcomes(ks);
    Conservation(o, provErr, actions, t);
    NodesExactly(ks);
    SameEmpty(t.nodes, Gather(NodesOf, Batches(o)));
    assert multiset(t.errs) == multiset(ErrorsOf(provErr) + Gather(ErrorsOf, Reports(o)));
    SameEmpty(t.errs, ErrorsOf(provErr) + Gather(ErrorsOf, Reports(o)));
    assert t.errs == [] <==> provErr == None && Gather(ErrorsOf, Reports(o)) == [];
    if ks != [] && ks[0].fetched.None? {
      FailureReported(ks, 0);
    }
  }

  /** The manager's history after one more tick that ended the collection in t */
  function WithTick(h: seq<Manager.Event>, start: Time, t: State): seq<Manager.Event> {
    h + [Manager.TickStart(start), Manager.TickEnd(NewAggregate(t.errs), |t.nodes|, None)]
  }

  lemma AfterWithTick(h: seq<Manager.Event>, start: Time, t: State)
    requires Manager.Alternates(h) && |h| % 2 == 0
    ensures Manager.Alternates(WithTick(h, start, t))
    ensures Manager.After(WithTick(h, start, t)) == (start, NewAggregate(t.errs) == None || |t.nodes| > 0)
  {
    var begun := h + [Manager.TickStart(start)];
    var h' := WithTick(h, start, t);
    assert h'[..|h'| - 1] == begun && begun[..|begun| - 1] == h;
  }

  /** From kubelet to health check: once a tick has stored its data, the manager answers healthy
      if and only if that tick fetched something and began within 1.1 resolutions. */
  lemma HealthAfterTick(ks: seq<Kubelet>, provErr: Option<Error>, actions: seq<Action>, t: State,
                        h: seq<Manager.Event>, start: Time, now: Time, resolution: int)
    requires Run(Outcomes(ks), provErr, actions, t) && t.collector.Returned?
    requires Manager.Alternates(h) && |h| % 2 == 0
    ensures Manager.HealthyMeans(WithTick(h, start, t), resolution, now)
       <==> SomethingFetched(ks, provErr) && 10 * (now - start) <= 11 * resolution
  {
    AfterWithTick(h, start, t);
    TickGoodExactly(ks, provErr, actions, t);
    Manager.HealthyExactly(WithTick(h, start, t), resolution, now);
    Manager.WithinTenths(now - start, 11 * resolution);
  }
}
