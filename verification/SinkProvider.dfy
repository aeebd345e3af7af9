/** The in-memory sink and provider (pkg/provider/sink/sinkprov.go). */
module SinkProvider {
  import opened Wrappers
  import opened MetricsTypes

  /** The first point with the given key */
  function FirstMatch<K(==), P>(key: P -> K, ps: seq<P>, k: K): Option<P> {
    if ps == [] then None
    else if key(ps[0]) == k then Some(ps[0])
    else FirstMatch(key, ps[1..], k)
  }

  /** m answers every lookup exactly as a first-match search of ps would */
  ghost predicate Indexes<K(!new), P>(m: map<K, P>, key: P -> K, ps: seq<P>) {
    forall k :: if k in m then FirstMatch(key, ps, k) == Some(m[k]) else FirstMatch(key, ps, k) == None
  }

  /** A first-match index is determined by what it indexes */
  lemma IndexUnique<K(!new), P>(m: map<K, P>, m': map<K, P>, key: P -> K, ps: seq<P>)
    requires Indexes(m, key, ps) && Indexes(m', key, ps)
    ensures m == m'
  {
    assert forall k :: k in m <==> k in m';
    assert forall k :: k in m ==> Some(m[k]) == Some(m'[k]);
  }

  lemma {:induction false} FirstMatchConcat<K, P>(key: P -> K, ps: seq<P>, qs: seq<P>, k: K)
    ensures FirstMatch(key, ps + qs, k)
         == (if FirstMatch(key, ps, k).Some? then FirstMatch(key, ps, k) else FirstMatch(key, qs, k))
  {
    if ps == [] {
      assert ps + qs == qs;
    } else {
      assert (ps + qs)[1..] == ps[1..] + qs;
      FirstMatchConcat(key, ps[1..], qs, k);
    }
  }

  /** FirstMatch returns an element with the key, preceded by none with that key */
  lemma {:induction false} FirstMatchMeaning<K, P>(key: P -> K, ps: seq<P>, k: K)
    ensures FirstMatch(key, ps, k) == None <==> forall i :: 0 <= i < |ps| ==> key(ps[i]) != k
    ensures forall p :: FirstMatch(key, ps, k) == Some(p) <==>
              exists i :: 0 <= i < |ps| && ps[i] == p && key(p) == k && forall j :: 0 <= j < i ==> key(ps[j]) != k
  {
    if ps != [] {
      FirstMatchMeaning(key, ps[1..], k);
      forall p
        ensures FirstMatch(key, ps, k) == Some(p) <==>
          exists i :: 0 <= i < |ps| && ps[i] == p && key(p) == k && forall j :: 0 <= j < i ==> key(ps[j]) != k
      {
        if key(ps[0]) != k {
          if i :| 0 <= i < |ps[1..]| && ps[1..][i] == p && key(p) == k && forall j :: 0 <= j < i ==> key(ps[1..][j]) != k {
            assert ps[i + 1] == p;
          }
          if i :| 0 <= i < |ps| && ps[i] == p && key(p) == k && forall j :: 0 <= j < i ==> key(ps[j]) != k {
            assert ps[1..][i - 1] == p;
          }
        }
      }
    }
  }

  lemma FirstWinsStep<K(!new), P>(m: map<K, P>, key: P -> K, ps: seq<P>, p: P)
    requires Indexes(m, key, ps)
    ensures Indexes(if key(p) in m then m else m[key(p) := p], key, ps + [p])
  {
    var m' := if key(p) in m then m else m[key(p) := p];
    forall k
      ensures if k in m' then FirstMatch(key, ps + [p], k) == Some(m'[k]) else FirstMatch(key, ps + [p], k) == None
    {
      FirstMatchConcat(key, ps, [p], k);
      assert [p][1..] == [];
    }
  }

  datatype TimeInfo = TimeInfo(timestamp: Time, window: int)
  const CADVISOR_WINDOW: int := 30 * 1_000_000_000
  const NO_TIME := TimeInfo(ZERO_TIME, 0)

  datatype ResourceList = ResourceList(cpu: Quantity, memory: Quantity)
  datatype ContainerMetrics = ContainerMetrics(name: string, usage: ResourceList)

  function Usage(p: MetricsPoint): ResourceList { ResourceList(p.cpuUsage, p.memoryUsage) }

  /** The answer of GetNodeMetrics for one name: nil metrics and no time when unknown */
  ghost predicate NodeAnswer(batch: MetricsBatch, name: string, time: TimeInfo, usage: Option<ResourceList>) {
    match FirstMatch(NodeKey, batch.nodes, name)
    case None => usage == None && time == NO_TIME
    case Some(p) => usage == Some(Usage(p.point)) && time == TimeInfo(p.point.timestamp, CADVISOR_WINDOW)
  }

  /** ts is the minimum of the container timestamps; the zero time when there is no container */
  ghost predicate IsEarliest(ts: Time, containers: seq<ContainerMetricsPoint>) {
    if containers == [] then ts == ZERO_TIME
    else
      && (exists i :: 0 <= i < |containers| && containers[i].point.timestamp == ts)
      && (forall i :: 0 <= i < |containers| ==> ts <= containers[i].point.timestamp)
  }

  /** ms lists name and usage of each container in order */
  ghost predicate Describes(ms: seq<ContainerMetrics>, containers: seq<ContainerMetricsPoint>) {
    && |ms| == |containers|
    && forall i :: 0 <= i < |ms| ==> ms[i] == ContainerMetrics(containers[i].name, Usage(containers[i].point))
  }

  lemma DescriptionUnique(t: Time, ms: seq<ContainerMetrics>, t': Time, ms': seq<ContainerMetrics>,
                          containers: seq<ContainerMetricsPoint>)
    requires IsEarliest(t, containers) && Describes(ms, containers)
    requires IsEarliest(t', containers) && Describes(ms', containers)
    ensures t == t' && ms == ms'
  {
  }

  /** The answer of GetContainerMetrics for one pod */
  ghost predicate PodAnswer(batch: MetricsBatch, pod: NamespacedName, time: TimeInfo,
                            metrics: Option<seq<ContainerMetrics>>)
  {
    match FirstMatch(PodKey, batch.pods, pod)
    case None => metrics == None && time == NO_TIME
    case Some(p) =>
      && metrics.Some? && Describes(metrics.value, p.containers)
      && time.window == CADVISOR_WINDOW && IsEarliest(time.timestamp, p.containers)
  }

  class SinkMetricsProvider {
    var nodes: map<string, NodeMetricsPoint>
    var pods: map<NamespacedName, PodMetricsPoint>
    ghost var installed: MetricsBatch  // the batch of the last completed Receive

    /** Both maps index one and the same batch */
    ghost predicate Valid()
      reads this
    {
      Indexes(nodes, NodeKey, installed.nodes) && Indexes(pods, PodKey, installed.pods)
    }

    constructor ()
      ensures Valid() && installed == MetricsBatch([], [])
    {
      nodes, pods := map[], map[];
      installed := MetricsBatch([], []);
    }

    /** A batch replaces everything known before; the first of several equal keys wins */
    method Receive(batch: MetricsBatch) returns (err: Option<Error>)
      modifies this
      ensures Valid() && installed == batch && err == None
    {
      var newNodes: map<string, NodeMetricsPoint> := map[];
      for i := 0 to |batch.nodes|
        invariant Indexes(newNodes, NodeKey, batch.nodes[..i])
      {
        var nodePoint := batch.nodes[i];
        FirstWinsStep(newNodes, NodeKey, batch.nodes[..i], nodePoint);
        assert batch.nodes[..i + 1] == batch.nodes[..i] + [nodePoint];
        if nodePoint.name in newNodes {
          continue;
        }
        newNodes := newNodes[nodePoint.name := nodePoint];
      }
      assert batch.nodes[..|batch.nodes|] == batch.nodes;

      var newPods: map<NamespacedName, PodMetricsPoint> := map[];
      for i := 0 to |batch.pods|
        invariant Indexes(newPods, PodKey, batch.pods[..i])
      {
        var podPoint := batch.pods[i];
        var podIdent := NamespacedName(podPoint.namespace, podPoint.name);
        FirstWinsStep(newPods, PodKey, batch.pods[..i], podPoint);
        assert batch.pods[..i + 1] == batch.pods[..i] + [podPoint];
        if podIdent in newPods {
          continue;
        }
        newPods := newPods[podIdent := podPoint];
      }
      assert batch.pods[..|batch.pods|] == batch.pods;

      nodes, pods := newNodes, newPods;
      installed := batch;
      err := None;
    }

    method GetNodeMetrics(names: seq<string>)
      returns (timestamps: array<TimeInfo>, resMetrics: array<Option<ResourceList>>, err: Option<Error>)
      requires Valid()
      ensures timestamps.Length == resMetrics.Length == |names| && err == None
      ensures forall i :: 0 <= i < |names| ==> NodeAnswer(installed, names[i], timestamps[i], resMetrics[i])
    {
      timestamps := new TimeInfo[|names|](_ => NO_TIME);
      resMetrics := new Option<ResourceList>[|names|](_ => None);
      err := None;
      for i := 0 to |names|
        invariant forall k :: 0 <= k < i ==> NodeAnswer(installed, names[k], timestamps[k], resMetrics[k])
        invariant forall k :: i <= k < |names| ==> timestamps[k] == NO_TIME && resMetrics[k] == None
      {
        if names[i] !in nodes {
          continue;
        }
        var metricPoint := nodes[names[i]];
        timestamps[i] := TimeInfo(metricPoint.point.timestamp, CADVISOR_WINDOW);
        resMetrics[i] := Some(ResourceList(metricPoint.point.cpuUsage, metricPoint.point.memoryUsage));
      }
    }

    method GetContainerMetrics(names: seq<NamespacedName>)
      returns (timestamps: array<TimeInfo>, resMetrics: array<Option<seq<ContainerMetrics>>>, err: Option<Error>)
      requires Valid()
      ensures timestamps.Length == resMetrics.Length == |names| && err == None
      ensures forall i :: 0 <= i < |names| ==> PodAnswer(installed, names[i], timestamps[i], resMetrics[i])
    {
      timestamps := new TimeInfo[|names|](_ => NO_TIME);
      resMetrics := new Option<seq<ContainerMetrics>>[|names|](_ => None);
      err := None;
      for i := 0 to |names|
        invariant forall k :: 0 <= k < i ==> PodAnswer(installed, names[k], timestamps[k], resMetrics[k])
        invariant forall k :: i <= k < |names| ==> timestamps[k] == NO_TIME && resMetrics[k] == None
      {
        if names[i] !in pods {
          continue;
        }
        var earliestTS, contMetrics := DescribeContainers(pods[names[i]].containers);
        timestamps[i] := TimeInfo(earliestTS, CADVISOR_WINDOW);
        resMetrics[i] := Some(contMetrics);
      }
    }
  }

  /** The inner loop of GetContainerMetrics */
  method DescribeContainers(containers: seq<ContainerMetricsPoint>)
    returns (earliest: Time, described: seq<ContainerMetrics>)
    ensures IsEarliest(earliest, containers) && Describes(described, containers)
  {
    var contMetrics := new ContainerMetrics[|containers|];
    var earliestTS: Option<Time> := None;
    for i := 0 to |containers|
      invariant Describes(contMetrics[..i], containers[..i])
      invariant earliestTS == None <==> i == 0
      invariant earliestTS.Some? ==> IsEarliest(earliestTS.value, containers[..i])
    {
      var contPoint := containers[i];
      contMetrics[i] :=
        ContainerMetrics(contPoint.name, ResourceList(contPoint.point.cpuUsage, contPoint.point.memoryUsage));
      assert containers[..i + 1][i] == contPoint;
      if earliestTS.None? || earliestTS.value > contPoint.point.timestamp {
        earliestTS := Some(contPoint.point.timestamp);
      } else {
        var j :| 0 <= j < i && containers[..i][j].point.timestamp == earliestTS.value;
        assert containers[..i + 1][j].point.timestamp == earliestTS.value;
      }
    }
    assert containers[..|containers|] == containers && contMetrics[..|containers|] == contMetrics[..];
    described := contMetrics[..];
    earliest := if earliestTS.None? then ZERO_TIME else earliestTS.value;
  }
}
