/** Decoding a kubelet summary into a metrics batch (pkg/sources/summary/summary.go). */
module SummarySource {
  import opened Wrappers
  import opened MetricsTypes
  import opened SeqTools

  type uint64 = x: int | 0 <= x < 0x1_0000_0000_0000_0000
  const MAX_INT64: int := 0x7FFF_FFFF_FFFF_FFFF

  datatype CPUStats = CPUStats(time: Time, usageNanoCores: Option<uint64>)
  datatype MemoryStats = MemoryStats(time: Time, workingSetBytes: Option<uint64>)
  datatype ContainerStats = ContainerStats(name: string, cpu: Option<CPUStats>, memory: Option<MemoryStats>)
  datatype NodeStats = NodeStats(cpu: Option<CPUStats>, memory: Option<MemoryStats>)
  datatype PodStats = PodStats(name: string, namespace: string, containers: seq<ContainerStats>)
  datatype Summary = Summary(node: NodeStats, pods: seq<PodStats>)

  /** The non-zero timestamps a CPU and a memory reading carry */
  function SampleTimes(cpu: Option<CPUStats>, memory: Option<MemoryStats>): set<Time> {
    (if cpu.Some? && cpu.value.time != ZERO_TIME then {cpu.value.time} else {})
    + (if memory.Some? && memory.value.time != ZERO_TIME then {memory.value.time} else {})
  }

  /** The earlier of the two sample times; none (an error in the code) when both are missing */
  function GetScrapeTime(cpu: Option<CPUStats>, memory: Option<MemoryStats>): (r: Option<Time>)
    ensures r == None <==> SampleTimes(cpu, memory) == {}
    ensures r.Some? ==> r.value in SampleTimes(cpu, memory)
                        && forall t :: t in SampleTimes(cpu, memory) ==> r.value <= t
    ensures r == None <==> (cpu.Some? ==> cpu.value.time == 0) && (memory.Some? ==> memory.value.time == 0)
    ensures r.Some? ==> r.value != 0 && ((cpu.Some? && r.value == cpu.value.time)
                                         || (memory.Some? && r.value == memory.value.time))
    ensures r.Some? && cpu.Some? && cpu.value.time != 0 ==> r.value <= cpu.value.time
    ensures r.Some? && memory.Some? && memory.value.time != 0 ==> r.value <= memory.value.time
  {
    var earliest: Option<Time> :=
      if cpu.Some? && cpu.value.time != ZERO_TIME then Some(cpu.value.time) else None;
    if memory.Some? && memory.value.time != ZERO_TIME && (earliest == None || earliest.value > memory.value.time)
    then Some(memory.value.time)
    else earliest
  }

  /** A uint64 at 10^scale, in a quantity whose mantissa must fit an int64 */
  function Uint64Quantity(val: uint64, scale: int): Quantity {
    if val <= MAX_INT64 then Quantity(val, scale, DecimalSI)
    else Quantity(val / 10, scale + 1, DecimalSI)
  }

  /** q stands for val * 10^scale: exactly if val fits an int64, else rounded down to tens */
  predicate Represents(q: Quantity, val: int, scale: int) {
    && 0 <= q.mantissa <= 9_223_372_036_854_775_807
    && if val <= 9_223_372_036_854_775_807 then q.scale == scale && q.mantissa == val
       else q.scale == scale + 1 && 10 * q.mantissa <= val < 10 * q.mantissa + 10
  }

  predicate IsExact(q: Quantity, val: int, scale: int) {
    q.mantissa * (if q.scale == scale then 1 else 10) == val
  }

  /** The mantissa fits, less than one unit of the coarser scale is lost, and the value is
      kept exactly if and only if it fits an int64 or ends in a zero digit. */
  lemma QuantityPrecision(val: uint64, scale: int)
    ensures Represents(Uint64Quantity(val, scale), val, scale)
    ensures IsExact(Uint64Quantity(val, scale), val, scale)
       <==> val <= 9_223_372_036_854_775_807 || val % 10 == 0
  {
  }

  function DecodeCpu(cpu: Option<CPUStats>): Option<Quantity> {
    if cpu == None || cpu.value.usageNanoCores == None then None
    else Some(Uint64Quantity(cpu.value.usageNanoCores.value, -9))
  }

  function DecodeMemory(memory: Option<MemoryStats>): Option<Quantity> {
    if memory == None || memory.value.workingSetBytes == None then None
    else Some(Uint64Quantity(memory.value.workingSetBytes.value, 0).(format := BinarySI))
  }

  /** CPU is counted in nanocores with a decimal suffix, memory in bytes with a binary one; a
      reading decodes if and only if it is there. */
  lemma ReadingsDecoded(cpu: Option<CPUStats>, memory: Option<MemoryStats>)
    ensures DecodeCpu(cpu).Some? <==> cpu.Some? && cpu.value.usageNanoCores.Some?
    ensures DecodeCpu(cpu).Some? ==>
              Represents(DecodeCpu(cpu).value, cpu.value.usageNanoCores.value, -9)
              && DecodeCpu(cpu).value.format == DecimalSI
    ensures DecodeMemory(memory).Some? <==> memory.Some? && memory.value.workingSetBytes.Some?
    ensures DecodeMemory(memory).Some? ==>
              Represents(DecodeMemory(memory).value, memory.value.workingSetBytes.value, 0)
              && DecodeMemory(memory).value.format == BinarySI
  {
  }

  // ----- the specification: filter and map -----

  predicate ContainerDecodes(c: ContainerStats) {
    GetScrapeTime(c.cpu, c.memory).Some? && DecodeCpu(c.cpu).Some? && DecodeMemory(c.memory).Some?
  }

  /** A missing CPU or memory reading leaves that usage at zero */
  function PointAt(t: Time, cpu: Option<CPUStats>, memory: Option<MemoryStats>): MetricsPoint {
    MetricsPoint(t, if DecodeCpu(cpu).Some? then DecodeCpu(cpu).value else ZERO_QUANTITY,
                 if DecodeMemory(memory).Some? then DecodeMemory(memory).value else ZERO_QUANTITY)
  }

  const BLANK_CONTAINER := ContainerMetricsPoint("", ZERO_POINT)

  /** Without a timestamp a container's place in the pod stays blank, the empty name included. */
  function ContainerPoint(c: ContainerStats): ContainerMetricsPoint {
    match GetScrapeTime(c.cpu, c.memory)
    case None => BLANK_CONTAINER
    case Some(t) => ContainerMetricsPoint(c.name, PointAt(t, c.cpu, c.memory))
  }

  predicate PodDecodes(p: PodStats) {
    forall i :: 0 <= i < |p.containers| ==> ContainerDecodes(p.containers[i])
  }

  function PodPoint(p: PodStats): PodMetricsPoint {
    PodMetricsPoint(p.name, p.namespace,
                    seq(|p.containers|, i requires 0 <= i < |p.containers| => ContainerPoint(p.containers[i])))
  }

  /** point holds the pod's first i containers, and blanks after them */
  ghost predicate FilledUpTo(point: PodMetricsPoint, p: PodStats, i: nat) {
    && point.name == p.name && point.namespace == p.namespace && i <= |point.containers| == |p.containers|
    && (forall k :: 0 <= k < i ==> point.containers[k] == ContainerPoint(p.containers[k]))
    && (forall k :: i <= k < |p.containers| ==> point.containers[k] == BLANK_CONTAINER)
  }

  lemma FillStep(point: PodMetricsPoint, p: PodStats, i: nat)
    requires FilledUpTo(point, p, i) && i < |p.containers|
    ensures FilledUpTo(point.(containers := point.containers[i := ContainerPoint(p.containers[i])]), p, i + 1)
    ensures ContainerPoint(p.containers[i]) == BLANK_CONTAINER ==> FilledUpTo(point, p, i + 1)
  {
  }

  lemma FilledIsAll(point: PodMetricsPoint, p: PodStats)
    requires FilledUpTo(point, p, |p.containers|)
    ensures point == PodPoint(p)
  {
    assert point.containers == PodPoint(p).containers;
  }

  function DecodedOrNone(p: PodStats): seq<PodMetricsPoint> { if PodDecodes(p) then [PodPoint(p)] else [] }

  /** The decodings of the pods that decode completely, in input order */
  function DecodedPods(pods: seq<PodStats>): seq<PodMetricsPoint> { Gather(DecodedOrNone, pods) }

  function MetricErrors(what: string, cpu: Option<CPUStats>, memory: Option<MemoryStats>): seq<Error> {
    if GetScrapeTime(cpu, memory) == None then [NoTimestamp(what)]
    else (if DecodeCpu(cpu) == None then [MissingCpu(what)] else [])
         + (if DecodeMemory(memory) == None then [MissingMemory(what)] else [])
  }

  function ContainerErrors(c: ContainerStats): seq<Error> { MetricErrors(c.name, c.cpu, c.memory) }
  function PodErrors(p: PodStats): seq<Error> { Gather(ContainerErrors, p.containers) }
  function NodeErrors(n: NodeStats): seq<Error> { MetricErrors("node", n.cpu, n.memory) }

  const BLANK_NODE := NodeMetricsPoint("", ZERO_POINT)

  /** Without a timestamp the node's new point stays blank, the empty name included. */
  function NodePoint(name: string, n: NodeStats): NodeMetricsPoint {
    match GetScrapeTime(n.cpu, n.memory)
    case None => BLANK_NODE
    case Some(t) => NodeMetricsPoint(name, PointAt(t, n.cpu, n.memory))
  }

  // ----- what points and errors mean, said about the readings alone -----

  /** q is the CPU usage to report: the reading in nanocores, or zero if there is none */
  predicate CpuUsage(cpu: Option<CPUStats>, q: Quantity) {
    if cpu.Some? && cpu.value.usageNanoCores.Some?
    then Represents(q, cpu.value.usageNanoCores.value, -9) && q.format == DecimalSI
    else q == Quantity(0, 0, Unset)
  }

  /** q is the memory usage to report: the reading in bytes, or zero if there is none */
  predicate MemoryUsage(memory: Option<MemoryStats>, q: Quantity) {
    if memory.Some? && memory.value.workingSetBytes.Some?
    then Represents(q, memory.value.workingSetBytes.value, 0) && q.format == BinarySI
    else q == Quantity(0, 0, Unset)
  }

  predicate IsMinimum(t: Time, s: set<Time>) { t in s && forall u :: u in s ==> t <= u }

  /** Without a timestamp everything is zero; else the point carries the earlier timestamp and
      both readings. */
  predicate Measures(p: MetricsPoint, cpu: Option<CPUStats>, memory: Option<MemoryStats>) {
    if SampleTimes(cpu, memory) == {} then p == MetricsPoint(0, Quantity(0, 0, Unset), Quantity(0, 0, Unset))
    else
      && IsMinimum(p.timestamp, SampleTimes(cpu, memory))
      && CpuUsage(cpu, p.cpuUsage) && MemoryUsage(memory, p.memoryUsage)
  }

  lemma NodePointMeans(name: string, n: NodeStats)
    ensures NodePoint(name, n).name == if SampleTimes(n.cpu, n.memory) == {} then "" else name
    ensures Measures(NodePoint(name, n).point, n.cpu, n.memory)
  {
    ReadingsDecoded(n.cpu, n.memory);
  }

  lemma ContainerPointMeans(c: ContainerStats)
    ensures ContainerPoint(c).name == if SampleTimes(c.cpu, c.memory) == {} then "" else c.name
    ensures Measures(ContainerPoint(c).point, c.cpu, c.memory)
  {
    ReadingsDecoded(c.cpu, c.memory);
  }

  /** e is an error to report about these readings */
  predicate Complains(e: Error, what: string, cpu: Option<CPUStats>, memory: Option<MemoryStats>) {
    if SampleTimes(cpu, memory) == {} then e == NoTimestamp(what)
    else
      || (e == MissingCpu(what) && (cpu.None? || cpu.value.usageNanoCores.None?))
      || (e == MissingMemory(what) && (memory.None? || memory.value.workingSetBytes.None?))
  }

  /** Each error to report is reported once, and nothing else; CPU comes before memory. */
  lemma MetricErrorsExactly(what: string, cpu: Option<CPUStats>, memory: Option<MemoryStats>)
    ensures NoDup(MetricErrors(what, cpu, memory))
    ensures forall e :: e in MetricErrors(what, cpu, memory) <==> Complains(e, what, cpu, memory)
    ensures forall i, j :: 0 <= i < j < |MetricErrors(what, cpu, memory)| ==>
              MetricErrors(what, cpu, memory)[i].MissingCpu? && MetricErrors(what, cpu, memory)[j].MissingMemory?
  {
    ReadingsDecoded(cpu, memory);
  }

  /** e is an error to report about this summary: about the node or some container */
  ghost predicate SummaryComplains(e: Error, s: Summary) {
    || Complains(e, "node", s.node.cpu, s.node.memory)
    || exists p, c :: p in s.pods && c in p.containers && Complains(e, c.name, c.cpu, c.memory)
  }

  /** What a source returns as its error: the failed fetch, or all errors of the summary at once */
  lemma SourceErrorExactly(node: string, fetched: Option<Summary>)
    ensures fetched.None? ==> CollectedError(node, fetched) == Some(FetchFailed(node))
    ensures fetched.Some? ==>
              (CollectedError(node, fetched) == None <==> forall e :: !SummaryComplains(e, fetched.value))
    ensures fetched.Some? && CollectedError(node, fetched).Some? ==>
              CollectedError(node, fetched).value.Aggregate?
              && forall e :: e in CollectedError(node, fetched).value.errs <==> SummaryComplains(e, fetched.value)
  {
    if fetched.Some? {
      var s := fetched.value;
      var errs := NodeErrors(s.node) + Gather(PodErrors, s.pods);
      forall e ensures e in errs <==> SummaryComplains(e, s) {
        MetricErrorsExactly("node", s.node.cpu, s.node.memory);
        PodsComplain(e, s.pods);
      }
      if errs != [] {
        assert errs[0] in errs;
      }
    }
  }

  lemma PodsComplain(e: Error, pods: seq<PodStats>)
    ensures e in Gather(PodErrors, pods) <==>
              exists p, c :: p in pods && c in p.containers && Complains(e, c.name, c.cpu, c.memory)
  {
    GatherMember(PodErrors, pods, e);
    forall p ensures e in PodErrors(p) <==> exists c :: c in p.containers && Complains(e, c.name, c.cpu, c.memory) {
      GatherMember(ContainerErrors, p.containers, e);
      forall c: ContainerStats ensures e in ContainerErrors(c) <==> Complains(e, c.name, c.cpu, c.memory) {
        MetricErrorsExactly(c.name, c.cpu, c.memory);
      }
    }
  }

  lemma {:induction false} NoPodErrors(p: PodStats)
    ensures PodErrors(p) == [] <==> PodDecodes(p)
  {
    NoErrors(p.containers);
  }

  lemma {:induction false} NoErrors(cs: seq<ContainerStats>)
    ensures Gather(ContainerErrors, cs) == [] <==> forall i :: 0 <= i < |cs| ==> ContainerDecodes(cs[i])
  {
    if cs != [] {
      NoErrors(cs[1..]);
      assert forall i :: 1 <= i < |cs| ==> cs[i] == cs[1..][i - 1];
      assert ContainerErrors(cs[0]) == [] <==> ContainerDecodes(cs[0]);
    }
  }

  /** kept lists, in increasing order, exactly the indices of the pods that decode; the result
      holds their decodings in that order and nothing else. */
  lemma DecodedPodsMeaning(pods: seq<PodStats>) returns (kept: seq<nat>)
    ensures StrictlyIncreasing(kept) && |kept| == |DecodedPods(pods)|
    ensures forall j :: 0 <= j < |kept| ==> kept[j] < |pods| && PodDecodes(pods[kept[j]])
                                            && DecodedPods(pods)[j] == PodPoint(pods[kept[j]])
    ensures forall i: nat :: i < |pods| && PodDecodes(pods[i]) ==> i in kept
  {
    kept := GatherMeaning(DecodedOrNone, pods);
    assert forall j :: 0 <= j < |kept| ==> DecodedOrNone(pods[kept[j]]) == [DecodedPods(pods)[j]];
  }

  /** The comment in Collect says that a node point with errors is discarded, so that no
      usage is wrongly reported as zero. */
  predicate DiscardsBadNode(node: string, s: Summary) {
    NodeErrors(s.node) != [] ==> CollectedBatch(node, Some(s)).value.nodes == []
  }

  predicate NodeDecodes(n: NodeStats) {
    SampleTimes(n.cpu, n.memory) != {}
    && n.cpu.Some? && n.cpu.value.usageNanoCores.Some?
    && n.memory.Some? && n.memory.value.workingSetBytes.Some?
  }

  /** It does not: nodes[:1] keeps the point, and a node without readings is reported with an
      empty name and zero usage. */
  lemma BadNodeIsReported()
    ensures var s := Summary(NodeStats(None, None), []);
            && !DiscardsBadNode("n", s)
            && CollectedBatch("n", Some(s)).value.nodes
               == [NodeMetricsPoint("", MetricsPoint(0, Quantity(0, 0, Unset), Quantity(0, 0, Unset)))]
  {
  }

  /** The comment holds exactly for the nodes all of whose readings are present. */
  lemma NodeDiscardedExactly(node: string, s: Summary)
    ensures DiscardsBadNode(node, s) <==> NodeDecodes(s.node)
  {
  }

  // ----- the code -----

  class SummaryMetricsSource {
    const node: string

    constructor (node: string)
      ensures this.node == node
    {
      this.node := node;
    }

    /** Writes nothing without a timestamp */
    method DecodeNodeStats(nodeStats: NodeStats, slots: array<NodeMetricsPoint>, slot: nat)
      returns (errs: seq<Error>)
      requires slot < slots.Length
      modifies slots
      ensures errs == NodeErrors(nodeStats)
      ensures slots[..] == if SampleTimes(nodeStats.cpu, nodeStats.memory) == {} then old(slots[..])
                           else old(slots[..])[slot := NodePoint(node, nodeStats)]
    {
      var timestamp := GetScrapeTime(nodeStats.cpu, nodeStats.memory);
      if timestamp == None {
        return [NoTimestamp("node")];
      }
      slots[slot] := NodeMetricsPoint(node, MetricsPoint(timestamp.value, ZERO_QUANTITY, ZERO_QUANTITY));
      errs := [];
      var cpu := DecodeCpu(nodeStats.cpu);
      if cpu.Some? {
        slots[slot] := slots[slot].(point := slots[slot].point.(cpuUsage := cpu.value));
      } else {
        errs := errs + [MissingCpu("node")];
      }
      var memory := DecodeMemory(nodeStats.memory);
      if memory.Some? {
        slots[slot] := slots[slot].(point := slots[slot].point.(memoryUsage := memory.value));
      } else {
        errs := errs + [MissingMemory("node")];
      }
    }

    /** The body of the container loop; no point at all without a timestamp */
    method DecodeContainer(container: ContainerStats)
      returns (point: Option<ContainerMetricsPoint>, errs: seq<Error>)
      ensures errs == ContainerErrors(container)
      ensures point == if SampleTimes(container.cpu, container.memory) == {} then None
                       else Some(ContainerPoint(container))
    {
      var timestamp := GetScrapeTime(container.cpu, container.memory);
      if timestamp == None {
        return None, [NoTimestamp(container.name)];
      }
      var metrics := MetricsPoint(timestamp.value, ZERO_QUANTITY, ZERO_QUANTITY);
      errs := [];
      var cpu := DecodeCpu(container.cpu);
      if cpu.Some? {
        metrics := metrics.(cpuUsage := cpu.value);
      } else {
        errs := errs + [MissingCpu(container.name)];
      }
      var memory := DecodeMemory(container.memory);
      if memory.Some? {
        metrics := metrics.(memoryUsage := memory.value);
      } else {
        errs := errs + [MissingMemory(container.name)];
      }
      point := Some(ContainerMetricsPoint(container.name, metrics));
    }

    /** Overwrites the slot completely: whatever it held before leaves no trace */
    method DecodePodStats(podStats: PodStats, slots: array<PodMetricsPoint>, slot: nat)
      returns (errs: seq<Error>)
      requires slot < slots.Length
      modifies slots
      ensures errs == PodErrors(podStats)
      ensures slots[..] == old(slots[..])[slot := PodPoint(podStats)]
    {
      var n := |podStats.containers|;
      slots[slot] := PodMetricsPoint(podStats.name, podStats.namespace, seq(n, _ => BLANK_CONTAINER));
      errs := [];
      for i := 0 to n
        invariant forall k :: 0 <= k < slots.Length && k != slot ==> slots[k] == old(slots[k])
        invariant FilledUpTo(slots[slot], podStats, i)
        invariant errs == Gather(ContainerErrors, podStats.containers[..i])
      {
        var container := podStats.containers[i];
        GatherPrefix(ContainerErrors, podStats.containers, i);
        var point, more := DecodeContainer(container);
        errs := errs + more;
        FillStep(slots[slot], podStats, i);
        if point == None {
          continue;
        }
        slots[slot] := slots[slot].(containers := slots[slot].containers[i := point.value]);
      }
      assert podStats.containers[..n] == podStats.containers;
      FilledIsAll(slots[slot], podStats);
    }

    /** The loop over the pods: decodings are compacted into the front of a slice with one
        slot per pod, and a slot is reused after a pod that failed to decode. */
    method CollectPods(pods: seq<PodStats>, slots: array<PodMetricsPoint>) returns (num: nat, errs: seq<Error>)
      requires slots.Length == |pods|
      modifies slots
      ensures num <= |pods| && slots[..num] == DecodedPods(pods)
      ensures errs == Gather(PodErrors, pods)
    {
      num, errs := 0, [];
      for i := 0 to |pods|
        invariant num <= i
        invariant slots[..][..num] == DecodedPods(pods[..i])
        invariant errs == Gather(PodErrors, pods[..i])
      {
        GatherPrefix(PodErrors, pods, i);
        GatherPrefix(DecodedOrNone, pods, i);
        NoPodErrors(pods[i]);
        SliceUpdate(slots[..], num, PodPoint(pods[i]));
        var podErrs := DecodePodStats(pods[i], slots, num);
        errs := errs + podErrs;
        if |podErrs| != 0 {
          continue;
        }
        num := num + 1;
      }
      assert pods[..|pods|] == pods;
    }

    /** fetched is what GetSummary returned */
    method Collect(fetched: Option<Summary>) returns (batch: Option<MetricsBatch>, err: Option<Error>)
      ensures batch == CollectedBatch(node, fetched) && err == CollectedError(node, fetched)
    {
      if fetched == None {
        return None, Some(FetchFailed(node));
      }
      var summary := fetched.value;
      var resNodes := new NodeMetricsPoint[1](_ => BLANK_NODE);
      var resPods := new PodMetricsPoint[|summary.pods|](_ => PodMetricsPoint("", "", []));

      var errs := DecodeNodeStats(summary.node, resNodes, 0);
      var nodes := resNodes[..];
      if |errs| != 0 {
        nodes := nodes[..1];
      }
      assert nodes == [NodePoint(node, summary.node)];
      var num, podErrs := CollectPods(summary.pods, resPods);
      errs := errs + podErrs;
      batch, err := Some(MetricsBatch(nodes, resPods[..num])), NewAggregate(errs);
    }
  }

  /** What a source returns for a node: nothing when the fetch failed, else always exactly one
      node point and the fully decoded pods */
  function CollectedBatch(node: string, fetched: Option<Summary>): Option<MetricsBatch> {
    match fetched
    case None => None
    case Some(s) => Some(MetricsBatch([NodePoint(node, s.node)], DecodedPods(s.pods)))
  }

  function CollectedError(node: string, fetched: Option<Summary>): Option<Error> {
    match fetched
    case None => Some(FetchFailed(node))
    case Some(s) => NewAggregate(NodeErrors(s.node) + Gather(PodErrors, s.pods))
  }
}
