/** Concurrent Receive and Get calls on one sink (pkg/provider/sink/sinkprov.go) as a
    transition system: private map building, the read-write lock, two separate field
    writes, and reads one position at a time. */
module SinkRuns {
  import opened Wrappers
  import opened MetricsTypes
  import opened SinkProvider

  datatype Key = NodeName(name: string) | PodName(pod: NamespacedName)
  datatype Point = NodeData(node: NodeMetricsPoint) | PodData(point: PodMetricsPoint)

  /** GetNodeMetrics asks for node names, GetContainerMetrics for pod names. */
  datatype Thread =
    | Building(batch: MetricsBatch, nodesDone: nat, newNodes: map<string, NodeMetricsPoint>,
               podsDone: nat, newPods: map<NamespacedName, PodMetricsPoint>)
    | SettingNodes(batch: MetricsBatch, newNodes: map<string, NodeMetricsPoint>,
                   newPods: map<NamespacedName, PodMetricsPoint>)
    | SettingPods(batch: MetricsBatch, newPods: map<NamespacedName, PodMetricsPoint>)
    | Received
    | Asking(keys: seq<Key>)
    | Reading(keys: seq<Key>, at: nat, answers: seq<Option<Point>>)
    | Answered(keys: seq<Key>, at: nat, answers: seq<Option<Point>>)

  /** installed is a history variable: the batches whose Receive has released the lock, in
      order. A reader's at is its length when the reader took the lock. */
  datatype State = State(
    nodes: map<string, NodeMetricsPoint>, pods: map<NamespacedName, PodMetricsPoint>,
    threads: seq<Thread>, installed: seq<MetricsBatch>)

  predicate Writes(t: Thread) { t.SettingNodes? || t.SettingPods? }

  predicate WriterIn(s: State) { exists i :: 0 <= i < |s.threads| && Writes(s.threads[i]) }
  predicate ReaderIn(s: State) { exists i :: 0 <= i < |s.threads| && s.threads[i].Reading? }

  /** The next step of thread i, where the lock lets it take one */
  predicate CanStep(s: State, i: nat) {
    i < |s.threads| &&
    match s.threads[i] {
      case Building(b, nodesDone, _, podsDone, _) =>
        nodesDone < |b.nodes| || podsDone < |b.pods| || (!WriterIn(s) && !ReaderIn(s))
      case SettingNodes(_, _, _) => true
      case SettingPods(_, _) => true
      case Received => false
      case Asking(_) => !WriterIn(s)
      case Reading(_, _, _) => true
      case Answered(_, _, _) => false
    }
  }

  function Lookup(s: State, k: Key): Option<Point> {
    match k
    case NodeName(n) => if n in s.nodes then Some(NodeData(s.nodes[n])) else None
    case PodName(p) => if p in s.pods then Some(PodData(s.pods[p])) else None
  }

  function Step(s: State, i: nat): State
    requires CanStep(s, i)
  {
    var threads := s.threads;
    match threads[i] {
      case Building(b, nodesDone, newNodes, podsDone, newPods) =>
        if nodesDone < |b.nodes| then
          var p := b.nodes[nodesDone];
          var m := if p.name in newNodes then newNodes else newNodes[p.name := p];
          s.(threads := threads[i := Building(b, nodesDone + 1, m, podsDone, newPods)])
        else if podsDone < |b.pods| then
          var p := b.pods[podsDone];
          var m := if PodKey(p) in newPods then newPods else newPods[PodKey(p) := p];
          s.(threads := threads[i := Building(b, nodesDone, newNodes, podsDone + 1, m)])
        else
          s.(threads := threads[i := SettingNodes(b, newNodes, newPods)])
      case SettingNodes(b, newNodes, newPods) =>
        s.(nodes := newNodes, threads := threads[i := SettingPods(b, newPods)])
      case SettingPods(b, newPods) =>
        s.(pods := newPods, threads := threads[i := Received], installed := s.installed + [b])
      case Asking(keys) =>
        s.(threads := threads[i := Reading(keys, |s.installed|, [])])
      case Reading(keys, at, answers) =>
        if |answers| < |keys| then
          s.(threads := threads[i := Reading(keys, at, answers + [Lookup(s, keys[|answers|])])])
        else
          s.(threads := threads[i := Answered(keys, at, answers)])
    }
  }

  ghost predicate Reaches(s: State, schedule: seq<nat>, t: State)
    decreases |schedule|
  {
    if schedule == [] then s == t
    else CanStep(s, schedule[0]) && Reaches(Step(s, schedule[0]), schedule[1..], t)
  }

  /** Any number of calls, none of them begun, on a new sink */
  predicate Fresh(s: State) {
    && s.nodes == map[] && s.pods == map[] && s.installed == []
    && forall i :: 0 <= i < |s.threads| ==>
         s.threads[i].Asking?
         || (s.threads[i].Building? && s.threads[i] == Building(s.threads[i].batch, 0, map[], 0, map[]))
  }

  // ----- what the readers should see -----

  function BatchAt(installed: seq<MetricsBatch>, at: nat): MetricsBatch
    requires at <= |installed|
  {
    if at == 0 then MetricsBatch([], []) else installed[at - 1]
  }

  /** First-match search in one batch */
  function Search(b: MetricsBatch, k: Key): Option<Point> {
    match k
    case NodeName(n) =>
      var m := FirstMatch(NodeKey, b.nodes, n);
      if m.Some? then Some(NodeData(m.value)) else None
    case PodName(p) =>
      var m := FirstMatch(PodKey, b.pods, p);
      if m.Some? then Some(PodData(m.value)) else None
  }

  ghost predicate Answers(b: MetricsBatch, keys: seq<Key>, answers: seq<Option<Point>>) {
    && |answers| <= |keys|
    && forall j :: 0 <= j < |answers| ==> answers[j] == Search(b, keys[j])
  }

  ghost predicate ThreadOk(t: Thread, installed: seq<MetricsBatch>) {
    match t
    case Building(b, nodesDone, newNodes, podsDone, newPods) =>
      && nodesDone <= |b.nodes| && podsDone <= |b.pods|
      && Indexes(newNodes, NodeKey, b.nodes[..nodesDone]) && Indexes(newPods, PodKey, b.pods[..podsDone])
    case SettingNodes(b, newNodes, newPods) =>
      Indexes(newNodes, NodeKey, b.nodes) && Indexes(newPods, PodKey, b.pods)
    case SettingPods(b, newPods) => Indexes(newPods, PodKey, b.pods)
    case Received => true
    case Asking(_) => true
    case Reading(keys, at, answers) => at == |installed| && Answers(BatchAt(installed, at), keys, answers)
    case Answered(keys, at, answers) =>
      at <= |installed| && |answers| == |keys| && Answers(BatchAt(installed, at), keys, answers)
  }

  ghost predicate ThreadsOk(s: State) {
    forall i :: 0 <= i < |s.threads| ==> ThreadOk(s.threads[i], s.installed)
  }

  /** At most one writer, and no reader beside it */
  predicate Exclusive(s: State) {
    forall i, j :: 0 <= i < |s.threads| && 0 <= j < |s.threads| && Writes(s.threads[i]) ==>
      !s.threads[j].Reading? && (Writes(s.threads[j]) ==> i == j)
  }

  /** The batch the node map indexes: the last installed one, except between the two field
      writes of a Receive */
  ghost predicate NodesFrom(s: State, b: MetricsBatch) {
    if i :| 0 <= i < |s.threads| && s.threads[i].SettingPods? then b == s.threads[i].batch
    else b == BatchAt(s.installed, |s.installed|)
  }

  ghost predicate MapsOk(s: State) {
    && Indexes(s.pods, PodKey, BatchAt(s.installed, |s.installed|).pods)
    && forall b :: NodesFrom(s, b) ==> Indexes(s.nodes, NodeKey, b.nodes)
  }

  ghost predicate Inv(s: State) { ThreadsOk(s) && Exclusive(s) && MapsOk(s) }

  lemma BuildStepOk(t: Thread, t': Thread, installed: seq<MetricsBatch>, s: State, i: nat)
    requires CanStep(s, i) && s.threads[i] == t && t.Building? && ThreadOk(t, installed)
    requires t' == Step(s, i).threads[i]
    ensures ThreadOk(t', installed)
  {
    var b := t.batch;
    if t.nodesDone < |b.nodes| {
      FirstWinsStep(t.newNodes, NodeKey, b.nodes[..t.nodesDone], b.nodes[t.nodesDone]);
      assert b.nodes[..t.nodesDone + 1] == b.nodes[..t.nodesDone] + [b.nodes[t.nodesDone]];
    } else if t.podsDone < |b.pods| {
      FirstWinsStep(t.newPods, PodKey, b.pods[..t.podsDone], b.pods[t.podsDone]);
      assert b.pods[..t.podsDone + 1] == b.pods[..t.podsDone] + [b.pods[t.podsDone]];
    } else {
      assert b.nodes[..t.nodesDone] == b.nodes && b.pods[..t.podsDone] == b.pods;
    }
  }

  lemma StepKeepsExclusive(s: State, i: nat)
    requires Exclusive(s) && CanStep(s, i)
    ensures Exclusive(Step(s, i))
  {
    var t := Step(s, i);
    assert forall j :: 0 <= j < |s.threads| && j != i ==> t.threads[j] == s.threads[j];
  }

  lemma StepKeepsMaps(s: State, i: nat)
    requires CanStep(s, i) && ThreadOk(s.threads[i], s.installed) && Exclusive(s) && MapsOk(s)
    ensures MapsOk(Step(s, i))
  {
    var t := Step(s, i);
    assert forall j :: 0 <= j < |s.threads| && j != i ==> t.threads[j] == s.threads[j];
    if s.threads[i].SettingNodes? {
      assert t.threads[i].SettingPods?;
      assert forall j :: 0 <= j < |t.threads| && t.threads[j].SettingPods? ==> j == i;
    } else if s.threads[i].SettingPods? {
      assert forall j :: 0 <= j < |s.threads| && s.threads[j].SettingPods? ==> j == i;
      assert NodesFrom(s, s.threads[i].batch);
      assert forall j :: 0 <= j < |t.threads| ==> !t.threads[j].SettingPods?;
    } else {
      forall b | NodesFrom(t, b) ensures NodesFrom(s, b) {
        SameNodesFrom(s, t, i, b);
      }
    }
  }

  lemma SameNodesFrom(s: State, t: State, i: nat, b: MetricsBatch)
    requires |s.threads| == |t.threads| && i < |s.threads| && s.installed == t.installed
    requires forall j :: 0 <= j < |s.threads| && j != i ==> t.threads[j] == s.threads[j]
    requires !t.threads[i].SettingPods? && !s.threads[i].SettingPods?
    requires Exclusive(s) && NodesFrom(t, b)
    ensures NodesFrom(s, b)
  {
  }

  /** A thread keeps its property while another one steps */
  lemma OtherThreadOk(s: State, i: nat, j: nat)
    requires CanStep(s, i) && j < |s.threads| && j != i && Exclusive(s)
    requires ThreadOk(s.threads[j], s.installed)
    ensures ThreadOk(Step(s, i).threads[j], Step(s, i).installed)
  {
    assert Step(s, i).threads[j] == s.threads[j];
    if s.threads[i].SettingPods? {
      assert Writes(s.threads[i]) && !s.threads[j].Reading?;
    }
  }

  lemma OwnThreadOk(s: State, i: nat)
    requires CanStep(s, i) && ThreadOk(s.threads[i], s.installed) && Exclusive(s) && MapsOk(s)
    ensures ThreadOk(Step(s, i).threads[i], Step(s, i).installed)
  {
    var t := s.threads[i];
    if t.Building? {
      BuildStepOk(t, Step(s, i).threads[i], s.installed, s, i);
    } else if t.Reading? {
      assert forall j :: 0 <= j < |s.threads| ==> !Writes(s.threads[j]);
      assert NodesFrom(s, BatchAt(s.installed, |s.installed|));
    }
  }

  lemma StepKeepsThreads(s: State, i: nat)
    requires Inv(s) && CanStep(s, i)
    ensures ThreadsOk(Step(s, i)) && s.installed <= Step(s, i).installed
  {
    OwnThreadOk(s, i);
    forall j: nat | j < |s.threads| && j != i
      ensures ThreadOk(Step(s, i).threads[j], Step(s, i).installed)
    {
      OtherThreadOk(s, i, j);
    }
  }

  lemma StepKeepsInv(s: State, i: nat)
    requires Inv(s) && CanStep(s, i)
    ensures Inv(Step(s, i)) && s.installed <= Step(s, i).installed
  {
    StepKeepsThreads(s, i);
    StepKeepsExclusive(s, i);
    StepKeepsMaps(s, i);
  }

  lemma {:induction false} RunKeepsInv(s: State, schedule: seq<nat>, t: State)
    requires Inv(s) && Reaches(s, schedule, t)
    ensures Inv(t) && s.installed <= t.installed && |s.threads| == |t.threads|
    decreases |schedule|
  {
    if schedule != [] {
      StepKeepsInv(s, schedule[0]);
      RunKeepsInv(Step(s, schedule[0]), schedule[1..], t);
    }
  }

  lemma {:induction false} RunsCompose(s: State, before: seq<nat>, mid: State, after: seq<nat>, t: State)
    requires Reaches(s, before, mid) && Reaches(mid, after, t)
    ensures Reaches(s, before + after, t)
    decreases |before|
  {
    if before == [] {
      assert before + after == after;
    } else {
      RunsCompose(Step(s, before[0]), before[1..], mid, after, t);
      assert (before + after)[1..] == before[1..] + after;
    }
  }

  predicate Finished(t: Thread) { t.Received? || t.Answered? }

  /** The lock never leaves the unfinished calls waiting for each other */
  lemma NoDeadlock(s: State, i: nat)
    requires i < |s.threads| && !Finished(s.threads[i])
    ensures exists j: nat :: CanStep(s, j)
  {
    if j :| 0 <= j < |s.threads| && (Writes(s.threads[j]) || s.threads[j].Reading?) {
      assert CanStep(s, j);
    } else {
      assert CanStep(s, i);
    }
  }

  /** A reader waits for a writer only, so that reads may overlap; a writer that has built its
      maps waits for every writer and reader that holds the lock. */
  lemma LockExactly(s: State, i: nat)
    requires i < |s.threads|
    ensures s.threads[i].Asking? ==>
              (CanStep(s, i) <==> forall j :: 0 <= j < |s.threads| ==>
                 !s.threads[j].SettingNodes? && !s.threads[j].SettingPods?)
    ensures s.threads[i].Building? && s.threads[i].nodesDone >= |s.threads[i].batch.nodes|
            && s.threads[i].podsDone >= |s.threads[i].batch.pods| ==>
              (CanStep(s, i) <==> forall j :: 0 <= j < |s.threads| ==>
                 !s.threads[j].SettingNodes? && !s.threads[j].SettingPods? && !s.threads[j].Reading?)
  {
    assert WriterIn(s) <==> exists j :: 0 <= j < |s.threads| && Writes(s.threads[j]);
  }

  /** The point at i is the first one with this name */
  predicate FirstNode(points: seq<NodeMetricsPoint>, i: nat, name: string) {
    i < |points| && points[i].name == name && forall m :: 0 <= m < i ==> points[m].name != name
  }

  predicate FirstPod(points: seq<PodMetricsPoint>, i: nat, pod: NamespacedName) {
    && i < |points| && points[i].name == pod.name && points[i].namespace == pod.namespace
    && forall m :: 0 <= m < i ==> points[m].name != pod.name || points[m].namespace != pod.namespace
  }

  /** What one position of a read is to be answered from the points of b alone */
  ghost predicate AnsweredBy(b: MetricsBatch, k: Key, answer: Option<Point>) {
    match k
    case NodeName(name) =>
      && (answer == None <==> forall i :: 0 <= i < |b.nodes| ==> b.nodes[i].name != name)
      && (forall p :: answer == Some(NodeData(p)) <==> exists i: nat :: FirstNode(b.nodes, i, name) && b.nodes[i] == p)
      && (answer.Some? ==> answer.value.NodeData?)
    case PodName(pod) =>
      && (answer == None <==> forall i :: 0 <= i < |b.pods| ==>
            b.pods[i].name != pod.name || b.pods[i].namespace != pod.namespace)
      && (forall p :: answer == Some(PodData(p)) <==> exists i: nat :: FirstPod(b.pods, i, pod) && b.pods[i] == p)
      && (answer.Some? ==> answer.value.PodData?)
  }

  lemma NodeSearched(b: MetricsBatch, name: string)
    ensures AnsweredBy(b, NodeName(name), Search(b, NodeName(name)))
  {
    FirstMatchMeaning(NodeKey, b.nodes, name);
    forall p ensures FirstMatch(NodeKey, b.nodes, name) == Some(p) <==>
      exists i: nat :: FirstNode(b.nodes, i, name) && b.nodes[i] == p
    {
      if i: nat :| FirstNode(b.nodes, i, name) && b.nodes[i] == p {
        assert NodeKey(p) == name && forall j :: 0 <= j < i ==> NodeKey(b.nodes[j]) != name;
      }
      if i: nat :| i < |b.nodes| && b.nodes[i] == p && NodeKey(p) == name
                   && forall j :: 0 <= j < i ==> NodeKey(b.nodes[j]) != name {
        assert FirstNode(b.nodes, i, name);
      }
    }
  }

  lemma PodSearched(b: MetricsBatch, pod: NamespacedName)
    ensures AnsweredBy(b, PodName(pod), Search(b, PodName(pod)))
  {
    FirstMatchMeaning(PodKey, b.pods, pod);
    assert forall i :: 0 <= i < |b.pods| ==>
      (PodKey(b.pods[i]) == pod <==> b.pods[i].name == pod.name && b.pods[i].namespace == pod.namespace);
    forall p ensures FirstMatch(PodKey, b.pods, pod) == Some(p) <==>
      exists i: nat :: FirstPod(b.pods, i, pod) && b.pods[i] == p
    {
      if i: nat :| FirstPod(b.pods, i, pod) && b.pods[i] == p {
        assert PodKey(p) == pod && forall j :: 0 <= j < i ==> PodKey(b.pods[j]) != pod;
      }
      if i: nat :| i < |b.pods| && b.pods[i] == p && PodKey(p) == pod
                   && forall j :: 0 <= j < i ==> PodKey(b.pods[j]) != pod {
        assert FirstPod(b.pods, i, pod);
      }
    }
  }

  /** In every run over any mix of calls, a finished read has answered every position from one
      single installed batch, with the first point of that name, or found nothing before the
      first batch. */
  lemma ReadsComeFromOneBatch(s: State, schedule: seq<nat>, t: State, i: nat)
    requires Fresh(s) && Reaches(s, schedule, t) && i < |t.threads| && t.threads[i].Answered?
    ensures t.threads[i].at <= |t.installed| && |t.threads[i].answers| == |t.threads[i].keys|
    ensures forall j :: 0 <= j < |t.threads[i].keys| ==>
              AnsweredBy(BatchAt(t.installed, t.threads[i].at), t.threads[i].keys[j], t.threads[i].answers[j])
    ensures forall j :: 0 <= j < |t.threads[i].keys| ==>
              t.threads[i].answers[j] == Search(BatchAt(t.installed, t.threads[i].at), t.threads[i].keys[j])
  {
    RunKeepsInv(s, schedule, t);
    AnswersMean(BatchAt(t.installed, t.threads[i].at), t.threads[i].keys, t.threads[i].answers);
  }

  lemma AnswersMean(b: MetricsBatch, keys: seq<Key>, answers: seq<Option<Point>>)
    requires Answers(b, keys, answers)
    ensures forall j :: 0 <= j < |answers| ==> AnsweredBy(b, keys[j], answers[j])
  {
    forall j | 0 <= j < |answers| ensures AnsweredBy(b, keys[j], answers[j]) {
      match keys[j]
      case NodeName(name) => NodeSearched(b, name);
      case PodName(pod) => PodSearched(b, pod);
    }
  }

  /** That batch is the newest one for as long as the read lasts: when the lock is released
      it is still the last installed. */
  lemma NewestUntilReleased(s: State, schedule: seq<nat>, t: State, i: nat)
    requires Fresh(s) && Reaches(s, schedule, t) && CanStep(t, i) && t.threads[i].Reading?
    ensures t.threads[i].at == |t.installed| == |Step(t, i).installed|
    ensures !WriterIn(t)
  {
    RunKeepsInv(s, schedule, t);
  }

  /** Whenever no call is between its two field writes, the sink shared by the concurrent calls
      holds the very maps of a provider object whose last Receive was the last installed batch. */
  lemma SameAsSequential(s: State, schedule: seq<nat>, t: State, prov: SinkMetricsProvider)
    requires Fresh(s) && Reaches(s, schedule, t)
    requires forall i :: 0 <= i < |t.threads| ==> !t.threads[i].SettingPods?
    requires prov.Valid() && prov.installed == BatchAt(t.installed, |t.installed|)
    ensures t.nodes == prov.nodes && t.pods == prov.pods
  {
    RunKeepsInv(s, schedule, t);
    assert NodesFrom(t, prov.installed);
    IndexUnique(t.nodes, prov.nodes, NodeKey, prov.installed.nodes);
    IndexUnique(t.pods, prov.pods, PodKey, prov.installed.pods);
  }

  /** A read that starts after a batch was installed sees that batch or a newer one. */
  lemma ReadsAreFresh(s: State, schedule: seq<nat>, mid: State, later: seq<nat>, t: State, i: nat)
    requires Fresh(s) && Reaches(s, schedule, mid) && Reaches(mid, later, t)
    requires i < |mid.threads| && mid.threads[i].Asking?
    requires i < |t.threads| && t.threads[i].Answered?
    ensures |mid.installed| <= t.threads[i].at
  {
    RunKeepsInv(s, schedule, mid);
    AtIsLate(mid, later, t, i, |mid.installed|);
  }

  lemma {:induction false} AtIsLate(s: State, schedule: seq<nat>, t: State, i: nat, n: nat)
    requires Reaches(s, schedule, t) && i < |s.threads| && n <= |s.installed|
    requires s.threads[i].Asking? || ((s.threads[i].Reading? || s.threads[i].Answered?) && n <= s.threads[i].at)
    ensures i < |t.threads|
    ensures t.threads[i].Answered? ==> n <= t.threads[i].at
    decreases |schedule|
  {
    if schedule != [] {
      AtIsLate(Step(s, schedule[0]), schedule[1..], t, i, n);
    }
  }
}
