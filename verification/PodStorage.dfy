/** The pod metrics REST storage (pkg/storage/podmetrics/reststorage.go). */
module PodStorage {
  import opened Wrappers
  import opened MetricsTypes
  import opened SeqTools
  import opened SinkProvider

  datatype Phase = Pending | Running | Succeeded | Failed | Unknown
  datatype Pod = Pod(name: string, namespace: string, phase: Phase)
  datatype PodMetrics = PodMetrics(name: string, namespace: string, time: TimeInfo, containers: seq<ContainerMetrics>)

  function NameOf(p: Pod): NamespacedName { NamespacedName(p.namespace, p.name) }

  /** The pods that match, in order */
  function Matching(matches: Pod -> bool, pods: seq<Pod>): seq<Pod> { Gather(Keep(matches), pods) }

  /** kept lists, in increasing order, exactly the indices of the matching pods; the result
      holds those pods in that order and nothing else. */
  lemma MatchingMeaning(matches: Pod -> bool, pods: seq<Pod>) returns (kept: seq<nat>)
    ensures StrictlyIncreasing(kept) && |kept| == |Matching(matches, pods)|
    ensures forall j :: 0 <= j < |kept| ==>
              kept[j] < |pods| && matches(pods[kept[j]]) && Matching(matches, pods)[j] == pods[kept[j]]
    ensures forall i: nat :: i < |pods| && matches(pods[i]) ==> i in kept
  {
    kept := GatherMeaning(Keep(matches), pods);
    assert forall j :: 0 <= j < |kept| ==> Keep(matches)(pods[kept[j]]) == [Matching(matches, pods)[j]];
  }

  /** The pod gets an item: it runs and the batch has a point for it */
  predicate Servable(batch: MetricsBatch, pod: Pod) {
    pod.phase.Running? && FirstMatch(PodKey, batch.pods, NameOf(pod)).Some?
  }

  /** item carries the pod's own name, and the time and containers stored for it */
  ghost predicate ItemFor(batch: MetricsBatch, pod: Pod, item: PodMetrics) {
    && NamespacedName(item.namespace, item.name) == NameOf(pod)
    && PodAnswer(batch, NameOf(pod), item.time, Some(item.containers))
  }

  /** items holds one item per servable pod, in the order of the pods, and nothing else */
  ghost predicate Joined(batch: MetricsBatch, pods: seq<Pod>, items: seq<PodMetrics>)
    decreases |pods|
  {
    if pods == [] then items == []
    else if Servable(batch, pods[0]) then
      items != [] && ItemFor(batch, pods[0], items[0]) && Joined(batch, pods[1..], items[1..])
    else Joined(batch, pods[1..], items)
  }

  lemma {:induction false} JoinedSnoc(batch: MetricsBatch, pods: seq<Pod>, items: seq<PodMetrics>,
                                      pod: Pod, more: seq<PodMetrics>)
    requires Joined(batch, pods, items)
    requires if Servable(batch, pod) then |more| == 1 && ItemFor(batch, pod, more[0]) else more == []
    ensures Joined(batch, pods + [pod], items + more)
    decreases |pods|
  {
    if pods == [] {
      assert [pod][1..] == [] && more[|more|..] == [];
    } else {
      assert (pods + [pod])[1..] == pods[1..] + [pod];
      if Servable(batch, pods[0]) {
        JoinedSnoc(batch, pods[1..], items[1..], pod, more);
        assert (items + more)[1..] == items[1..] + more;
      } else {
        JoinedSnoc(batch, pods[1..], items, pod, more);
      }
    }
  }

  lemma JoinedPrefix(batch: MetricsBatch, pods: seq<Pod>, i: nat, items: seq<PodMetrics>, more: seq<PodMetrics>)
    requires i < |pods| && Joined(batch, pods[..i], items)
    requires if Servable(batch, pods[i]) then |more| == 1 && ItemFor(batch, pods[i], more[0]) else more == []
    ensures Joined(batch, pods[..i + 1], items + more)
  {
    JoinedSnoc(batch, pods[..i], items, pods[i], more);
    assert pods[..i + 1] == pods[..i] + [pods[i]];
  }

  /** The stored batch and the pods determine the items completely */
  lemma {:induction false} JoinedUnique(batch: MetricsBatch, pods: seq<Pod>, items: seq<PodMetrics>,
                                        items': seq<PodMetrics>)
    requires Joined(batch, pods, items) && Joined(batch, pods, items')
    ensures items == items'
    decreases |pods|
  {
    if pods != [] {
      if Servable(batch, pods[0]) {
        JoinedUnique(batch, pods[1..], items[1..], items'[1..]);
        var containers := FirstMatch(PodKey, batch.pods, NameOf(pods[0])).value.containers;
        DescriptionUnique(items[0].time.timestamp, items[0].containers,
                          items'[0].time.timestamp, items'[0].containers, containers);
        assert items == [items[0]] + items[1..] && items' == [items'[0]] + items'[1..];
      } else {
        JoinedUnique(batch, pods[1..], items, items');
      }
    }
  }

  ghost predicate ItemAt(batch: MetricsBatch, pods: seq<Pod>, i: nat, item: PodMetrics) {
    i < |pods| && Servable(batch, pods[i]) && ItemFor(batch, pods[i], item)
  }

  /** kept lists, in increasing order, exactly the indices from the given one on of the servable
      pods; the items are theirs, one for each and in that order. */
  ghost predicate ItemsOf(batch: MetricsBatch, pods: seq<Pod>, from: nat, items: seq<PodMetrics>, kept: seq<nat>) {
    && StrictlyIncreasing(kept) && |kept| == |items|
    && (forall j :: 0 <= j < |kept| ==> from <= kept[j] && ItemAt(batch, pods, kept[j], items[j]))
    && (forall i: nat :: from <= i < |pods| && Servable(batch, pods[i]) ==> i in kept)
  }

  lemma ItemsOfCons(batch: MetricsBatch, pods: seq<Pod>, from: nat, item: PodMetrics, more: seq<PodMetrics>,
                    rest: seq<nat>)
    requires ItemAt(batch, pods, from, item) && ItemsOf(batch, pods, from + 1, more, rest)
    ensures ItemsOf(batch, pods, from, [item] + more, [from] + rest)
  {
    var items, kept := [item] + more, [from] + rest;
    forall j | 0 <= j < |kept| ensures from <= kept[j] && ItemAt(batch, pods, kept[j], items[j]) {
      if j > 0 {
        assert kept[j] == rest[j - 1] && items[j] == more[j - 1];
      }
    }
    forall i: nat | from <= i < |pods| && Servable(batch, pods[i]) ensures i in kept {
      if i > from {
        assert i in rest;
      }
    }
  }

  /** The items are those of the servable pods, one for each and in their order */
  lemma {:induction false} JoinedMeaning(batch: MetricsBatch, pods: seq<Pod>, from: nat, items: seq<PodMetrics>)
    returns (kept: seq<nat>)
    requires from <= |pods| && Joined(batch, pods[from..], items)
    ensures ItemsOf(batch, pods, from, items, kept)
    decreases |pods| - from
  {
    if from == |pods| {
      return [];
    }
    assert pods[from..][1..] == pods[from + 1..];
    if Servable(batch, pods[from]) {
      var rest := JoinedMeaning(batch, pods, from + 1, items[1..]);
      ItemsOfCons(batch, pods, from, items[0], items[1..], rest);
      assert items == [items[0]] + items[1..];
      kept := [from] + rest;
    } else {
      kept := JoinedMeaning(batch, pods, from + 1, items);
    }
  }

  /** An item is listed for a pod if and only if the pod is listed and servable */
  lemma {:induction false} ListedExactly(batch: MetricsBatch, pods: seq<Pod>, items: seq<PodMetrics>)
    requires Joined(batch, pods, items)
    ensures forall item :: item in items ==> exists p :: p in pods && Servable(batch, p) && ItemFor(batch, p, item)
    ensures forall p :: p in pods && Servable(batch, p) ==> exists item :: item in items && ItemFor(batch, p, item)
    decreases |pods|
  {
    if pods != [] {
      ListedExactly(batch, pods[1..], if Servable(batch, pods[0]) then items[1..] else items);
      forall item | item in items
        ensures exists p :: p in pods && Servable(batch, p) && ItemFor(batch, p, item)
      {
        if Servable(batch, pods[0]) && item == items[0] {
          assert pods[0] in pods;
        } else {
          assert item in (if Servable(batch, pods[0]) then items[1..] else items);
          var p :| p in pods[1..] && Servable(batch, p) && ItemFor(batch, p, item);
          assert p in pods;
        }
      }
      forall p | p in pods && Servable(batch, p)
        ensures exists item :: item in items && ItemFor(batch, p, item)
      {
        if p == pods[0] {
          assert items[0] in items;
        } else {
          assert p in pods[1..];
          var item :| item in (if Servable(batch, pods[0]) then items[1..] else items) && ItemFor(batch, p, item);
          assert item in items;
        }
      }
    }
  }

  /** append(pods[:i], pods[i+1:]...) on a slice of length n: shifts in the same array */
  method Delete(pods: array<Pod>, n: nat, i: nat)
    requires i < n <= pods.Length
    modifies pods
    ensures pods[..n - 1] == old(pods[..n])[..i] + old(pods[..n])[i + 1..]
  {
    ghost var slice := pods[..n];
    assert slice[..i] == pods[..i] && slice[i + 1..] == pods[i + 1..n];
    for k := i to n - 1
      invariant pods[..k] == old(pods[..i]) + old(pods[i + 1..k + 1])
      invariant forall m :: k < m < n ==> pods[m] == old(pods[m])
    {
      pods[k] := pods[k + 1];
    }
  }

  /** The slice while the loop stands at i: what is above has been filtered already */
  ghost predicate FilteredAbove(matches: Pod -> bool, now: seq<Pod>, all: seq<Pod>, i: int) {
    -1 <= i < |all| && now == all[..i + 1] + Matching(matches, all[i + 1..])
  }

  lemma FilterStep(matches: Pod -> bool, now: seq<Pod>, all: seq<Pod>, i: nat)
    requires FilteredAbove(matches, now, all, i)
    ensures i < |now| && now[i] == all[i]
    ensures FilteredAbove(matches, if matches(all[i]) then now else now[..i] + now[i + 1..], all, i - 1)
  {
  }

  /** One iteration: the pod at i is deleted if it does not match */
  method FilterAt(pods: array<Pod>, matches: Pod -> bool, ghost all: seq<Pod>, n: nat, i: nat) returns (left: nat)
    requires n <= pods.Length && FilteredAbove(matches, pods[..n], all, i)
    modifies pods
    ensures left <= pods.Length && FilteredAbove(matches, pods[..left], all, i - 1)
  {
    left := n;
    FilterStep(matches, pods[..n], all, i);
    assert pods[i] == pods[..n][i];
    if !matches(pods[i]) {
      Delete(pods, n, i);
      left := n - 1;
    }
  }

  /** The descending deletion loop of List; n is the length of the slice that is left */
  method FilterInPlace(pods: array<Pod>, matches: Pod -> bool) returns (n: nat)
    modifies pods
    ensures n <= pods.Length && pods[..n] == Matching(matches, old(pods[..]))
  {
    ghost var all := pods[..];
    n := pods.Length;
    var i := pods.Length - 1;
    while i >= 0
      invariant n <= pods.Length && FilteredAbove(matches, pods[..n], all, i)
    {
      n := FilterAt(pods, matches, all, n, i);
      i := i - 1;
    }
    assert all[0..] == all;
  }

  datatype ListResult = Items(items: seq<PodMetrics>) | ListFailed(error: Error)
  datatype GetResult = Found(item: PodMetrics) | NotFound | GetFailed(error: Error)

  class MetricStorage {
    const prov: SinkMetricsProvider

    constructor (prov: SinkMetricsProvider)
      ensures this.prov == prov
    {
      this.prov := prov;
    }

    /** Joins the pods with the positional answers of the provider */
    method GetPodMetrics(pods: seq<Pod>) returns (res: seq<PodMetrics>)
      requires prov.Valid()
      ensures Joined(prov.installed, pods, res)
    {
      var namespacedNames := new NamespacedName[|pods|](_ => NamespacedName("", ""));
      for i := 0 to |pods|
        invariant forall k :: 0 <= k < i ==> namespacedNames[k] == NameOf(pods[k])
      {
        namespacedNames[i] := NamespacedName(pods[i].namespace, pods[i].name);
      }
      var names := namespacedNames[..];
      var timestamps, containerMetrics, _ := prov.GetContainerMetrics(names);
      res := [];
      for i := 0 to |pods|
        invariant timestamps.Length == containerMetrics.Length == |pods|
        invariant forall k :: 0 <= k < |pods| ==>
                    PodAnswer(prov.installed, NameOf(pods[k]), timestamps[k], containerMetrics[k])
        invariant Joined(prov.installed, pods[..i], res)
      {
        var pod := pods[i];
        var more: seq<PodMetrics> := [];
        if pod.phase.Running? && containerMetrics[i].Some? {
          more := [PodMetrics(pod.name, pod.namespace, timestamps[i], containerMetrics[i].value)];
        }
        JoinedPrefix(prov.installed, pods, i, res, more);
        res := res + more;
      }
      assert pods[..|pods|] == pods;
    }

    /** listed is what the lister answered to the namespace and the label selector */
    method List(listed: array?<Pod>, listErr: Error, fieldSelector: Option<Pod -> bool>) returns (r: ListResult)
      requires prov.Valid()
      modifies listed
      ensures listed == null ==> r == ListFailed(listErr)
      ensures listed != null ==> r.Items? && Joined(prov.installed,
                if fieldSelector.Some? then Matching(fieldSelector.value, old(listed[..])) else old(listed[..]), r.items)
      ensures prov.Valid() && prov.installed == old(prov.installed)
    {
      if listed == null {
        return ListFailed(listErr);
      }
      var n := listed.Length;
      if fieldSelector.Some? {
        n := FilterInPlace(listed, fieldSelector.value);
      }
      assert fieldSelector.None? ==> listed[..n] == listed[..];
      var items := GetPodMetrics(listed[..n]);
      r := Items(items);
    }

    /** pod is what the lister found under the requested name */
    method Get(pod: Option<Pod>, getErr: Option<Error>) returns (r: GetResult)
      requires prov.Valid()
      ensures getErr.Some? ==> r == GetFailed(getErr.value)
      ensures getErr.None? ==> (r.Found? <==> pod.Some? && Servable(prov.installed, pod.value))
      ensures r.Found? ==> ItemFor(prov.installed, pod.value, r.item)
      ensures getErr.None? && !r.Found? ==> r == NotFound
    {
      if getErr.Some? {
        return GetFailed(getErr.value);
      }
      if pod.None? {
        return NotFound;
      }
      var podMetrics := GetPodMetrics([pod.value]);
      assert [pod.value][1..] == [];
      if |podMetrics| == 0 {
        return NotFound;
      }
      r := Found(podMetrics[0]);
    }
  }

  /** Get and an unfiltered List answer alike: the item Get finds for a listed pod is in the list */
  lemma GetAgreesWithList(batch: MetricsBatch, pods: seq<Pod>, items: seq<PodMetrics>, pod: Pod, item: PodMetrics)
    requires Joined(batch, pods, items) && pod in pods
    requires Servable(batch, pod) && ItemFor(batch, pod, item)
    ensures item in items
  {
    ListedExactly(batch, pods, items);
    var listed :| listed in items && ItemFor(batch, pod, listed);
    var containers := FirstMatch(PodKey, batch.pods, NameOf(pod)).value.containers;
    DescriptionUnique(item.time.timestamp, item.containers, listed.time.timestamp, listed.containers, containers);
  }
}
