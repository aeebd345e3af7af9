/** What every complete run of sourceManager.Collect (pkg/sources/manager.go) returns, said
    about the outcomes of the sources alone. */
module CollectResults {
  import opened Wrappers
  import opened MetricsTypes
  import opened SeqTools
  import opened CollectProtocol
  import opened CollectRuns

  /** The sources that returned an error */
  ghost function FailedSources(o: seq<Outcome>): set<int> { set i | 0 <= i < |o| && o[i].err.Some? }

  predicate FailsWith(oc: Outcome, e: Error) { oc.err.Some? && e == ScrapeFailed(oc.source, oc.err.value) }

  /** The sources whose error, wrapped with the source's name, is e */
  ghost function FailedWith(o: seq<Outcome>, e: Error): set<int> {
    set i | 0 <= i < |o| && FailsWith(o[i], e)
  }

  lemma ReportsSnoc(front: seq<Outcome>, last: Outcome)
    ensures Reports(front + [last]) == Reports(front) + [Report(last)]
    ensures Gather(ErrorsOf, Reports(front + [last])) == Gather(ErrorsOf, Reports(front)) + ErrorsOf(Report(last))
  {
    assert Reports(front + [last]) == Reports(front) + [Report(last)];
    GatherSnoc(ErrorsOf, Reports(front), Report(last));
  }

  lemma FailedSnoc(front: seq<Outcome>, last: Outcome)
    ensures |FailedSources(front + [last])| == |FailedSources(front)| + (if last.err.Some? then 1 else 0)
  {
    var o, more: set<int> := front + [last], if last.err.Some? then {|front|} else {};
    forall i ensures i in FailedSources(o) <==> i in FailedSources(front) + more {
      assert 0 <= i < |front| ==> o[i] == front[i];
    }
    assert FailedSources(o) == FailedSources(front) + more;
  }

  lemma FailedWithSnoc(front: seq<Outcome>, last: Outcome, e: Error)
    ensures |FailedWith(front + [last], e)| == |FailedWith(front, e)|
              + (if FailsWith(last, e) then 1 else 0)
  {
    var o := front + [last];
    var more: set<int> := if FailsWith(last, e) then {|front|} else {};
    forall i ensures i in FailedWith(o, e) <==> i in FailedWith(front, e) + more {
      assert 0 <= i < |front| ==> o[i] == front[i];
    }
    assert FailedWith(o, e) == FailedWith(front, e) + more;
  }

  lemma {:induction false} ErrorCount(o: seq<Outcome>, e: Error)
    ensures |Gather(ErrorsOf, Reports(o))| == |FailedSources(o)|
    ensures multiset(Gather(ErrorsOf, Reports(o)))[e] == |FailedWith(o, e)|
    decreases |o|
  {
    if o == [] {
      assert FailedSources(o) == {} && FailedWith(o, e) == {};
    } else {
      var front, last := o[..|o| - 1], o[|o| - 1];
      assert o == front + [last];
      ErrorCount(front, e);
      ReportsSnoc(front, last);
      FailedSnoc(front, last);
      FailedWithSnoc(front, last, e);
    }
  }

  /** Over every interleaving the collected errors are the one from listing the sources and, for
      each source that failed, its error with the name of the source, each once. */
  lemma ErrorsExactly(o: seq<Outcome>, provErr: Option<Error>, actions: seq<Action>, t: State)
    requires Run(o, provErr, actions, t) && t.collector.Returned?
    ensures |t.errs| == (if provErr.Some? then 1 else 0) + |FailedSources(o)|
    ensures forall e :: multiset(t.errs)[e] == (if provErr == Some(e) then 1 else 0) + |FailedWith(o, e)|
    ensures forall e :: e in t.errs <==>
              provErr == Some(e)
              || exists i :: 0 <= i < |o| && o[i].err.Some? && e == ScrapeFailed(o[i].source, o[i].err.value)
  {
    Conservation(o, provErr, actions, t);
    var all := Gather(ErrorsOf, Reports(o));
    assert |t.errs| == |multiset(t.errs)| == |multiset(ErrorsOf(provErr)) + multiset(all)|;
    ErrorCount(o, Opaque(0));
    forall e
      ensures multiset(t.errs)[e] == (if provErr == Some(e) then 1 else 0) + |FailedWith(o, e)|
    {
      ErrorCount(o, e);
      assert multiset(t.errs)[e] == multiset(ErrorsOf(provErr))[e] + multiset(all)[e];
    }
    forall e
      ensures e in t.errs <==>
                provErr == Some(e)
                || exists i :: 0 <= i < |o| && o[i].err.Some? && e == ScrapeFailed(o[i].source, o[i].err.value)
    {
      assert e in t.errs <==> multiset(t.errs)[e] > 0;
      FailedSome(o, e);
    }
  }

  lemma FailedSome(o: seq<Outcome>, e: Error)
    ensures |FailedWith(o, e)| > 0 <==>
              exists i :: 0 <= i < |o| && o[i].err.Some? && e == ScrapeFailed(o[i].source, o[i].err.value)
    ensures |FailedSources(o)| > 0 <==> exists i :: 0 <= i < |o| && o[i].err.Some?
  {
    if |FailedWith(o, e)| > 0 {
      var i :| i in FailedWith(o, e);
    }
    if i :| 0 <= i < |o| && FailsWith(o[i], e) {
      assert i in FailedWith(o, e);
    }
    if |FailedSources(o)| > 0 {
      var i :| i in FailedSources(o);
    }
    if i :| 0 <= i < |o| && o[i].err.Some? {
      assert i in FailedSources(o);
    }
  }

  /** Where the sources return this node point: source and position */
  ghost function NodePlaces(o: seq<Outcome>, p: NodeMetricsPoint): set<(int, int)> {
    set i, j | 0 <= i < |o| && o[i].batch.Some? && 0 <= j < |o[i].batch.value.nodes|
               && o[i].batch.value.nodes[j] == p :: (i, j)
  }

  ghost function PodPlaces(o: seq<Outcome>, p: PodMetricsPoint): set<(int, int)> {
    set i, j | 0 <= i < |o| && o[i].batch.Some? && 0 <= j < |o[i].batch.value.pods|
               && o[i].batch.value.pods[j] == p :: (i, j)
  }

  lemma NodeCount(o: seq<Outcome>, p: NodeMetricsPoint)
    ensures multiset(Gather(NodesOf, Batches(o)))[p] == |NodePlaces(o, p)|
  {
    GatherCount(NodesOf, Batches(o), p);
    assert Places(NodesOf, Batches(o), p) == NodePlaces(o, p);
  }

  lemma PodCount(o: seq<Outcome>, p: PodMetricsPoint)
    ensures multiset(Gather(PodsOf, Batches(o)))[p] == |PodPlaces(o, p)|
  {
    GatherCount(PodsOf, Batches(o), p);
    assert Places(PodsOf, Batches(o), p) == PodPlaces(o, p);
  }

  /** Over every interleaving each point is collected as often as the sources return it. */
  lemma PointsExactly(o: seq<Outcome>, provErr: Option<Error>, actions: seq<Action>, t: State)
    requires Run(o, provErr, actions, t) && t.collector.Returned?
    ensures forall p :: multiset(t.nodes)[p] == |NodePlaces(o, p)|
    ensures forall p :: multiset(t.pods)[p] == |PodPlaces(o, p)|
  {
    Conservation(o, provErr, actions, t);
    forall p ensures multiset(t.nodes)[p] == |NodePlaces(o, p)| {
      NodeCount(o, p);
    }
    forall p ensures multiset(t.pods)[p] == |PodPlaces(o, p)| {
      PodCount(o, p);
    }
  }

  /** The points of one source stay together and in their order */
  lemma BatchStaysTogether(o: seq<Outcome>, provErr: Option<Error>, actions: seq<Action>, t: State, i: nat)
    returns (a: nat, b: nat)
    requires Run(o, provErr, actions, t) && t.collector.Returned?
    requires i < |o| && o[i].batch.Some?
    ensures a + |o[i].batch.value.nodes| <= |t.nodes|
    ensures t.nodes[a..a + |o[i].batch.value.nodes|] == o[i].batch.value.nodes
    ensures b + |o[i].batch.value.pods| <= |t.pods|
    ensures t.pods[b..b + |o[i].batch.value.pods|] == o[i].batch.value.pods
  {
    var batchOrder, errorOrder := RunOrders(o, provErr, actions, t);
    FinalResult(o, provErr, t, batchOrder, errorOrder);
    OrderBounds(|o|, batchOrder);
    assert i in batchOrder;
    var c: nat :| c < |batchOrder| && batchOrder[c] == i;
    a := GatherBlock(NodesOf, Pick(Batches(o), batchOrder), c);
    b := GatherBlock(PodsOf, Pick(Batches(o), batchOrder), c);
  }
}
