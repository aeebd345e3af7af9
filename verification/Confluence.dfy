/** Collect then store: which index the sink ends up with over the interleavings of the
    collection protocol (pkg/sources/manager.go, pkg/provider/sink/sinkprov.go). */
module Confluence {
  import opened Wrappers
  import opened MetricsTypes
  import opened SeqTools
  import opened CollectProtocol
  import opened CollectRuns
  import opened SinkProvider

  ghost function IndexOf<K(!new), P>(key: P -> K, ps: seq<P>): (m: map<K, P>)
    ensures Indexes(m, key, ps)
  {
    if ps == [] then map[] else IndexOf(key, ps[1..])[key(ps[0]) := ps[0]]
  }

  /** Some complete run of Collect, followed by Receive, leaves these two maps */
  ghost predicate Stores(o: seq<Outcome>, provErr: Option<Error>, nodes: map<string, NodeMetricsPoint>,
                         pods: map<NamespacedName, PodMetricsPoint>)
  {
    exists actions, t :: Run(o, provErr, actions, t) && t.collector.Returned?
                         && Indexes(nodes, NodeKey, t.nodes) && Indexes(pods, PodKey, t.pods)
  }

  /** Sources that know a key report the same first point for it */
  ghost predicate SourcesAgree<X, K(!new), P>(f: X -> seq<P>, key: P -> K, xs: seq<X>) {
    forall i, j, k :: 0 <= i < |xs| && 0 <= j < |xs|
      && FirstMatch(key, f(xs[i]), k).Some? && FirstMatch(key, f(xs[j]), k).Some?
      ==> FirstMatch(key, f(xs[i]), k) == FirstMatch(key, f(xs[j]), k)
  }

  /** A lookup in the concatenation is answered by the first list that has the key */
  lemma {:induction false} FirstArrival<X, K, P>(f: X -> seq<P>, key: P -> K, xs: seq<X>, k: K)
    returns (a: nat)
    ensures a <= |xs| && forall b :: 0 <= b < a ==> FirstMatch(key, f(xs[b]), k) == None
    ensures a == |xs| ==> FirstMatch(key, Gather(f, xs), k) == None
    ensures a < |xs| ==> FirstMatch(key, f(xs[a]), k).Some?
                         && FirstMatch(key, Gather(f, xs), k) == FirstMatch(key, f(xs[a]), k)
  {
    if xs == [] {
      return 0;
    }
    FirstMatchConcat(key, f(xs[0]), Gather(f, xs[1..]), k);
    if FirstMatch(key, f(xs[0]), k).Some? {
      return 0;
    }
    a := FirstArrival(f, key, xs[1..], k);
    a := a + 1;
  }

  lemma OrderIrrelevant<X, K(!new), P>(f: X -> seq<P>, key: P -> K, xs: seq<X>, s: seq<nat>, t: seq<nat>, k: K)
    requires IsOrder(|xs|, s) && IsOrder(|xs|, t) && SourcesAgree(f, key, xs)
    ensures FirstMatch(key, Gather(f, Pick(xs, s)), k) == FirstMatch(key, Gather(f, Pick(xs, t)), k)
  {
    var a := FirstArrival(f, key, Pick(xs, s), k);
    var b := FirstArrival(f, key, Pick(xs, t), k);
    OrderBounds(|xs|, s);
    OrderBounds(|xs|, t);
    if a < |xs| {
      assert s[a] in t;
      var c :| 0 <= c < |t| && t[c] == s[a];
      assert Pick(xs, t)[c] == Pick(xs, s)[a];
    }
    if b < |xs| {
      assert t[b] in s;
      var c :| 0 <= c < |s| && s[c] == t[b];
      assert Pick(xs, s)[c] == Pick(xs, t)[b];
    }
  }

  /** If two sources disagree on a key, arrival order decides what is stored for it */
  lemma DisagreementShows<X, K(!new), P>(f: X -> seq<P>, key: P -> K, xs: seq<X>)
    returns (s: seq<nat>, t: seq<nat>, k: K)
    requires !SourcesAgree(f, key, xs)
    ensures IsOrder(|xs|, s) && IsOrder(|xs|, t)
    ensures FirstMatch(key, Gather(f, Pick(xs, s)), k) != FirstMatch(key, Gather(f, Pick(xs, t)), k)
  {
    var i, j, k' :| 0 <= i < |xs| && 0 <= j < |xs|
      && FirstMatch(key, f(xs[i]), k').Some? && FirstMatch(key, f(xs[j]), k').Some?
      && FirstMatch(key, f(xs[i]), k') != FirstMatch(key, f(xs[j]), k');
    s, t, k := OrderFrom(|xs|, i), OrderFrom(|xs|, j), k';
    var a := FirstArrival(f, key, Pick(xs, s), k);
    var b := FirstArrival(f, key, Pick(xs, t), k);
    assert Pick(xs, s)[0] == xs[i] && Pick(xs, t)[0] == xs[j];
  }

  /** The stored maps are those of some arrival order of the batches, and every order occurs */
  lemma StoresInOrder(o: seq<Outcome>, provErr: Option<Error>, nodes: map<string, NodeMetricsPoint>,
                      pods: map<NamespacedName, PodMetricsPoint>)
    ensures Stores(o, provErr, nodes, pods) <==>
            exists order :: IsOrder(|o|, order)
              && Indexes(nodes, NodeKey, Gather(NodesOf, Pick(Batches(o), order)))
              && Indexes(pods, PodKey, Gather(PodsOf, Pick(Batches(o), order)))
  {
    if Stores(o, provErr, nodes, pods) {
      var actions, t :| Run(o, provErr, actions, t) && t.collector.Returned?
                        && Indexes(nodes, NodeKey, t.nodes) && Indexes(pods, PodKey, t.pods);
      var batchOrder, errorOrder := RunOrders(o, provErr, actions, t);
      FinalResult(o, provErr, t, batchOrder, errorOrder);
    }
    if order :| IsOrder(|o|, order)
                && Indexes(nodes, NodeKey, Gather(NodesOf, Pick(Batches(o), order)))
                && Indexes(pods, PodKey, Gather(PodsOf, Pick(Batches(o), order))) {
      var actions, t := RunInOrder(o, provErr, order, order);
    }
  }

  lemma StoresIndexOf(o: seq<Outcome>, provErr: Option<Error>, order: seq<nat>)
    requires IsOrder(|o|, order)
    ensures Stores(o, provErr, IndexOf(NodeKey, Gather(NodesOf, Pick(Batches(o), order))),
                   IndexOf(PodKey, Gather(PodsOf, Pick(Batches(o), order))))
  {
    StoresInOrder(o, provErr, IndexOf(NodeKey, Gather(NodesOf, Pick(Batches(o), order))),
                  IndexOf(PodKey, Gather(PodsOf, Pick(Batches(o), order))));
  }

  ghost predicate Confluent(o: seq<Outcome>, provErr: Option<Error>) {
    forall nodes, pods, nodes', pods' :: Stores(o, provErr, nodes, pods) && Stores(o, provErr, nodes', pods')
      ==> nodes == nodes' && pods == pods'
  }

  /** What is stored is independent of the interleaving if and only if no two sources
      report different first points for one key. */
  lemma ConfluentExactly(o: seq<Outcome>, provErr: Option<Error>)
    ensures Confluent(o, provErr) <==>
            SourcesAgree(NodesOf, NodeKey, Batches(o)) && SourcesAgree(PodsOf, PodKey, Batches(o))
  {
    if SourcesAgree(NodesOf, NodeKey, Batches(o)) && SourcesAgree(PodsOf, PodKey, Batches(o)) {
      AgreementSuffices(o, provErr);
    } else if !SourcesAgree(NodesOf, NodeKey, Batches(o)) {
      var s, t, k := DisagreementShows(NodesOf, NodeKey, Batches(o));
      StoresIndexOf(o, provErr, s);
      StoresIndexOf(o, provErr, t);
      assert IndexOf(NodeKey, Gather(NodesOf, Pick(Batches(o), s))) != IndexOf(NodeKey, Gather(NodesOf, Pick(Batches(o), t)));
    } else {
      var s, t, k := DisagreementShows(PodsOf, PodKey, Batches(o));
      StoresIndexOf(o, provErr, s);
      StoresIndexOf(o, provErr, t);
      assert IndexOf(PodKey, Gather(PodsOf, Pick(Batches(o), s))) != IndexOf(PodKey, Gather(PodsOf, Pick(Batches(o), t)));
    }
  }

  lemma AgreementSuffices(o: seq<Outcome>, provErr: Option<Error>)
    requires SourcesAgree(NodesOf, NodeKey, Batches(o)) && SourcesAgree(PodsOf, PodKey, Batches(o))
    ensures Confluent(o, provErr)
  {
    forall nodes, pods, nodes', pods' | Stores(o, provErr, nodes, pods) && Stores(o, provErr, nodes', pods')
      ensures nodes == nodes' && pods == pods'
    {
      StoresInOrder(o, provErr, nodes, pods);
      StoresInOrder(o, provErr, nodes', pods');
      var s :| IsOrder(|o|, s) && Indexes(nodes, NodeKey, Gather(NodesOf, Pick(Batches(o), s)))
               && Indexes(pods, PodKey, Gather(PodsOf, Pick(Batches(o), s)));
      var t :| IsOrder(|o|, t) && Indexes(nodes', NodeKey, Gather(NodesOf, Pick(Batches(o), t)))
               && Indexes(pods', PodKey, Gather(PodsOf, Pick(Batches(o), t)));
      SameIndex(NodesOf, NodeKey, Batches(o), s, t, nodes, nodes');
      SameIndex(PodsOf, PodKey, Batches(o), s, t, pods, pods');
    }
  }

  lemma SameIndex<X, K(!new), P>(f: X -> seq<P>, key: P -> K, xs: seq<X>, s: seq<nat>, t: seq<nat>,
                                 m: map<K, P>, n: map<K, P>)
    requires IsOrder(|xs|, s) && IsOrder(|xs|, t) && SourcesAgree(f, key, xs)
    requires Indexes(m, key, Gather(f, Pick(xs, s))) && Indexes(n, key, Gather(f, Pick(xs, t)))
    ensures m == n
  {
    forall k ensures k in m <==> k in n ensures k in m && k in n ==> m[k] == n[k] {
      OrderIrrelevant(f, key, xs, s, t, k);
    }
  }

  /** The uniqueness the MetricSource contract asks for: no key is reported by two sources */
  ghost predicate UniqueAcross<X, K(!new), P>(f: X -> seq<P>, key: P -> K, xs: seq<X>) {
    forall i, j, p, q :: 0 <= i < |xs| && 0 <= j < |xs| && i != j && p in f(xs[i]) && q in f(xs[j])
      ==> key(p) != key(q)
  }

  lemma UniqueSourcesAgree<X, K(!new), P>(f: X -> seq<P>, key: P -> K, xs: seq<X>)
    requires UniqueAcross(f, key, xs)
    ensures SourcesAgree(f, key, xs)
  {
    forall i, j, k | 0 <= i < |xs| && 0 <= j < |xs|
      && FirstMatch(key, f(xs[i]), k).Some? && FirstMatch(key, f(xs[j]), k).Some?
      ensures FirstMatch(key, f(xs[i]), k) == FirstMatch(key, f(xs[j]), k)
    {
      FirstMatchMeaning(key, f(xs[i]), k);
      FirstMatchMeaning(key, f(xs[j]), k);
    }
  }

  /** Sources that meet their contract make the stored maps independent of the interleaving */
  lemma ContractGivesConfluence(o: seq<Outcome>, provErr: Option<Error>)
    requires UniqueAcross(NodesOf, NodeKey, Batches(o)) && UniqueAcross(PodsOf, PodKey, Batches(o))
    ensures Confluent(o, provErr)
  {
    UniqueSourcesAgree(NodesOf, NodeKey, Batches(o));
    UniqueSourcesAgree(PodsOf, PodKey, Batches(o));
    AgreementSuffices(o, provErr);
  }
}
