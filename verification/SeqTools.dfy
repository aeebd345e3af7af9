/** Sequence vocabulary shared by the other modules: duplicate freedom, orders of
    the indices below n, picking by index, and concatenation maps. */
module SeqTools {

  predicate NoDup<T(==)>(s: seq<T>) {
    forall i, j :: 0 <= i < j < |s| ==> s[i] != s[j]
  }

  /** order lists every index below n exactly once */
  predicate IsOrder(n: nat, order: seq<nat>) {
    |order| == n && NoDup(order) && forall j :: 0 <= j < n ==> order[j] < n
  }

  /** The elements of xs at the given indices, in that order */
  function Pick<T>(xs: seq<T>, order: seq<nat>): (r: seq<T>)
    requires forall j :: 0 <= j < |order| ==> order[j] < |xs|
    ensures |r| == |order|
    ensures forall j :: 0 <= j < |order| ==> r[j] == xs[order[j]]
  {
    if order == [] then [] else [xs[order[0]]] + Pick(xs, order[1..])
  }

  /** Concatenation of f over the elements of xs */
  function Gather<X, T>(f: X -> seq<T>, xs: seq<X>): seq<T> {
    if xs == [] then [] else f(xs[0]) + Gather(f, xs[1..])
  }

  ghost function Elements<T>(s: seq<T>): set<T> { set x | x in s }

  lemma {:induction false} NoDupCardinality<T>(s: seq<T>)
    requires NoDup(s)
    ensures |Elements(s)| == |s|
  {
    if s != [] {
      NoDupCardinality(s[1..]);
      assert Elements(s) == {s[0]} + Elements(s[1..]);
      assert s[0] !in s[1..];
    }
  }

  /** A duplicate-free sequence whose elements all occur in another is no longer than it */
  lemma NoDupIncluded<T>(s: seq<T>, t: seq<T>)
    requires NoDup(s) && NoDup(t) && forall x :: x in s ==> x in t
    ensures |s| <= |t|
  {
    NoDupCardinality(s);
    NoDupCardinality(t);
    assert Elements(s) <= Elements(t);
    SubsetCardinality(Elements(s), Elements(t));
  }

  lemma {:induction false} SubsetCardinality<T>(a: set<T>, b: set<T>)
    requires a <= b
    ensures |a| <= |b|
    ensures |a| == |b| ==> a == b
  {
    if a != {} {
      var x :| x in a;
      SubsetCardinality(a - {x}, b - {x});
    }
  }

  ghost function Below(n: nat): (r: set<nat>)
    ensures |r| == n && forall i: nat :: i in r <==> i < n
  {
    if n == 0 then {} else Below(n - 1) + {n - 1}
  }

  /** Duplicate-free index lists are never longer than n, and cover everything at length n */
  lemma OrderBounds(n: nat, s: seq<nat>)
    requires NoDup(s) && forall i :: i in s ==> i < n
    ensures |s| <= n
    ensures |s| == n ==> forall i: nat :: i < n ==> i in s
  {
    NoDupCardinality(s);
    SubsetCardinality(Elements(s), Below(n));
    if |s| == n {
      forall i: nat | i < n ensures i in s {
        assert i in Below(n) && Elements(s) == Below(n);
        assert i in Elements(s);
      }
    }
  }

  lemma SliceAppend<T>(s: seq<T>, x: T, k: nat)
    requires k <= |s|
    ensures (s + [x])[..k] == s[..k] && (s + [x])[k..] == s[k..] + [x]
  {
  }

  lemma Associative<T>(a: seq<T>, b: seq<T>, c: seq<T>)
    ensures a + b + c == a + (b + c)
  {
  }

  lemma SliceUpdate<T>(s: seq<T>, k: nat, x: T)
    requires k < |s|
    ensures s[k := x][..k] == s[..k] && s[k := x][..k + 1] == s[..k] + [x]
  {
  }

  lemma {:induction false} PickAppend<T>(xs: seq<T>, a: seq<nat>, b: seq<nat>)
    requires forall j :: 0 <= j < |a| ==> a[j] < |xs|
    requires forall j :: 0 <= j < |b| ==> b[j] < |xs|
    ensures Pick(xs, a + b) == Pick(xs, a) + Pick(xs, b)
  {
  }

  lemma {:induction false} GatherAppend<X, T>(f: X -> seq<T>, xs: seq<X>, ys: seq<X>)
    ensures Gather(f, xs + ys) == Gather(f, xs) + Gather(f, ys)
  {
    if xs == [] {
      assert xs + ys == ys;
    } else {
      GatherAppend(f, xs[1..], ys);
      assert (xs + ys)[0] == xs[0] && (xs + ys)[1..] == xs[1..] + ys;
      Associative(f(xs[0]), Gather(f, xs[1..]), Gather(f, ys));
    }
  }

  lemma GatherSnoc<X, T>(f: X -> seq<T>, xs: seq<X>, x: X)
    ensures Gather(f, xs + [x]) == Gather(f, xs) + f(x)
  {
    GatherAppend(f, xs, [x]);
    assert [x][1..] == [];
  }

  lemma GatherPrefix<X, T>(f: X -> seq<T>, xs: seq<X>, i: nat)
    requires i < |xs|
    ensures Gather(f, xs[..i + 1]) == Gather(f, xs[..i]) + f(xs[i])
  {
    GatherSnoc(f, xs[..i], xs[i]);
    assert xs[..i + 1] == xs[..i] + [xs[i]];
  }

  lemma {:induction false} GatherMember<X, T>(f: X -> seq<T>, xs: seq<X>, y: T)
    ensures y in Gather(f, xs) <==> exists x :: x in xs && y in f(x)
  {
    if xs != [] {
      GatherMember(f, xs[1..], y);
      assert xs == [xs[0]] + xs[1..];
    }
  }

  /** The positions of y in the lists f gives for the elements of xs */
  ghost function Places<X, T>(f: X -> seq<T>, xs: seq<X>, y: T): set<(int, int)> {
    set i, j | 0 <= i < |xs| && 0 <= j < |f(xs[i])| && f(xs[i])[j] == y :: (i, j)
  }

  ghost function PlacesIn<T>(s: seq<T>, y: T, n: int): set<(int, int)> {
    set j | 0 <= j < |s| && s[j] == y :: (n, j)
  }

  lemma {:induction false} CountIn<T>(s: seq<T>, y: T, n: int)
    ensures multiset(s)[y] == |PlacesIn(s, y, n)|
  {
    if s != [] {
      var k := |s| - 1;
      CountIn(s[..k], y, n);
      assert s == s[..k] + [s[k]];
      var more := if s[k] == y then {(n, k)} else {};
      assert PlacesIn(s, y, n) == PlacesIn(s[..k], y, n) + more;
      assert (n, k) !in PlacesIn(s[..k], y, n);
    }
  }

  /** A concatenation map holds y as often as y occurs in the lists */
  lemma {:induction false} GatherCount<X, T>(f: X -> seq<T>, xs: seq<X>, y: T)
    ensures multiset(Gather(f, xs))[y] == |Places(f, xs, y)|
    decreases |xs|
  {
    if xs != [] {
      var n := |xs| - 1;
      GatherCount(f, xs[..n], y);
      assert xs == xs[..n] + [xs[n]];
      GatherSnoc(f, xs[..n], xs[n]);
      CountIn(f(xs[n]), y, n);
      PlacesSplit(f, xs, y);
    }
  }

  lemma PlacesSplit<X, T>(f: X -> seq<T>, xs: seq<X>, y: T)
    requires xs != []
    ensures |Places(f, xs, y)| == |Places(f, xs[..|xs| - 1], y)| + |PlacesIn(f(xs[|xs| - 1]), y, |xs| - 1)|
  {
    var n := |xs| - 1;
    var a, b := Places(f, xs[..n], y), PlacesIn(f(xs[n]), y, n);
    assert Places(f, xs, y) == a + b;
    assert a !! b;
  }

  /** The list for one element stands in the concatenation as one block */
  lemma {:induction false} GatherBlock<X, T>(f: X -> seq<T>, xs: seq<X>, i: nat) returns (k: nat)
    requires i < |xs|
    ensures k + |f(xs[i])| <= |Gather(f, xs)| && Gather(f, xs)[k..k + |f(xs[i])|] == f(xs[i])
  {
    var first, rest := f(xs[0]), Gather(f, xs[1..]);
    assert Gather(f, xs) == first + rest;
    if i == 0 {
      k := 0;
      assert (first + rest)[..|first|] == first;
    } else {
      var m := GatherBlock(f, xs[1..], i - 1);
      k := |first| + m;
      assert (first + rest)[k..k + |f(xs[i])|] == rest[m..m + |f(xs[i])|];
    }
  }

  /** The list of one element if p holds of it, else empty: Gather over it filters */
  function Keep<X>(p: X -> bool): X -> seq<X> {
    x => if p(x) then [x] else []
  }

  predicate StrictlyIncreasing(s: seq<nat>) { forall i, j :: 0 <= i < j < |s| ==> s[i] < s[j] }

  /** Where f gives at most one element each, kept lists in increasing order exactly the indices
      at which it gives one, and Gather holds those elements in that order and nothing else. */
  lemma {:induction false} GatherMeaning<X, T>(f: X -> seq<T>, xs: seq<X>) returns (kept: seq<nat>)
    requires forall i :: 0 <= i < |xs| ==> |f(xs[i])| <= 1
    ensures StrictlyIncreasing(kept) && |kept| == |Gather(f, xs)|
    ensures forall j :: 0 <= j < |kept| ==> kept[j] < |xs| && f(xs[kept[j]]) == [Gather(f, xs)[j]]
    ensures forall i: nat :: i < |xs| && f(xs[i]) != [] ==> i in kept
    decreases |xs|
  {
    if xs == [] {
      return [];
    }
    var n := |xs| - 1;
    assert xs == xs[..n] + [xs[n]];
    GatherSnoc(f, xs[..n], xs[n]);
    kept := GatherMeaning(f, xs[..n]);
    var m := |kept|;
    assert forall j :: 0 <= j < m ==> Gather(f, xs)[j] == Gather(f, xs[..n])[j];
    assert forall i: nat :: i < n ==> xs[i] == xs[..n][i];
    if f(xs[n]) != [] {
      assert f(xs[n]) == [Gather(f, xs)[m]];
      kept := kept + [n];
    }
  }

  /** Dropping the largest index from an order leaves an order */
  lemma DropLargest(n: nat, order: seq<nat>) returns (k: nat)
    requires n > 0 && IsOrder(n, order)
    ensures k < n && order[k] == n - 1
    ensures IsOrder(n - 1, order[..k] + order[k + 1..])
  {
    OrderBounds(n, order);
    assert n - 1 in order;
    k :| 0 <= k < |order| && order[k] == n - 1;
  }

  lemma PickPrefix<T>(front: seq<T>, last: T, order: seq<nat>)
    requires forall j :: 0 <= j < |order| ==> order[j] < |front|
    ensures Pick(front + [last], order) == Pick(front, order)
  {
  }

  lemma PickThrough<T>(front: seq<T>, last: T, before: seq<nat>, after: seq<nat>)
    requires forall j :: 0 <= j < |before| ==> before[j] < |front|
    requires forall j :: 0 <= j < |after| ==> after[j] < |front|
    ensures Pick(front + [last], before + [|front|] + after) == Pick(front, before) + [last] + Pick(front, after)
  {
    var xs := front + [last];
    PickAppend(xs, before + [|front|], after);
    PickAppend(xs, before, [|front|]);
    PickPrefix(front, last, before);
    PickPrefix(front, last, after);
    assert Pick(xs, [|front|]) == [last];
  }

  lemma MultisetAround<T>(a: seq<T>, x: T, b: seq<T>)
    ensures multiset(a + [x] + b) == multiset(a + b) + multiset{x}
  {
  }

  lemma PickAround<T>(front: seq<T>, last: T, before: seq<nat>, after: seq<nat>)
    requires forall j :: 0 <= j < |before| ==> before[j] < |front|
    requires forall j :: 0 <= j < |after| ==> after[j] < |front|
    ensures multiset(Pick(front + [last], before + [|front|] + after))
         == multiset(Pick(front, before + after)) + multiset{last}
  {
    PickThrough(front, last, before, after);
    PickAppend(front, before, after);
    MultisetAround(Pick(front, before), last, Pick(front, after));
  }

  /** Picking by an order only permutes */
  lemma {:induction false} PickPermutes<T>(xs: seq<T>, order: seq<nat>)
    requires IsOrder(|xs|, order)
    ensures multiset(Pick(xs, order)) == multiset(xs)
    decreases |xs|
  {
    if xs != [] {
      var n := |xs| - 1;
      var k := DropLargest(|xs|, order);
      var front, before, after := xs[..n], order[..k], order[k + 1..];
      assert xs == front + [xs[n]];
      assert order == before + [n] + after;
      PickPermutes(front, before + after);
      assert forall j :: 0 <= j < |before| ==> (before + after)[j] == before[j];
      assert forall j :: 0 <= j < |after| ==> (before + after)[|before| + j] == after[j];
      PickAround(front, xs[n], before, after);
    }
  }

  /** The first element of xs taken out of a rearrangement of xs */
  lemma TakeOut<X>(xs: seq<X>, ys: seq<X>) returns (k: nat)
    requires xs != [] && multiset(xs) == multiset(ys)
    ensures k < |ys| && ys[k] == xs[0]
    ensures multiset(ys[..k] + ys[k + 1..]) == multiset(xs[1..])
  {
    assert xs[0] in multiset(ys);
    k :| 0 <= k < |ys| && ys[k] == xs[0];
    TakeFirst(xs);
    WithoutIndex(ys, k);
  }

  lemma TakeFirst<X>(xs: seq<X>)
    requires xs != []
    ensures multiset(xs[1..]) == multiset(xs) - multiset{xs[0]}
  {
    assert xs == [xs[0]] + xs[1..];
  }

  lemma WithoutIndex<X>(ys: seq<X>, k: nat)
    requires k < |ys|
    ensures multiset(ys[..k] + ys[k + 1..]) == multiset(ys) - multiset{ys[k]}
  {
    assert ys == ys[..k] + [ys[k]] + ys[k + 1..];
    MultisetAround(ys[..k], ys[k], ys[k + 1..]);
  }

  lemma GatherAround<X, T>(f: X -> seq<T>, before: seq<X>, x: X, after: seq<X>)
    ensures multiset(Gather(f, before + [x] + after)) == multiset(Gather(f, before + after)) + multiset(f(x))
  {
    GatherAppend(f, before + [x], after);
    GatherSnoc(f, before, x);
    GatherAppend(f, before, after);
  }

  /** As a multiset, a concatenation map does not depend on the order of its argument */
  lemma {:induction false} GatherPermutes<X, T>(f: X -> seq<T>, xs: seq<X>, ys: seq<X>)
    requires multiset(xs) == multiset(ys)
    ensures multiset(Gather(f, xs)) == multiset(Gather(f, ys))
    decreases |xs|
  {
    if xs == [] {
      assert |multiset(ys)| == 0;
    } else {
      var k := TakeOut(xs, ys);
      GatherPermutes(f, xs[1..], ys[..k] + ys[k + 1..]);
      GatherAround(f, ys[..k], ys[k], ys[k + 1..]);
      assert ys == ys[..k] + [ys[k]] + ys[k + 1..];
    }
  }

  /** An order that starts with a chosen index */
  function OrderFrom(n: nat, first: nat): (r: seq<nat>)
    requires first < n
    ensures IsOrder(n, r) && r[0] == first
  {
    seq(n, j => if j == 0 then first else if j == first then 0 else j)
  }
}
