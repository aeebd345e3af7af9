/** What both sorting programs compute: the one sorted rearrangement that keeps equivalent
    items in their original order (Python/reverse_string.py, Python/insertion.py). */
module StableSort {

  ghost predicate TotalPreorder<T(!new)>(leq: (T, T) -> bool) {
    && (forall a, b :: leq(a, b) || leq(b, a))
    && (forall a, b, c :: leq(a, b) && leq(b, c) ==> leq(a, c))
  }

  /** Python's a < b, for a total preorder */
  predicate Less<T>(leq: (T, T) -> bool, a: T, b: T) { !leq(b, a) }

  predicate Sorted<T>(leq: (T, T) -> bool, s: seq<T>) {
    forall i, j :: 0 <= i < j < |s| ==> leq(s[i], s[j])
  }

  /** The items of s that compare equal to x, in order */
  function Class<T>(leq: (T, T) -> bool, x: T, s: seq<T>): seq<T> {
    if s == [] then []
    else (if leq(x, s[0]) && leq(s[0], x) then [s[0]] else []) + Class(leq, x, s[1..])
  }

  /** r is sorted, and items that compare equal stand in the order they have in s */
  ghost predicate StableSortOf<T(!new)>(leq: (T, T) -> bool, s: seq<T>, r: seq<T>) {
    Sorted(leq, r) && forall x :: Class(leq, x, r) == Class(leq, x, s)
  }

  /** x after the last item of s that is not greater */
  function Insert<T>(leq: (T, T) -> bool, s: seq<T>, x: T): (r: seq<T>)
    ensures |r| == |s| + 1
  {
    if s == [] || !Less(leq, x, s[|s| - 1]) then s + [x]
    else Insert(leq, s[..|s| - 1], x) + [s[|s| - 1]]
  }

  function Sort<T>(leq: (T, T) -> bool, s: seq<T>): (r: seq<T>)
    ensures |r| == |s|
  {
    if s == [] then [] else Insert(leq, Sort(leq, s[..|s| - 1]), s[|s| - 1])
  }

  lemma {:induction false} ClassConcat<T>(leq: (T, T) -> bool, x: T, s: seq<T>, t: seq<T>)
    ensures Class(leq, x, s + t) == Class(leq, x, s) + Class(leq, x, t)
  {
    if s == [] {
      assert s + t == t;
    } else {
      assert (s + t)[1..] == s[1..] + t;
      ClassConcat(leq, x, s[1..], t);
    }
  }

  lemma {:induction false} ClassEmpty<T>(leq: (T, T) -> bool, x: T, s: seq<T>)
    ensures Class(leq, x, s) == [] <==> forall i :: 0 <= i < |s| ==> !(leq(x, s[i]) && leq(s[i], x))
  {
    if s != [] {
      ClassEmpty(leq, x, s[1..]);
      assert forall i :: 1 <= i < |s| ==> s[i] == s[1..][i - 1];
    }
  }

  /** Insert splits s where the greater items begin */
  lemma {:induction false} InsertSplits<T>(leq: (T, T) -> bool, s: seq<T>, x: T, k: nat)
    requires k <= |s| && (forall m :: k <= m < |s| ==> Less(leq, x, s[m]))
    requires k > 0 ==> !Less(leq, x, s[k - 1])
    ensures Insert(leq, s, x) == s[..k] + [x] + s[k..]
  {
    if k < |s| {
      var t := s[..|s| - 1];
      InsertSplits(leq, t, x, k);
      assert s[..k] == t[..k] && s[k..] == t[k..] + [s[|s| - 1]];
    } else {
      assert s[..k] == s && s[k..] == [];
    }
  }

  /** Where Insert puts x in a sorted sequence */
  lemma {:induction false} InsertPoint<T(!new)>(leq: (T, T) -> bool, s: seq<T>, x: T) returns (k: nat)
    requires TotalPreorder(leq) && Sorted(leq, s)
    ensures k <= |s| && Insert(leq, s, x) == s[..k] + [x] + s[k..]
    ensures forall m :: k <= m < |s| ==> Less(leq, x, s[m])
    ensures forall m :: 0 <= m < k ==> leq(s[m], x)
  {
    k := |s|;
    while k > 0 && Less(leq, x, s[k - 1])
      invariant k <= |s| && forall m :: k <= m < |s| ==> Less(leq, x, s[m])
    {
      k := k - 1;
    }
    InsertSplits(leq, s, x, k);
  }

  /** x may move over b if nothing in b compares equal to it */
  lemma ClassMoves<T(!new)>(leq: (T, T) -> bool, a: seq<T>, b: seq<T>, x: T, y: T)
    requires TotalPreorder(leq) && forall m :: 0 <= m < |b| ==> Less(leq, x, b[m])
    ensures Class(leq, y, a + [x] + b) == Class(leq, y, a + b + [x])
  {
    ClassConcat(leq, y, a + [x], b);
    ClassConcat(leq, y, a, [x]);
    ClassConcat(leq, y, a + b, [x]);
    ClassConcat(leq, y, a, b);
    OneClassEmpty(leq, b, x, y);
  }

  lemma OneClassEmpty<T(!new)>(leq: (T, T) -> bool, b: seq<T>, x: T, y: T)
    requires TotalPreorder(leq) && forall m :: 0 <= m < |b| ==> Less(leq, x, b[m])
    ensures Class(leq, y, [x]) == [] || Class(leq, y, b) == []
  {
    ClassEmpty(leq, y, [x]);
    ClassEmpty(leq, y, b);
  }

  lemma InsertKeepsClasses<T(!new)>(leq: (T, T) -> bool, s: seq<T>, x: T, y: T)
    requires TotalPreorder(leq) && Sorted(leq, s)
    ensures Class(leq, y, Insert(leq, s, x)) == Class(leq, y, s + [x])
  {
    var k := InsertPoint(leq, s, x);
    assert s == s[..k] + s[k..];
    ClassMoves(leq, s[..k], s[k..], x, y);
  }

  lemma InsertIsStable<T(!new)>(leq: (T, T) -> bool, s: seq<T>, x: T)
    requires TotalPreorder(leq) && Sorted(leq, s)
    ensures StableSortOf(leq, s + [x], Insert(leq, s, x))
  {
    var k := InsertPoint(leq, s, x);
    forall y ensures Class(leq, y, Insert(leq, s, x)) == Class(leq, y, s + [x]) {
      InsertKeepsClasses(leq, s, x, y);
    }
  }

  lemma {:induction false} SortIsStable<T(!new)>(leq: (T, T) -> bool, s: seq<T>)
    requires TotalPreorder(leq)
    ensures StableSortOf(leq, s, Sort(leq, s))
  {
    if s != [] {
      var t, x := s[..|s| - 1], s[|s| - 1];
      SortIsStable(leq, t);
      InsertIsStable(leq, Sort(leq, t), x);
      forall y ensures Class(leq, y, Sort(leq, s)) == Class(leq, y, s) {
        ClassConcat(leq, y, Sort(leq, t), [x]);
        ClassConcat(leq, y, t, [x]);
        assert s == t + [x];
      }
    }
  }

  ghost predicate SameClasses<T(!new)>(leq: (T, T) -> bool, r: seq<T>, q: seq<T>) {
    forall x :: Class(leq, x, r) == Class(leq, x, q)
  }

  /** Sorted sequences with the same classes are equal */
  lemma {:induction false} ClassesDetermine<T(!new)>(leq: (T, T) -> bool, r: seq<T>, q: seq<T>)
    requires TotalPreorder(leq) && Sorted(leq, r) && Sorted(leq, q) && SameClasses(leq, r, q)
    ensures r == q
    decreases |r|
  {
    SameEmptiness(leq, r, q);
    if r != [] {
      SameHead(leq, r, q);
      SameTail(leq, r, q);
      ClassesDetermine(leq, r[1..], q[1..]);
      assert r == [r[0]] + r[1..] && q == [q[0]] + q[1..];
    }
  }

  lemma SameEmptiness<T(!new)>(leq: (T, T) -> bool, r: seq<T>, q: seq<T>)
    requires TotalPreorder(leq) && SameClasses(leq, r, q)
    ensures r == [] <==> q == []
  {
    assert r != [] ==> Class(leq, r[0], r) != [];
    assert q != [] ==> Class(leq, q[0], q) != [];
  }

  lemma SameHead<T(!new)>(leq: (T, T) -> bool, r: seq<T>, q: seq<T>)
    requires TotalPreorder(leq) && Sorted(leq, r) && Sorted(leq, q) && SameClasses(leq, r, q)
    requires r != [] && q != []
    ensures r[0] == q[0]
  {
    HeadBelow(leq, r, q);
    HeadBelow(leq, q, r);
    assert Class(leq, r[0], r)[0] == r[0] && Class(leq, r[0], q)[0] == q[0];
  }

  lemma SameTail<T(!new)>(leq: (T, T) -> bool, r: seq<T>, q: seq<T>)
    requires r != [] && q != [] && r[0] == q[0] && SameClasses(leq, r, q)
    ensures SameClasses(leq, r[1..], q[1..])
  {
    forall x ensures Class(leq, x, r[1..]) == Class(leq, x, q[1..]) {
      ClassTails(leq, x, r, q);
    }
  }

  lemma HeadBelow<T(!new)>(leq: (T, T) -> bool, r: seq<T>, q: seq<T>)
    requires TotalPreorder(leq) && Sorted(leq, r) && r != [] && q != []
    requires Class(leq, q[0], r) == Class(leq, q[0], q)
    ensures leq(r[0], q[0])
  {
    assert Class(leq, q[0], q) != [];
    ClassEmpty(leq, q[0], r);
    var i :| 0 <= i < |r| && leq(q[0], r[i]) && leq(r[i], q[0]);
  }

  lemma ClassTails<T>(leq: (T, T) -> bool, x: T, r: seq<T>, q: seq<T>)
    requires r != [] && q != [] && r[0] == q[0] && Class(leq, x, r) == Class(leq, x, q)
    ensures Class(leq, x, r[1..]) == Class(leq, x, q[1..])
  {
    var head := if leq(x, r[0]) && leq(r[0], x) then [r[0]] else [];
    assert Class(leq, x, r)[|head|..] == Class(leq, x, r[1..]);
    assert Class(leq, x, q)[|head|..] == Class(leq, x, q[1..]);
  }

  /** Sort is the only stable sort there is */
  lemma StableSortExactly<T(!new)>(leq: (T, T) -> bool, s: seq<T>, r: seq<T>)
    requires TotalPreorder(leq)
    ensures StableSortOf(leq, s, r) <==> r == Sort(leq, s)
  {
    SortIsStable(leq, s);
    if StableSortOf(leq, s, r) {
      ClassesDetermine(leq, r, Sort(leq, s));
    }
  }

  lemma MultisetSplits<T>(s: seq<T>)
    requires s != []
    ensures multiset(s) == multiset{s[0]} + multiset(s[1..])
  {
    assert s == [s[0]] + s[1..];
  }

  lemma {:induction false} ClassCount<T>(leq: (T, T) -> bool, y: T, s: seq<T>)
    requires leq(y, y)
    ensures multiset(Class(leq, y, s))[y] == multiset(s)[y]
  {
    if s != [] {
      ClassCount(leq, y, s[1..]);
      MultisetSplits(s);
      var head := if leq(y, s[0]) && leq(s[0], y) then [s[0]] else [];
      assert multiset(Class(leq, y, s))[y] == multiset(head)[y] + multiset(Class(leq, y, s[1..]))[y];
    }
  }

  /** A stable sort is a permutation */
  lemma StableSortPermutes<T(!new)>(leq: (T, T) -> bool, s: seq<T>, r: seq<T>)
    requires TotalPreorder(leq) && StableSortOf(leq, s, r)
    ensures multiset(r) == multiset(s)
  {
    forall y ensures multiset(r)[y] == multiset(s)[y] {
      ClassCount(leq, y, r);
      ClassCount(leq, y, s);
    }
  }
}
