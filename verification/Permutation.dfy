/** All permutations by rotating one shared list (Python/permutation.py). */
module Permutation {
  import opened SeqTools

  /** s with its first i elements moved to the end */
  function Rotated<T>(s: seq<T>, i: nat): seq<T>
    requires i <= |s|
  {
    s[i..] + s[..i]
  }

  lemma RotateOnce<T>(s: seq<T>, i: nat)
    requires i < |s|
    ensures Rotated(s, i)[0] == s[i] && Rotated(s, i)[1..] + [s[i]] == Rotated(s, i + 1)
  {
  }

  function AppendAll<T>(ss: seq<seq<T>>, x: T): (r: seq<seq<T>>)
    ensures |r| == |ss| && forall k :: 0 <= k < |ss| ==> r[k] == ss[k] + [x]
  {
    seq(|ss|, k requires 0 <= k < |ss| => ss[k] + [x])
  }

  /** The contents of the returned lists, in order */
  function Perms<T>(s: seq<T>): seq<seq<T>>
    decreases |s|, 1, 0
  {
    if |s| == 1 then [s] else PermsUpTo(s, |s|)
  }

  /** What the first n rounds of the loop produce */
  function PermsUpTo<T>(s: seq<T>, n: nat): seq<seq<T>>
    requires n <= |s| && |s| != 1
    decreases |s|, 0, n
  {
    if n == 0 then []
    else PermsUpTo(s, n - 1) + AppendAll(Perms(Rotated(s, n - 1)[1..]), s[n - 1])
  }

  /** A Python list object */
  class PyList<T> {
    var items: seq<T>

    constructor (items: seq<T>)
      ensures this.items == items
    {
      this.items := items;
    }

    method PopFirst() returns (x: T)
      requires items != []
      modifies this
      ensures [x] + items == old(items)
    {
      x, items := items[0], items[1..];
    }

    method Append(x: T)
      modifies this
      ensures items == old(items) + [x]
    {
      items := items + [x];
    }
  }

  ghost function Contents<T>(ls: seq<PyList<T>>): (r: seq<seq<T>>)
    reads ls
    ensures |r| == |ls| && forall k :: 0 <= k < |ls| ==> r[k] == ls[k].items
  {
    seq(|ls|, k requires 0 <= k < |ls| reads ls => ls[k].items)
  }

  lemma ContentsConcat<T>(ls: seq<PyList<T>>, ms: seq<PyList<T>>)
    ensures Contents(ls + ms) == Contents(ls) + Contents(ms)
  {
    assert forall k :: 0 <= k < |ls| + |ms| ==> Contents(ls + ms)[k] == (Contents(ls) + Contents(ms))[k];
  }

  /** perm.append(n) for every list in perms */
  method AppendToAll<T>(perms: seq<PyList<T>>, n: T)
    requires NoDup(perms)
    modifies perms
    ensures Contents(perms) == AppendAll(old(Contents(perms)), n)
  {
    for k := 0 to |perms|
      invariant forall m :: 0 <= m < k ==> perms[m].items == old(perms[m].items) + [n]
      invariant forall m :: k <= m < |perms| ==> perms[m].items == old(perms[m].items)
    {
      perms[k].Append(n);
    }
  }

  /** One round of the loop: pop the head, permute the rest, put the head at every end */
  method PermuteRound<T>(nums: PyList<T>, ghost s: seq<T>, ghost i: nat) returns (perms: seq<PyList<T>>)
    requires i < |s| && |s| != 1 && nums.items == Rotated(s, i)
    modifies nums
    ensures nums.items == Rotated(s, i + 1)
    ensures NoDup(perms) && forall k :: 0 <= k < |perms| ==> fresh(perms[k]) && perms[k] != nums
    ensures Contents(perms) == AppendAll(Perms(Rotated(s, i)[1..]), s[i])
    decreases |nums.items|, 0
  {
    RotateOnce(s, i);
    var n := nums.PopFirst();
    assert n == Rotated(s, i)[0] && nums.items == Rotated(s, i)[1..];
    perms := Permute(nums);
    assert forall k :: 0 <= k < |perms| ==> perms[k] != nums;
    AppendToAll(perms, n);
    nums.Append(n);
  }

  /** result.extend(perms) after one round */
  method ExtendByRound<T>(nums: PyList<T>, ghost s: seq<T>, ghost i: nat, result: seq<PyList<T>>)
    returns (more: seq<PyList<T>>)
    requires i < |s| && |s| != 1 && nums.items == Rotated(s, i)
    requires NoDup(result) && nums !in result && Contents(result) == PermsUpTo(s, i)
    modifies nums
    ensures nums.items == Rotated(s, i + 1)
    ensures NoDup(more) && nums !in more && Contents(more) == PermsUpTo(s, i + 1)
    ensures result <= more && forall k :: |result| <= k < |more| ==> fresh(more[k])
    decreases |nums.items|, 1
  {
    var perms := PermuteRound(nums, s, i);
    assert Contents(result) == old(Contents(result)) by {
      assert forall k :: 0 <= k < |result| ==> result[k].items == old(result[k].items);
    }
    more := result + perms;
    ContentsConcat(result, perms);
  }

  /** The loop: after as many rounds as nums has items it is back in its original order */
  method PermuteLoop<T>(nums: PyList<T>) returns (result: seq<PyList<T>>)
    requires |nums.items| != 1
    modifies nums
    ensures nums.items == old(nums.items)
    ensures NoDup(result) && forall k :: 0 <= k < |result| ==> fresh(result[k])
    ensures Contents(result) == PermsUpTo(old(nums.items), old(|nums.items|))
    decreases |nums.items|, 2
  {
    result := [];
    ghost var s := nums.items;
    var count := |nums.items|;
    for i := 0 to count
      invariant nums.items == Rotated(s, i) && |s| == count
      invariant NoDup(result) && nums !in result && Contents(result) == PermsUpTo(s, i)
      invariant forall k :: 0 <= k < |result| ==> fresh(result[k])
    {
      result := ExtendByRound(nums, s, i, result);
    }
  }

  /** The returned lists are new and distinct objects, and nums is what it was before */
  method Permute<T>(nums: PyList<T>) returns (result: seq<PyList<T>>)
    modifies nums
    ensures nums.items == old(nums.items)
    ensures NoDup(result) && forall k :: 0 <= k < |result| ==> fresh(result[k])
    ensures Contents(result) == Perms(old(nums.items))
    decreases |nums.items|, 3
  {
    if |nums.items| == 1 {
      var copy := new PyList(nums.items[..]);
      return [copy];
    }
    result := PermuteLoop(nums);
  }

  // ----- what the lists are -----

  function Factorial(n: nat): nat { if n == 0 then 1 else n * Factorial(n - 1) }

  /** One round: the lists that end in s[i] */
  function Round<T>(s: seq<T>, i: nat): seq<seq<T>>
    requires i < |s| && |s| != 1
  {
    AppendAll(Perms(Rotated(s, i)[1..]), s[i])
  }

  lemma {:induction false} PermsCount<T>(s: seq<T>)
    requires s != []
    ensures |Perms(s)| == Factorial(|s|)
    decreases |s|, 1
  {
    if |s| > 1 {
      PermsUpToCount(s, |s|);
    }
  }

  lemma {:induction false} PermsUpToCount<T>(s: seq<T>, n: nat)
    requires |s| > 1 && n <= |s|
    ensures |PermsUpTo(s, n)| == n * Factorial(|s| - 1)
    decreases |s|, 0, n
  {
    if n > 0 {
      var f := Factorial(|s| - 1);
      PermsUpToCount(s, n - 1);
      PermsCount(Rotated(s, n - 1)[1..]);
      assert |PermsUpTo(s, n)| == (n - 1) * f + f;
      assert (n - 1) * f + f == n * f;
    }
  }

  /** k! lists come back exactly when the argument is not empty: permute([]) returns [], not [[]]. */
  lemma CountExactly<T>(s: seq<T>)
    ensures |Perms(s)| == Factorial(|s|) <==> s != []
  {
    if s != [] {
      PermsCount(s);
    }
  }

  lemma {:induction false} RoundsAreParts<T>(s: seq<T>, n: nat, m: nat)
    requires |s| != 1 && n <= m <= |s|
    ensures PermsUpTo(s, n) <= PermsUpTo(s, m)
    decreases m
  {
    if n < m {
      RoundsAreParts(s, n, m - 1);
    }
  }

  /** The order of the lists: those that end in s[i] come as the i-th block, in the order of the
      permutations of the items behind s[i] followed by those before it. */
  lemma OrderExactly<T>(s: seq<T>, i: nat, j: nat)
    requires |s| > 1 && i < |s| && j < Factorial(|s| - 1)
    ensures j < |Perms(s[i + 1..] + s[..i])| && i * Factorial(|s| - 1) + j < |Perms(s)|
    ensures Perms(s)[i * Factorial(|s| - 1) + j] == Perms(s[i + 1..] + s[..i])[j] + [s[i]]
  {
    var rest := s[i + 1..] + s[..i];
    PermsCount(rest);
    assert Rotated(s, i)[1..] == rest;
    PermsUpToCount(s, i);
    RoundsAreParts(s, i + 1, |s|);
    BlockOf(PermsUpTo(s, i), Round(s, i), Perms(s), j);
  }

  lemma BlockOf<T>(before: seq<T>, round: seq<T>, all: seq<T>, j: nat)
    requires before + round <= all && j < |round|
    ensures |before| + j < |all| && all[|before| + j] == round[j]
  {
    assert (before + round)[|before| + j] == round[j];
  }

  /** One item gives the one list that holds it, no item none. */
  lemma OrderOfFew<T>(s: seq<T>)
    requires |s| <= 1
    ensures Perms(s) == if s == [] then [] else [[s[0]]]
  {
    assert |s| == 1 ==> s == [s[0]];
  }

  lemma RotationMultiset<T>(s: seq<T>, i: nat)
    requires i < |s|
    ensures |Rotated(s, i)[1..]| == |s| - 1 && Rotated(s, i)[0] == s[i]
    ensures multiset(Rotated(s, i)[1..]) == multiset(s) - multiset{s[i]}
  {
    assert s == s[..i] + ([s[i]] + s[i + 1..]);
    assert Rotated(s, i)[1..] == s[i + 1..] + s[..i];
  }

  lemma AppendAllMember<T>(ps: seq<seq<T>>, x: T, p: seq<T>)
    ensures p in AppendAll(ps, x) <==> p != [] && p[|p| - 1] == x && p[..|p| - 1] in ps
  {
    if p != [] && p[|p| - 1] == x && p[..|p| - 1] in ps {
      var k :| 0 <= k < |ps| && ps[k] == p[..|p| - 1];
      assert AppendAll(ps, x)[k] == p;
    }
    if p in AppendAll(ps, x) {
      var k :| 0 <= k < |ps| && AppendAll(ps, x)[k] == p;
      assert p[..|p| - 1] == ps[k];
    }
  }

  lemma {:induction false} PermsUpToMember<T>(s: seq<T>, n: nat, p: seq<T>)
    requires |s| != 1 && n <= |s|
    ensures p in PermsUpTo(s, n) <==> exists i: nat :: i < n && p in Round(s, i)
    decreases n
  {
    if n > 0 {
      PermsUpToMember(s, n - 1, p);
      assert p in PermsUpTo(s, n) <==> p in PermsUpTo(s, n - 1) || p in Round(s, n - 1);
    }
  }

  /** A list is returned if and only if it is a permutation of a non-empty argument */
  lemma {:induction false} PermsExactly<T>(s: seq<T>, p: seq<T>)
    ensures p in Perms(s) <==> s != [] && multiset(p) == multiset(s)
    decreases |s|
  {
    if |s| == 1 {
      Singleton(s, p);
    } else if |s| > 1 {
      PermsUpToMember(s, |s|, p);
      if p in Perms(s) {
        var i: nat :| i < |s| && p in Round(s, i);
        RoundExactly(s, i, p);
      }
      if multiset(p) == multiset(s) {
        assert |p| == |multiset(p)| == |multiset(s)| == |s|;
        var x := p[|p| - 1];
        assert x in multiset(s);
        var i :| 0 <= i < |s| && s[i] == x;
        RoundExactly(s, i, p);
      }
    }
  }

  lemma RoundExactly<T>(s: seq<T>, i: nat, p: seq<T>)
    requires |s| > 1 && i < |s|
    ensures p in Round(s, i) <==> p != [] && p[|p| - 1] == s[i] && multiset(p) == multiset(s)
    decreases |s|, 0
  {
    RotationMultiset(s, i);
    var t := Rotated(s, i)[1..];
    AppendAllMember(Perms(t), s[i], p);
    if p != [] {
      PermsExactly(t, p[..|p| - 1]);
      assert p == p[..|p| - 1] + [p[|p| - 1]];
      if p[|p| - 1] == s[i] {
        assert multiset(p) == multiset(p[..|p| - 1]) + multiset{s[i]};
        assert s[i] in multiset(s);
      }
    }
  }

  lemma Singleton<T>(s: seq<T>, p: seq<T>)
    requires |s| == 1
    ensures p == s <==> multiset(p) == multiset(s)
  {
  }

  // ----- duplicates -----

  lemma {:induction false} DistinctPerms<T>(s: seq<T>)
    requires NoDup(s)
    ensures NoDup(Perms(s))
    decreases |s|, 1
  {
    if |s| != 1 {
      DistinctUpTo(s, |s|);
    }
  }

  lemma {:induction false} DistinctUpTo<T>(s: seq<T>, n: nat)
    requires NoDup(s) && |s| != 1 && n <= |s|
    ensures NoDup(PermsUpTo(s, n))
    decreases |s|, 0, n
  {
    if n > 0 {
      var before, round := PermsUpTo(s, n - 1), Round(s, n - 1);
      DistinctUpTo(s, n - 1);
      assert Rotated(s, n - 1)[1..] == s[n..] + s[..n - 1];
      DistinctPerms(Rotated(s, n - 1)[1..]);
      DistinctRound(s, n - 1);
      forall a, b | 0 <= a < |before| && 0 <= b < |round| ensures before[a] != round[b] {
        assert before[a] in before && round[b] in round;
        PermsUpToMember(s, n - 1, before[a]);
        var i: nat :| i < n - 1 && before[a] in Round(s, i);
        RoundExactly(s, i, before[a]);
        RoundExactly(s, n - 1, round[b]);
      }
    }
  }

  lemma DistinctRound<T>(s: seq<T>, i: nat)
    requires i < |s| && |s| != 1 && NoDup(Perms(Rotated(s, i)[1..]))
    ensures NoDup(Round(s, i))
  {
    var ps, round := Perms(Rotated(s, i)[1..]), Round(s, i);
    forall a, b | 0 <= a < b < |round| ensures round[a] != round[b] {
      assert round[a][..|ps[a]|] == ps[a] && round[b][..|ps[b]|] == ps[b];
    }
  }

  /** Every permutation appears exactly once if and only if the items are distinct */
  lemma DistinctExactly<T>(s: seq<T>)
    ensures NoDup(Perms(s)) <==> NoDup(s)
  {
    if NoDup(s) {
      DistinctPerms(s);
    } else {
      var i: nat, j: nat :| i < j < |s| && s[i] == s[j];
      RepeatedItem(s, i, j);
    }
  }

  lemma CommonPermutation<T>(s: seq<T>, i: nat, j: nat) returns (p: seq<T>)
    requires i < j < |s| && s[i] == s[j]
    ensures p in Round(s, i) && p in Round(s, j)
  {
    RotationMultiset(s, i);
    p := Rotated(s, i)[1..] + [s[i]];
    assert s[i] in multiset(s);
    assert multiset(p) == multiset(s);
    RoundExactly(s, i, p);
    RoundExactly(s, j, p);
  }

  lemma RepeatedItem<T>(s: seq<T>, i: nat, j: nat)
    requires i < j < |s| && s[i] == s[j]
    ensures !NoDup(Perms(s))
  {
    var p := CommonPermutation(s, i, j);
    PermsUpToMember(s, j, p);
    RepeatedRound(s, j, p);
  }

  lemma RepeatedRound<T>(s: seq<T>, j: nat, p: seq<T>)
    requires |s| > 1 && j < |s| && p in PermsUpTo(s, j) && p in Round(s, j)
    ensures !NoDup(Perms(s))
  {
    RoundsAreParts(s, j + 1, |s|);
    RepeatedElement(PermsUpTo(s, j), Round(s, j), Perms(s), p);
  }

  lemma RepeatedElement<T>(before: seq<T>, round: seq<T>, all: seq<T>, x: T)
    requires x in before && x in round && before + round <= all
    ensures !NoDup(all)
  {
    var a :| 0 <= a < |before| && before[a] == x;
    var b :| 0 <= b < |round| && round[b] == x;
    assert all[a] == (before + round)[a] && all[|before| + b] == (before + round)[|before| + b];
  }
}
