/** Insertion sort on an array, with its cost (Python/insertion.py). */
module InsertionSort {
  import opened StableSort

  /** The pairs of positions that stand in the wrong order */
  ghost function Inversions<T>(leq: (T, T) -> bool, s: seq<T>): set<(int, int)> {
    set i, j | 0 <= i < j < |s| && Less(leq, s[j], s[i]) :: (i, j)
  }

  /** How many items of s are greater than x */
  function Greater<T>(leq: (T, T) -> bool, s: seq<T>, x: T): nat {
    if s == [] then 0
    else Greater(leq, s[..|s| - 1], x) + if Less(leq, x, s[|s| - 1]) then 1 else 0
  }

  lemma {:induction false} GreaterConcat<T>(leq: (T, T) -> bool, s: seq<T>, t: seq<T>, x: T)
    ensures Greater(leq, s + t, x) == Greater(leq, s, x) + Greater(leq, t, x)
    decreases |t|
  {
    if t == [] {
      assert s + t == s;
    } else {
      GreaterConcat(leq, s, t[..|t| - 1], x);
      assert (s + t)[..|s + t| - 1] == s + t[..|t| - 1];
    }
  }

  lemma {:induction false} GreaterAll<T>(leq: (T, T) -> bool, s: seq<T>, x: T)
    ensures (forall i :: 0 <= i < |s| ==> Less(leq, x, s[i])) ==> Greater(leq, s, x) == |s|
    ensures (forall i :: 0 <= i < |s| ==> !Less(leq, x, s[i])) ==> Greater(leq, s, x) == 0
  {
    if s != [] {
      GreaterAll(leq, s[..|s| - 1], x);
    }
  }

  lemma {:induction false} GreaterInInsert<T>(leq: (T, T) -> bool, s: seq<T>, y: T, x: T)
    ensures Greater(leq, Insert(leq, s, y), x) == Greater(leq, s, x) + if Less(leq, x, y) then 1 else 0
  {
    if s == [] || !Less(leq, y, s[|s| - 1]) {
      assert (s + [y])[..|s|] == s;
    } else {
      var t, last := s[..|s| - 1], s[|s| - 1];
      GreaterInInsert(leq, t, y, x);
      assert (Insert(leq, t, y) + [last])[..|s|] == Insert(leq, t, y);
    }
  }

  /** Sorting does not change how many items are greater */
  lemma {:induction false} GreaterInSort<T>(leq: (T, T) -> bool, s: seq<T>, x: T)
    ensures Greater(leq, Sort(leq, s), x) == Greater(leq, s, x)
  {
    if s != [] {
      GreaterInSort(leq, s[..|s| - 1], x);
      GreaterInInsert(leq, Sort(leq, s[..|s| - 1]), s[|s| - 1], x);
    }
  }

  ghost function PairsEndingAt<T>(leq: (T, T) -> bool, s: seq<T>, x: T, n: int): set<(int, int)> {
    set i | 0 <= i < |s| && Less(leq, x, s[i]) :: (i, n)
  }

  lemma {:induction false} PairsCount<T>(leq: (T, T) -> bool, s: seq<T>, x: T, n: int)
    ensures |PairsEndingAt(leq, s, x, n)| == Greater(leq, s, x)
  {
    if s != [] {
      var k := |s| - 1;
      var t := s[..k];
      PairsCount(leq, t, x, n);
      var more := if Less(leq, x, s[k]) then {(k, n)} else {};
      assert PairsEndingAt(leq, s, x, n) == PairsEndingAt(leq, t, x, n) + more;
      assert (k, n) !in PairsEndingAt(leq, t, x, n);
    }
  }

  /** Every item adds one inversion for each greater item before it */
  lemma InversionsSnoc<T>(leq: (T, T) -> bool, s: seq<T>, x: T)
    ensures |Inversions(leq, s + [x])| == |Inversions(leq, s)| + Greater(leq, s, x)
  {
    PairsCount(leq, s, x, |s|);
    InversionsSplit(leq, s, x);
  }

  lemma InversionsSplit<T>(leq: (T, T) -> bool, s: seq<T>, x: T)
    ensures Inversions(leq, s + [x]) == Inversions(leq, s) + PairsEndingAt(leq, s, x, |s|)
    ensures Inversions(leq, s) !! PairsEndingAt(leq, s, x, |s|)
  {
    var all, a, b := Inversions(leq, s + [x]), Inversions(leq, s), PairsEndingAt(leq, s, x, |s|);
    forall i, j ensures (i, j) in all <==> (i, j) in a || (i, j) in b {
      if 0 <= i < j < |s| {
        assert (s + [x])[i] == s[i] && (s + [x])[j] == s[j];
      }
    }
  }

  /** Sorts stably in place; the inner loop shifts one item for each inversion of the input */
  method InsertionSort<T(!new)>(leq: (T, T) -> bool, arr: array<T>) returns (ghost shifts: nat)
    requires TotalPreorder(leq)
    modifies arr
    ensures arr[..] == Sort(leq, old(arr[..]))
    ensures shifts == |Inversions(leq, old(arr[..]))|
  {
    ghost var all := arr[..];
    shifts := 0;
    if arr.Length == 0 {
      assert Inversions(leq, all) == {};
      return;
    }
    FirstSorted(leq, all);
    for i := 1 to arr.Length
      invariant SortedUpTo(leq, arr[..], all, i)
      invariant shifts == |Inversions(leq, all[..i])|
    {
      ghost var moved := InsertItem(leq, arr, all, i);
      shifts := shifts + moved;
      assert all[..i + 1] == all[..i] + [all[i]];
      InversionsSnoc(leq, all[..i], all[i]);
    }
    assert all[..arr.Length] == all;
  }

  lemma FirstSorted<T>(leq: (T, T) -> bool, s: seq<T>)
    requires s != []
    ensures Sort(leq, s[..1]) == s[..1] && Inversions(leq, s[..1]) == {}
  {
  }

  /** The first i items of all are sorted, the others untouched */
  ghost predicate SortedUpTo<T>(leq: (T, T) -> bool, cur: seq<T>, all: seq<T>, i: nat) {
    i <= |all| && cur == Sort(leq, all[..i]) + all[i..]
  }

  lemma GapAtEnd<T>(leq: (T, T) -> bool, cur: seq<T>, all: seq<T>, i: nat)
    requires i < |all| && SortedUpTo(leq, cur, all, i)
    ensures GapAt(cur, Sort(leq, all[..i]), all, i) && cur[i] == all[i]
  {
  }

  /** cur holds the sorted prefix s with a gap at p, and the untouched rest of all */
  ghost predicate GapAt<T>(cur: seq<T>, s: seq<T>, all: seq<T>, p: nat) {
    && p <= |s| < |all| == |cur|
    && cur[..p] == s[..p]
    && cur[p + 1..|s| + 1] == s[p..]
    && cur[|s| + 1..] == all[|s| + 1..]
  }

  lemma ShiftOne<T>(cur: seq<T>, s: seq<T>, all: seq<T>, p: nat)
    requires GapAt(cur, s, all, p) && p > 0
    ensures cur[p - 1] == s[p - 1]
    ensures GapAt(cur[p := cur[p - 1]], s, all, p - 1)
  {
  }

  lemma FillGap<T>(cur: seq<T>, s: seq<T>, all: seq<T>, p: nat, x: T)
    requires GapAt(cur, s, all, p)
    ensures cur[p := x] == (s[..p] + [x] + s[p..]) + all[|s| + 1..]
  {
  }

  ghost predicate TailGreater<T>(leq: (T, T) -> bool, s: seq<T>, x: T, p: nat) {
    forall m :: p <= m < |s| ==> Less(leq, x, s[m])
  }

  /** One round of the outer loop: shift the greater items up, then drop the key */
  method InsertItem<T(!new)>(leq: (T, T) -> bool, arr: array<T>, ghost all: seq<T>, i: nat) returns (ghost shifts: nat)
    requires TotalPreorder(leq) && 1 <= i < arr.Length == |all|
    requires SortedUpTo(leq, arr[..], all, i)
    modifies arr
    ensures SortedUpTo(leq, arr[..], all, i + 1)
    ensures shifts == Greater(leq, all[..i], all[i])
  {
    ghost var s := Sort(leq, all[..i]);
    var key := arr[i];
    var j: int := i - 1;
    shifts := 0;
    GapAtEnd(leq, arr[..], all, i);
    while j >= 0 && Less(leq, key, arr[j])
      invariant -1 <= j < i && shifts == i - 1 - j
      invariant GapAt(arr[..], s, all, j + 1)
      invariant TailGreater(leq, s, key, j + 1)
    {
      ShiftOne(arr[..], s, all, j + 1);
      arr[j + 1] := arr[j];
      j := j - 1;
      shifts := shifts + 1;
    }
    KeyPlaced(leq, arr[..], all, i, j + 1);
    arr[j + 1] := key;
  }

  /** Filling the gap below the greater items sorts one more item */
  lemma KeyPlaced<T(!new)>(leq: (T, T) -> bool, cur: seq<T>, all: seq<T>, i: nat, p: nat)
    requires TotalPreorder(leq) && i < |all| && GapAt(cur, Sort(leq, all[..i]), all, p)
    requires TailGreater(leq, Sort(leq, all[..i]), all[i], p)
    requires p > 0 ==> !Less(leq, all[i], cur[p - 1])
    ensures SortedUpTo(leq, cur[p := all[i]], all, i + 1)
    ensures i - p == Greater(leq, all[..i], all[i])
  {
    var s, key := Sort(leq, all[..i]), all[i];
    if p > 0 {
      ShiftOne(cur, s, all, p);
    }
    InsertSplits(leq, s, key, p);
    SortStep(leq, all, i);
    FillGap(cur, s, all, p, key);
    SortIsStable(leq, all[..i]);
    ShiftCount(leq, s, key, p);
    GreaterInSort(leq, all[..i], key);
  }

  lemma SortStep<T>(leq: (T, T) -> bool, all: seq<T>, i: nat)
    requires i < |all|
    ensures Sort(leq, all[..i + 1]) == Insert(leq, Sort(leq, all[..i]), all[i])
  {
    assert all[..i + 1][..i] == all[..i];
  }

  lemma ShiftCount<T(!new)>(leq: (T, T) -> bool, s: seq<T>, x: T, k: nat)
    requires TotalPreorder(leq) && Sorted(leq, s) && k <= |s|
    requires forall m :: k <= m < |s| ==> Less(leq, x, s[m])
    requires k > 0 ==> !Less(leq, x, s[k - 1])
    ensures Greater(leq, s, x) == |s| - k
  {
    forall m | 0 <= m < k ensures !Less(leq, x, s[m]) {
      if m < k - 1 {
        assert leq(s[m], s[k - 1]);
      }
    }
    CountAround(leq, s[..k], s[k..], x);
    assert s == s[..k] + s[k..];
  }

  lemma CountAround<T>(leq: (T, T) -> bool, s: seq<T>, t: seq<T>, x: T)
    requires forall m :: 0 <= m < |s| ==> !Less(leq, x, s[m])
    requires forall m :: 0 <= m < |t| ==> Less(leq, x, t[m])
    ensures Greater(leq, s + t, x) == |t|
  {
    GreaterConcat(leq, s, t, x);
    GreaterAll(leq, s, x);
    GreaterAll(leq, t, x);
  }
}
