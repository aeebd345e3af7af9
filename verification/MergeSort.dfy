/** Merge sort on a range of an array (Python/reverse_string.py). */
module MergeSort {
  import opened StableSort

  /** all with its part from l up to end replaced */
  function Spliced<T>(all: seq<T>, l: nat, end: nat, part: seq<T>): seq<T>
    requires l <= end <= |all|
  {
    all[..l] + part + all[end..]
  }

  function Merged<T>(leq: (T, T) -> bool, left: seq<T>, right: seq<T>): seq<T>
    decreases |left| + |right|
  {
    if left == [] then right
    else if right == [] then left
    else if leq(left[0], right[0]) then [left[0]] + Merged(leq, left[1..], right)
    else [right[0]] + Merged(leq, left, right[1..])
  }

  lemma {:induction false} MergedClass<T(!new)>(leq: (T, T) -> bool, left: seq<T>, right: seq<T>, x: T)
    requires TotalPreorder(leq) && Sorted(leq, left)
    ensures Class(leq, x, Merged(leq, left, right)) == Class(leq, x, left) + Class(leq, x, right)
    decreases |left| + |right|
  {
    if left == [] || right == [] {
    } else if leq(left[0], right[0]) {
      MergedClass(leq, left[1..], right, x);
    } else {
      MergedClass(leq, left, right[1..], x);
      ClassEmpty(leq, x, left);
    }
  }

  lemma {:induction false} MergedMembers<T>(leq: (T, T) -> bool, left: seq<T>, right: seq<T>)
    ensures |Merged(leq, left, right)| == |left| + |right|
    ensures forall y :: y in Merged(leq, left, right) ==> y in left || y in right
    decreases |left| + |right|
  {
    if left == [] || right == [] {
    } else if leq(left[0], right[0]) {
      MergedMembers(leq, left[1..], right);
    } else {
      MergedMembers(leq, left, right[1..]);
    }
  }

  lemma {:induction false} MergedSorted<T(!new)>(leq: (T, T) -> bool, left: seq<T>, right: seq<T>)
    requires TotalPreorder(leq) && Sorted(leq, left) && Sorted(leq, right)
    ensures Sorted(leq, Merged(leq, left, right))
    decreases |left| + |right|
  {
    if left == [] || right == [] {
    } else if leq(left[0], right[0]) {
      MergedSorted(leq, left[1..], right);
      MergedMembers(leq, left[1..], right);
      ConsSorted(leq, left[0], left, right, Merged(leq, left[1..], right));
    } else {
      MergedSorted(leq, left, right[1..]);
      MergedMembers(leq, left, right[1..]);
      ConsSorted(leq, right[0], left, right, Merged(leq, left, right[1..]));
    }
  }

  lemma ConsSorted<T(!new)>(leq: (T, T) -> bool, x: T, left: seq<T>, right: seq<T>, rest: seq<T>)
    requires TotalPreorder(leq) && Sorted(leq, left) && Sorted(leq, right) && Sorted(leq, rest)
    requires left != [] && right != [] && leq(x, left[0]) && leq(x, right[0])
    requires forall y :: y in rest ==> y in left || y in right
    ensures Sorted(leq, [x] + rest)
  {
    assert leq(left[0], left[0]) && leq(right[0], right[0]);
    forall k | 0 <= k < |rest| ensures leq(x, rest[k]) {
      assert rest[k] in rest;
    }
  }

  /** Merging the sorts of two halves sorts the whole */
  lemma MergeOfSorts<T(!new)>(leq: (T, T) -> bool, s: seq<T>, t: seq<T>)
    requires TotalPreorder(leq)
    ensures Merged(leq, Sort(leq, s), Sort(leq, t)) == Sort(leq, s + t)
  {
    SortIsStable(leq, s);
    SortIsStable(leq, t);
    var r := Merged(leq, Sort(leq, s), Sort(leq, t));
    MergedSorted(leq, Sort(leq, s), Sort(leq, t));
    forall x ensures Class(leq, x, r) == Class(leq, x, s + t) {
      MergedClass(leq, Sort(leq, s), Sort(leq, t), x);
      ClassConcat(leq, x, s, t);
    }
    StableSortExactly(leq, s + t, r);
  }

  /** Merges arr[l..m] and arr[m+1..r], both ends included, in place */
  method Merge<T(0)>(leq: (T, T) -> bool, arr: array<T>, l: nat, m: int, r: int)
    requires l <= m + 1 <= r + 1 <= arr.Length
    modifies arr
    ensures RangeMerged(leq, old(arr[..]), arr[..], l, m + 1, r + 1)
  {
    var n1, n2 := m - l + 1, r - m;
    var L := CopyRange(arr, l, n1);
    var R := CopyRange(arr, m + 1, n2);
    MergedMembers(leq, L[..], R[..]);
    MergeBack(leq, arr, l, r, L, R);
  }

  /** The loop that fills a temporary array with n elements from l on */
  method CopyRange<T(0)>(arr: array<T>, l: nat, n: nat) returns (copy: array<T>)
    requires l + n <= arr.Length
    ensures fresh(copy) && copy.Length == n && copy[..] == arr[..][l..l + n]
  {
    copy := new T[n];
    for i := 0 to n
      invariant forall k :: 0 <= k < i ==> copy[k] == arr[l + k]
    {
      copy[i] := arr[l + i];
    }
  }

  /** done is what has been written when i items of left and j items of right are used up */
  ghost predicate Progress<T>(leq: (T, T) -> bool, left: seq<T>, right: seq<T>, i: nat, j: nat, done: seq<T>) {
    && i <= |left| && j <= |right| && |done| == i + j
    && done + Merged(leq, left[i..], right[j..]) == Merged(leq, left, right)
  }

  lemma TakeLeft<T>(leq: (T, T) -> bool, left: seq<T>, right: seq<T>, i: nat, j: nat, done: seq<T>)
    requires Progress(leq, left, right, i, j, done) && i < |left| && j < |right| && leq(left[i], right[j])
    ensures Progress(leq, left, right, i + 1, j, done + [left[i]])
  {
  }

  lemma TakeRight<T>(leq: (T, T) -> bool, left: seq<T>, right: seq<T>, i: nat, j: nat, done: seq<T>)
    requires Progress(leq, left, right, i, j, done) && i < |left| && j < |right| && !leq(left[i], right[j])
    ensures Progress(leq, left, right, i, j + 1, done + [right[j]])
  {
  }

  lemma TakeRest<T>(leq: (T, T) -> bool, left: seq<T>, right: seq<T>, i: nat, j: nat, done: seq<T>)
    requires Progress(leq, left, right, i, j, done) && (i == |left| || j == |right|)
    ensures done + left[i..] + right[j..] == Merged(leq, left, right)
  {
    if i == |left| {
      assert left[i..] == [] && done + [] == done;
    } else {
      assert right[j..] == [] && Merged(leq, left[i..], []) == left[i..];
      assert done + left[i..] + [] == done + left[i..];
    }
  }

  /** arr holds all with done written over it from l on */
  ghost predicate Written<T>(arr: array<T>, all: seq<T>, l: nat, done: seq<T>)
    reads arr
  {
    && l + |done| <= |all| == arr.Length
    && arr[..] == Spliced(all, l, l + |done|, done)
  }

  method Write<T>(arr: array<T>, ghost all: seq<T>, l: nat, ghost done: seq<T>, k: nat, x: T)
    requires Written(arr, all, l, done) && k == l + |done| < arr.Length
    modifies arr
    ensures Written(arr, all, l, done + [x])
  {
    arr[k] := x;
  }

  /** The loop that copies the remaining elements of one copy */
  method CopyRest<T>(arr: array<T>, ghost all: seq<T>, l: nat, ghost done: seq<T>, src: array<T>, i: nat, k: nat,
                     ghost rest: seq<T>)
    returns (k': nat)
    requires src != arr && i <= src.Length && Written(arr, all, l, done) && rest == src[..][i..]
    requires k == l + |done| && k + src.Length - i <= arr.Length
    modifies arr
    ensures Written(arr, all, l, done + rest) && k' == k + src.Length - i
  {
    k' := k;
    var m := i;
    while m < src.Length
      invariant i <= m <= src.Length && k' == k + m - i
      invariant Written(arr, all, l, done + src[i..m])
    {
      Write(arr, all, l, done + src[i..m], k', src[m]);
      assert done + src[i..m] + [src[m]] == done + src[i..m + 1];
      m := m + 1;
      k' := k' + 1;
    }
    assert src[i..src.Length] == rest;
  }

  /** The loop that runs while both copies have elements left */
  method MergeWhileBoth<T>(leq: (T, T) -> bool, arr: array<T>, l: nat, L: array<T>, R: array<T>)
    returns (i: nat, j: nat, ghost done: seq<T>)
    requires L != arr && R != arr && l + L.Length + R.Length <= arr.Length
    modifies arr
    ensures Progress(leq, L[..], R[..], i, j, done) && (i == L.Length || j == R.Length)
    ensures Written(arr, old(arr[..]), l, done)
  {
    ghost var left, right, all := L[..], R[..], arr[..];
    var k := l;
    i, j, done := 0, 0, [];
    while i < L.Length && j < R.Length
      invariant L[..] == left && R[..] == right && k == l + i + j
      invariant Progress(leq, left, right, i, j, done) && Written(arr, all, l, done)
    {
      if leq(L[i], R[j]) {
        TakeLeft(leq, left, right, i, j, done);
        Write(arr, all, l, done, k, L[i]);
        done := done + [left[i]];
        i := i + 1;
      } else {
        TakeRight(leq, left, right, i, j, done);
        Write(arr, all, l, done, k, R[j]);
        done := done + [right[j]];
        j := j + 1;
      }
      k := k + 1;
    }
  }

  /** The three loops that write the two copies back in order */
  method MergeBack<T>(leq: (T, T) -> bool, arr: array<T>, l: nat, r: int, L: array<T>, R: array<T>)
    requires L != arr && R != arr && l + L.Length + R.Length == r + 1 <= arr.Length
    modifies arr
    ensures Written(arr, old(arr[..]), l, Merged(leq, L[..], R[..]))
  {
    ghost var left, right, all := L[..], R[..], arr[..];
    var i, j, done := MergeWhileBoth(leq, arr, l, L, R);
    TakeRest(leq, left, right, i, j, done);
    var k := CopyRest(arr, all, l, done, L, i, l + i + j, left[i..]);
    k := CopyRest(arr, all, l, done + left[i..], R, j, k, right[j..]);
  }

  lemma MergeOfParts<T(!new)>(leq: (T, T) -> bool, all: seq<T>, l: nat, mid: nat, end: nat)
    requires TotalPreorder(leq) && l <= mid <= end <= |all|
    ensures Merged(leq, Sort(leq, all[l..mid]), Sort(leq, all[mid..end])) == Sort(leq, all[l..end])
  {
    MergeOfSorts(leq, all[l..mid], all[mid..end]);
    assert all[l..mid] + all[mid..end] == all[l..end];
  }

  /** Sorting the left part leaves the right part as it was */
  lemma LeftSpliced<T>(all: seq<T>, left: seq<T>, l: nat, mid: nat, end: nat)
    requires l <= mid <= end <= |all| && |left| == mid - l
    ensures var half := Spliced(all, l, mid, left);
            |half| == |all| && half[mid..end] == all[mid..end]
  {
  }

  /** After both parts are sorted they stand beside each other, and replacing them replaces
      the whole range */
  lemma BothSpliced<T>(all: seq<T>, left: seq<T>, right: seq<T>, l: nat, mid: nat, end: nat, part: seq<T>)
    requires l <= mid <= end <= |all| && |left| == mid - l && |right| == end - mid
    ensures var half := Spliced(all, l, mid, left);
            |half| == |all| &&
            var both := Spliced(half, mid, end, right);
            |both| == |all| && both[l..mid] == left && both[mid..end] == right
            && Spliced(both, l, end, part) == Spliced(all, l, end, part)
  {
  }

  /** after is before with the range from l up to end stably sorted, and nothing else changed */
  ghost predicate RangeSorted<T>(leq: (T, T) -> bool, before: seq<T>, after: seq<T>, l: nat, end: nat) {
    l <= end <= |before| && after == Spliced(before, l, end, Sort(leq, before[l..end]))
  }

  ghost predicate RangeMerged<T>(leq: (T, T) -> bool, before: seq<T>, after: seq<T>, l: nat, mid: nat, end: nat) {
    l <= mid <= end <= |before| && after == Spliced(before, l, end, Merged(leq, before[l..mid], before[mid..end]))
  }

  /** Both halves of the range have been sorted, one after the other */
  ghost predicate HalvesSorted<T(!new)>(leq: (T, T) -> bool, all: seq<T>, both: seq<T>, l: nat, mid: nat, top: nat) {
    exists half :: RangeSorted(leq, all, half, l, mid) && RangeSorted(leq, half, both, mid, top)
  }

  lemma HalvesAre<T(!new)>(leq: (T, T) -> bool, all: seq<T>, both: seq<T>, l: nat, mid: nat, top: nat)
    requires l <= mid <= top <= |all| && HalvesSorted(leq, all, both, l, mid, top)
    ensures both == Spliced(Spliced(all, l, mid, Sort(leq, all[l..mid])), mid, top, Sort(leq, all[mid..top]))
  {
    LeftSpliced(all, Sort(leq, all[l..mid]), l, mid, top);
  }

  /** Two sorted parts, merged, are the sorted range */
  lemma SortedWhole<T(!new)>(leq: (T, T) -> bool, all: seq<T>, both: seq<T>, end: seq<T>,
                             l: nat, mid: nat, top: nat)
    requires TotalPreorder(leq) && l <= mid <= top <= |all|
    requires HalvesSorted(leq, all, both, l, mid, top) && RangeMerged(leq, both, end, l, mid, top)
    ensures RangeSorted(leq, all, end, l, top)
  {
    HalvesAre(leq, all, both, l, mid, top);
    MergedWhole(leq, all, both, end, Sort(leq, all[l..mid]), Sort(leq, all[mid..top]), l, mid, top);
    MergeOfParts(leq, all, l, mid, top);
  }

  lemma MergedWhole<T>(leq: (T, T) -> bool, all: seq<T>, both: seq<T>, end: seq<T>, left: seq<T>, right: seq<T>,
                       l: nat, mid: nat, top: nat)
    requires l <= mid <= top <= |all| && |left| == mid - l && |right| == top - mid
    requires both == Spliced(Spliced(all, l, mid, left), mid, top, right)
    requires RangeMerged(leq, both, end, l, mid, top)
    ensures end == Spliced(all, l, top, Merged(leq, left, right))
  {
    BothSpliced(all, left, right, l, mid, top, Merged(leq, left, right));
  }

  lemma ShortRange<T>(leq: (T, T) -> bool, all: seq<T>, l: nat, end: nat)
    requires l <= end <= |all| && end - l <= 1
    ensures RangeSorted(leq, all, all, l, end)
  {
    ShortSort(leq, all[l..end]);
    assert all == all[..l] + all[l..end] + all[end..];
  }

  lemma ShortSort<T>(leq: (T, T) -> bool, s: seq<T>)
    requires |s| <= 1
    ensures Sort(leq, s) == s
  {
    if s != [] {
      assert s == [s[0]] && s[..|s| - 1] == [];
      assert Sort(leq, s) == Insert(leq, [], s[0]) == [s[0]];
    }
  }

  /** The two recursive calls */
  method SortHalves<T(0, !new)>(leq: (T, T) -> bool, arr: array<T>, l: nat, m: int, r: int)
    requires TotalPreorder(leq) && l <= m < r < arr.Length
    modifies arr
    ensures HalvesSorted(leq, old(arr[..]), arr[..], l, m + 1, r + 1)
    decreases r - l, 0
  {
    MergeSort(leq, arr, l, m);
    MergeSort(leq, arr, m + 1, r);
  }

  /** The merge after them */
  method MergeHalves<T(0, !new)>(leq: (T, T) -> bool, arr: array<T>, ghost all: seq<T>, l: nat, m: int, r: int)
    requires TotalPreorder(leq) && l <= m < r < arr.Length == |all|
    requires HalvesSorted(leq, all, arr[..], l, m + 1, r + 1)
    modifies arr
    ensures RangeSorted(leq, all, arr[..], l, r + 1)
  {
    ghost var both := arr[..];
    Merge(leq, arr, l, m, r);
    SortedWhole(leq, all, both, arr[..], l, m + 1, r + 1);
  }

  /** Sorts arr[l..r], both ends included, stably, and leaves the rest of the array alone.
      With fewer than two elements to sort, l and r may be any numbers. */
  method MergeSort<T(0, !new)>(leq: (T, T) -> bool, arr: array<T>, l: int, r: int)
    requires TotalPreorder(leq) && (l < r ==> 0 <= l && r < arr.Length)
    modifies arr
    ensures 0 <= l <= r + 1 <= arr.Length ==> RangeSorted(leq, old(arr[..]), arr[..], l, r + 1)
    ensures l >= r ==> arr[..] == old(arr[..])
    decreases r - l, 1
  {
    ghost var all := arr[..];
    if l < r {
      var m := l + (r - l) / 2;
      SortHalves(leq, arr, l, m, r);
      MergeHalves(leq, arr, all, l, m, r);
    } else if 0 <= l <= r + 1 <= arr.Length {
      ShortRange(leq, all, l, r + 1);
    }
  }

  /** Sorting a range touches nothing outside it and leaves a stable sort of its items in it */
  lemma RangeMeaning<T(!new)>(leq: (T, T) -> bool, before: seq<T>, after: seq<T>, l: nat, end: nat)
    requires TotalPreorder(leq) && RangeSorted(leq, before, after, l, end)
    ensures |after| == |before| && StableSortOf(leq, before[l..end], after[l..end])
    ensures forall k :: 0 <= k < l || end <= k < |before| ==> after[k] == before[k]
  {
    var part := Sort(leq, before[l..end]);
    StableSortExactly(leq, before[l..end], part);
    assert after[l..end] == part;
  }

  /** On a whole array the two sorting programs leave the same sequence: mergeSort's result is
      the stable sort that insertionSort computes as well. */
  lemma WholeArray<T(!new)>(leq: (T, T) -> bool, before: seq<T>, after: seq<T>)
    requires TotalPreorder(leq) && RangeSorted(leq, before, after, 0, |before|)
    ensures after == Sort(leq, before)
    ensures StableSortOf(leq, before, after) && multiset(after) == multiset(before)
  {
    WholeSpliced(before, Sort(leq, before));
    StableSortExactly(leq, before, after);
    StableSortPermutes(leq, before, after);
  }

  lemma WholeSpliced<T>(s: seq<T>, part: seq<T>)
    ensures s[0..|s|] == s && Spliced(s, 0, |s|, part) == part
  {
  }
}
