/** Histogram buckets around the scrape timeout (pkg/metrics/util.go), over slices that
    share and overwrite a backing array as Go's append does. */
module Buckets {

  /** A Go slice header: the first len elements of a backing array of capacity buf.Length */
  datatype Slice = Slice(buf: array<real>, len: nat) {
    ghost predicate Valid() { len <= buf.Length }

    ghost function Elements(): seq<real>
      requires Valid()
      reads buf
    {
      buf[..len]
    }
  }

  /** Go's append: in place when the capacity suffices, else into a new array of any
      sufficient capacity. Elements of the old array past len may be overwritten. */
  method Append(s: Slice, xs: seq<real>) returns (r: Slice)
    requires s.Valid()
    modifies s.buf
    ensures r.Valid() && r.Elements() == old(s.Elements()) + xs
    ensures if s.len + |xs| <= s.buf.Length then r.buf == s.buf else fresh(r.buf) && s.buf[..] == old(s.buf[..])
  {
    var total := s.len + |xs|;
    if total <= s.buf.Length {
      for k := 0 to |xs|
        invariant s.buf[..s.len + k] == old(s.buf[..s.len]) + xs[..k]
      {
        s.buf[s.len + k] := xs[k];
      }
      return Slice(s.buf, total);
    }
    var spare: nat :| spare >= 0;
    var grown := new real[total + spare];
    for k := 0 to s.len
      invariant grown[..k] == s.buf[..k] && s.buf[..] == old(s.buf[..])
    {
      grown[k] := s.buf[k];
    }
    for k := 0 to |xs|
      invariant grown[..s.len + k] == s.buf[..s.len] + xs[..k] && s.buf[..] == old(s.buf[..])
    {
      grown[s.len + k] := xs[k];
    }
    r := Slice(grown, total);
  }

  predicate Increasing(s: seq<real>) { forall i, j :: 0 <= i < j < |s| ==> s[i] < s[j] }

  /** Some element of s lies less than gap away from x */
  predicate Near(s: seq<real>, x: real, gap: real) { exists i :: 0 <= i < |s| && x - gap < s[i] < x + gap }

  /** What the buckets are for: increasing, nothing of the base lost, and the timeout or a
      bucket closer than the first base bucket among them */
  ghost predicate CoversTimeout(r: seq<real>, base: seq<real>, timeout: real)
    requires base != []
  {
    && Increasing(r)
    && (forall b :: b in base ==> b in r)
    && (timeout in r || Near(r, timeout, base[0]))
  }

  /** Behind the base stand the middle between its maximum and t, t, one and a half t, and twice t. */
  predicate FourAdded(r: seq<real>, base: seq<real>, t: real)
    requires base != []
  {
    && |r| == |base| + 4 && r[..|base|] == base
    && 2.0 * r[|base|] == base[|base| - 1] + t && r[|base| + 1] == t
    && 2.0 * r[|base| + 2] == 3.0 * t && r[|base| + 3] == t + t
  }

  /** t is added at i, between the smaller and the larger base buckets */
  predicate InsertedAt(r: seq<real>, base: seq<real>, t: real, i: nat) {
    && i < |base| && r == base[..i] + [t] + base[i..]
    && (forall k :: 0 <= k < i ==> base[k] < t) && (forall k :: i <= k < |base| ==> t < base[k])
  }

  /** Beyond the largest base bucket four buckets are added; otherwise the timeout is added
      exactly when no base bucket is near it, and nothing else is. */
  ghost predicate AddsOnly(r: seq<real>, base: seq<real>, timeout: real)
    requires base != []
  {
    if timeout > base[|base| - 1] then FourAdded(r, base, timeout)
    else if Near(base, timeout, base[0]) then r == base
    else exists i: nat :: InsertedAt(r, base, timeout, i)
  }

  /** The search loop; i and bucket keep the values of the last iteration if nothing is above */
  method FirstAbove(buckets: Slice, t: real) returns (i: nat, bucket: real)
    requires buckets.Valid() && buckets.len > 0
    ensures i < buckets.len && bucket == buckets.buf[i]
    ensures bucket > t || i == buckets.len - 1
    ensures forall k :: 0 <= k < i ==> buckets.buf[k] <= t
  {
    i, bucket := 0, buckets.buf[0];
    while bucket <= t && i < buckets.len - 1
      invariant i < buckets.len && bucket == buckets.buf[i]
      invariant forall k :: 0 <= k < i ==> buckets.buf[k] <= t
      decreases buckets.len - i
    {
      i := i + 1;
      bucket := buckets.buf[i];
    }
  }

  /** The two appends after the tail was saved: the first one overwrites the element at i */
  method Splice(buckets: Slice, i: nat, t: real) returns (r: Slice)
    requires buckets.Valid() && i < buckets.len
    modifies buckets.buf
    ensures r.Valid() && (r.buf == buckets.buf || fresh(r.buf))
    ensures r.Elements() == old(buckets.Elements()[..i]) + [t] + old(buckets.Elements()[i..])
  {
    var oldRest := buckets.buf[i..buckets.len];
    assert oldRest == buckets.Elements()[i..] && buckets.buf[..i] == buckets.Elements()[..i];
    r := Append(Slice(buckets.buf, i), [t]);
    r := Append(r, oldRest);
  }

  ghost predicate GoodBuckets(r: seq<real>, base: seq<real>, timeout: real)
    requires base != []
  {
    CoversTimeout(r, base, timeout) && AddsOnly(r, base, timeout)
  }

  /** For every increasing base list with a positive first element and every timeout */
  method BucketsForScrapeDuration(defBuckets: seq<real>, timeoutSeconds: real) returns (buckets: Slice)
    requires defBuckets != [] && Increasing(defBuckets) && defBuckets[0] > 0.0
    ensures buckets.Valid() && GoodBuckets(buckets.Elements(), defBuckets, timeoutSeconds)
  {
    var none := new real[0];
    buckets := Append(Slice(none, 0), defBuckets);
    assert buckets.Elements() == defBuckets;
    var maxBucket := buckets.buf[buckets.len - 1];
    assert maxBucket == buckets.Elements()[|defBuckets| - 1];
    if timeoutSeconds > maxBucket {
      buckets := BucketsBeyond(defBuckets, buckets, timeoutSeconds);
    } else if timeoutSeconds < maxBucket {
      buckets := BucketsBelow(defBuckets, buckets, timeoutSeconds);
    } else {
      MaxIsGood(defBuckets);
    }
  }

  /** The branch for a timeout above the largest default bucket */
  method BucketsBeyond(base: seq<real>, buckets: Slice, timeoutSeconds: real) returns (r: Slice)
    requires base != [] && Increasing(base) && base[0] > 0.0 && timeoutSeconds > base[|base| - 1]
    requires buckets.Valid() && buckets.Elements() == base
    modifies buckets.buf
    ensures r.Valid() && GoodBuckets(r.Elements(), base, timeoutSeconds)
  {
    var maxBucket := buckets.buf[buckets.len - 1];
    assert maxBucket == buckets.Elements()[|base| - 1];
    var halfwayToScrapeTimeout := maxBucket + (timeoutSeconds - maxBucket) / 2.0;
    r := Append(buckets, [halfwayToScrapeTimeout, timeoutSeconds, timeoutSeconds * 1.5, timeoutSeconds * 2.0]);
    BeyondIsGood(r.Elements(), base, timeoutSeconds);
  }

  /** The branch for a timeout below the largest default bucket */
  method BucketsBelow(base: seq<real>, buckets: Slice, timeoutSeconds: real) returns (r: Slice)
    requires base != [] && Increasing(base) && base[0] > 0.0 && timeoutSeconds < base[|base| - 1]
    requires buckets.Valid() && buckets.Elements() == base
    modifies buckets.buf
    ensures r.Valid() && GoodBuckets(r.Elements(), base, timeoutSeconds)
  {
    assert forall k :: 0 <= k < |base| ==> buckets.buf[k] == buckets.Elements()[k];
    var i, bucket := FirstAbove(buckets, timeoutSeconds);
    if bucket - timeoutSeconds < buckets.buf[0] || (i > 0 && timeoutSeconds - buckets.buf[i - 1] < buckets.buf[0]) {
      NearNeighbour(base, timeoutSeconds, i);
      BaseIsGood(base, timeoutSeconds);
      return buckets;
    }
    InsertedIsGood(base, timeoutSeconds, i);
    r := Splice(buckets, i, timeoutSeconds);
  }

  lemma BeyondIsGood(r: seq<real>, base: seq<real>, t: real)
    requires base != [] && Increasing(base) && base[0] > 0.0 && t > base[|base| - 1]
    requires FourAdded(r, base, t)
    ensures GoodBuckets(r, base, t)
  {
    var n := |base|;
    assert base[0] <= base[n - 1];
    assert forall k :: 0 <= k < n ==> r[k] == base[k] && base[k] <= base[n - 1];
    assert base[n - 1] < r[n] < r[n + 1] < r[n + 2] < r[n + 3];
    assert t == r[n + 1];
  }

  lemma BaseIsGood(base: seq<real>, t: real)
    requires base != [] && Increasing(base) && t <= base[|base| - 1] && Near(base, t, base[0])
    ensures GoodBuckets(base, base, t)
  {
  }

  lemma MaxIsGood(base: seq<real>)
    requires base != [] && Increasing(base) && base[0] > 0.0
    ensures GoodBuckets(base, base, base[|base| - 1])
  {
  }

  lemma NearNeighbour(base: seq<real>, t: real, i: nat)
    requires base != [] && i < |base| && t < base[i] && (i > 0 ==> base[i - 1] <= t)
    requires base[i] - t < base[0] || (i > 0 && t - base[i - 1] < base[0])
    ensures Near(base, t, base[0])
  {
  }

  lemma InsertedIsGood(base: seq<real>, t: real, i: nat)
    requires base != [] && Increasing(base) && base[0] > 0.0 && i < |base|
    requires t < base[i] && forall k :: 0 <= k < i ==> base[k] <= t
    requires base[i] - t >= base[0] && (i > 0 ==> t - base[i - 1] >= base[0])
    ensures GoodBuckets(base[..i] + [t] + base[i..], base, t)
  {
    InsertedCovers(base, t, i);
    NothingNear(base, t, i);
    assert base[i] <= base[|base| - 1];
    assert InsertedAt(base[..i] + [t] + base[i..], base, t, i);
  }

  lemma InsertedCovers(base: seq<real>, t: real, i: nat)
    requires base != [] && Increasing(base) && i < |base|
    requires t < base[i] && forall k :: 0 <= k < i ==> base[k] < t
    ensures CoversTimeout(base[..i] + [t] + base[i..], base, t)
  {
  }

  lemma NothingNear(base: seq<real>, t: real, i: nat)
    requires base != [] && Increasing(base) && i < |base|
    requires base[i] - t >= base[0] && (i > 0 ==> t - base[i - 1] >= base[0])
    ensures !Near(base, t, base[0])
  {
  }
}
