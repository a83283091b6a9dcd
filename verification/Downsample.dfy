/** Thinning out a time series while keeping its extremes. Samples are named by their index in the input. */
module Downsample {
  import opened Bytes

  /** A sample with its time, and its value if that is a finite number. */
  datatype Sample = Sample(timeUs: real, value: Option<real>)

  ghost predicate Sorted(s: seq<Sample>) {
    forall i, j :: 0 <= i <= j < |s| ==> s[i].timeUs <= s[j].timeUs
  }

  predicate Finite(s: seq<Sample>, i: int) { 0 <= i < |s| && s[i].value.Some? }

  function Value(s: seq<Sample>, i: int): real
    requires Finite(s, i)
  {
    s[i].value.value
  }

  /** The indices are in range and their times do not decrease. */
  ghost predicate InTimeOrder(s: seq<Sample>, r: seq<nat>) {
    (forall k :: 0 <= k < |r| ==> r[k] < |s|) && forall k, l :: 0 <= k <= l < |r| ==> s[r[k]].timeUs <= s[r[l]].timeUs
  }

  /** The sample is finite and neither the first nor the last. */
  predicate Inner(s: seq<Sample>, i: int) { 1 <= i < |s| - 1 && Finite(s, i) }

  /** Among the chosen inner samples there are one no greater and one no smaller than every finite value from lo up to hi. */
  ghost predicate Spans(s: seq<Sample>, r: seq<nat>, lo: int, hi: int) {
    forall i :: lo <= i < hi && Finite(s, i) ==> HasBelow(s, r, i) && HasAbove(s, r, i)
  }

  ghost predicate HasBelow(s: seq<Sample>, r: seq<nat>, i: int)
    requires Finite(s, i)
  {
    exists k :: 0 <= k < |r| && Inner(s, r[k]) && Value(s, r[k]) <= Value(s, i)
  }

  ghost predicate HasAbove(s: seq<Sample>, r: seq<nat>, i: int)
    requires Finite(s, i)
  {
    exists k :: 0 <= k < |r| && Inner(s, r[k]) && Value(s, r[k]) >= Value(s, i)
  }

  /** One of the chosen is a least, and one a greatest, of all finite values between the first and the last sample. */
  ghost predicate KeepsExtremes(s: seq<Sample>, r: seq<nat>) {
    NoneFinite(s, 1, |s| - 1) ||
    ((exists k :: 0 <= k < |r| && Inner(s, r[k]) && forall i :: Inner(s, i) ==> Value(s, r[k]) <= Value(s, i))
     && (exists k :: 0 <= k < |r| && Inner(s, r[k]) && forall i :: Inner(s, i) ==> Value(s, r[k]) >= Value(s, i)))
  }

  /** No value from lo up to hi is finite. */
  ghost predicate NoneFinite(s: seq<Sample>, lo: int, hi: int) { forall i :: lo <= i < hi ==> !Finite(s, i) }

  /** No two finite values from lo up to hi differ. */
  ghost predicate AllEqual(s: seq<Sample>, lo: int, hi: int) {
    forall i, j :: lo <= i < hi && lo <= j < hi && Finite(s, i) && Finite(s, j) ==> Value(s, i) == Value(s, j)
  }

  /* ---------- one bucket ---------- */

  /** The first least and the first greatest finite value from lo up to hi; they are one sample if all are equal. */
  ghost predicate Extremes(s: seq<Sample>, lo: int, hi: int, min: Option<nat>, max: Option<nat>) {
    && (min.None? <==> max.None?) && (min.None? <==> NoneFinite(s, lo, hi))
    && (min.Some? ==>
         && lo <= min.value < hi && lo <= max.value < hi && Finite(s, min.value) && Finite(s, max.value)
         && (forall i :: lo <= i < hi && Finite(s, i) ==> Value(s, min.value) <= Value(s, i) <= Value(s, max.value))
         && (min.value != max.value ==> Value(s, min.value) < Value(s, max.value))
         && (forall i :: lo <= i < min.value && Finite(s, i) ==> Value(s, i) > Value(s, min.value))
         && (forall i :: lo <= i < max.value && Finite(s, i) ==> Value(s, i) < Value(s, max.value)))
  }

  lemma SkipOne(s: seq<Sample>, lo: int, hi: int, min: Option<nat>, max: Option<nat>)
    requires Extremes(s, lo, hi, min, max) && !Finite(s, hi)
    ensures Extremes(s, lo, hi + 1, min, max)
  {
  }

  lemma TakeOne(s: seq<Sample>, lo: int, hi: int, min: Option<nat>, max: Option<nat>)
    requires Extremes(s, lo, hi, min, max) && lo <= hi && Finite(s, hi)
    ensures Extremes(s, lo, hi + 1,
      if min.None? || Value(s, hi) < Value(s, min.value) then Some(hi) else min,
      if max.None? || Value(s, hi) > Value(s, max.value) then Some(hi) else max)
  {
  }

  method ScanBucket(s: seq<Sample>, start: nat, bucketEnd: real) returns (index: nat, min: Option<nat>, max: Option<nat>)
    requires 1 <= start <= |s| - 1
    ensures start <= index <= |s| - 1 && Extremes(s, start, index, min, max)
    ensures index < |s| - 1 ==> s[index].timeUs > bucketEnd
    ensures forall i :: start <= i < index ==> s[i].timeUs <= bucketEnd
  {
    hide Extremes;
    index, min, max := start, None, None;
    assert Extremes(s, start, start, None, None) by { NothingYet(s, start); }
    while index < |s| - 1 && s[index].timeUs <= bucketEnd
      invariant start <= index <= |s| - 1 && Extremes(s, start, index, min, max)
      invariant forall i :: start <= i < index ==> s[i].timeUs <= bucketEnd
    {
      var i := index;
      index := index + 1;
      InReach(s, start, i, min, max);
      if s[i].value.None? { SkipOne(s, start, i, min, max); continue; }
      TakeOne(s, start, i, min, max);
      var v := s[i].value.value;
      var min', max' := min, max;
      if min.None? || v < s[min.value].value.value { min' := Some(i); }
      if max.None? || v > s[max.value].value.value { max' := Some(i); }
      min, max := min', max';
    }
  }

  lemma NothingYet(s: seq<Sample>, start: nat)
    ensures Extremes(s, start, start, None, None)
  {
  }

  lemma InReach(s: seq<Sample>, lo: int, hi: int, min: Option<nat>, max: Option<nat>)
    requires Extremes(s, lo, hi, min, max)
    ensures (min.Some? ==> Finite(s, min.value)) && (max.Some? ==> Finite(s, max.value))
  {
  }

  /** What a bucket adds: nothing, one sample, or its two extremes in the order of their times. */
  function Added(s: seq<Sample>, min: Option<nat>, max: Option<nat>): seq<nat>
    requires (min.Some? ==> min.value < |s|) && (max.Some? ==> max.value < |s|)
  {
    if min.None? || max.None? then []
    else if min == max then [min.value]
    else if s[min.value].timeUs <= s[max.value].timeUs then [min.value, max.value]
    else [max.value, min.value]
  }

  /** The choice so far: the first sample, and for everything before index its extremes. */
  ghost predicate Chosen(s: seq<Sample>, r: seq<nat>, index: int) {
    && 1 <= index && r != [] && r[0] == 0 && (forall k :: 0 <= k < |r| ==> r[k] < index)
    && Spans(s, r, 1, index)
    && (Sorted(s) ==> InTimeOrder(s, r))
  }

  lemma AddBucket(s: seq<Sample>, r: seq<nat>, start: nat, index: nat, min: Option<nat>, max: Option<nat>)
    requires Chosen(s, r, start) && start <= index <= |s| - 1 && Extremes(s, start, index, min, max)
    ensures (min.Some? ==> min.value < |s|) && (max.Some? ==> max.value < |s|)
    ensures Chosen(s, r + Added(s, min, max), index)
  {
    hide Finite, Value, HasBelow, HasAbove;
    var added := Added(s, min, max);
    var more := r + added;
    forall i | 1 <= i < index && Finite(s, i) ensures HasBelow(s, more, i) && HasAbove(s, more, i) {
      if i < start { StillThere(s, r, more, i); } else { ExtremeThere(s, r, more, start, index, min, max, i); }
    }
    if Sorted(s) { AddedInOrder(s, r, start, index, min, max); }
  }

  lemma StillThere(s: seq<Sample>, r: seq<nat>, more: seq<nat>, i: int)
    requires r <= more && Finite(s, i) && HasBelow(s, r, i) && HasAbove(s, r, i)
    ensures HasBelow(s, more, i) && HasAbove(s, more, i)
  {
    var k :| 0 <= k < |r| && Inner(s, r[k]) && Value(s, r[k]) <= Value(s, i);
    var l :| 0 <= l < |r| && Inner(s, r[l]) && Value(s, r[l]) >= Value(s, i);
    assert more[k] == r[k] && more[l] == r[l];
  }

  lemma ExtremeThere(s: seq<Sample>, r: seq<nat>, more: seq<nat>, lo: nat, hi: nat, min: Option<nat>, max: Option<nat>, i: int)
    requires Extremes(s, lo, hi, min, max) && 1 <= lo && hi <= |s| - 1 && lo <= i < hi && Finite(s, i)
    requires (min.Some? ==> min.value < |s|) && (max.Some? ==> max.value < |s|) && more == r + Added(s, min, max)
    ensures HasBelow(s, more, i) && HasAbove(s, more, i)
  {
    var n := |r|;
    assert more[n] == Added(s, min, max)[0];
    if min != max { assert more[n + 1] == Added(s, min, max)[1]; }
  }

  lemma AddedInOrder(s: seq<Sample>, r: seq<nat>, start: nat, index: nat, min: Option<nat>, max: Option<nat>)
    requires Sorted(s) && InTimeOrder(s, r) && (forall k :: 0 <= k < |r| ==> r[k] < start) && index <= |s|
    requires (min.Some? ==> start <= min.value < index) && (max.Some? ==> start <= max.value < index)
    ensures InTimeOrder(s, r + Added(s, min, max))
  {
  }

  /* ---------- the whole series ---------- */

  function Limit(maxPoints: real): int {
    var whole := if maxPoints == 0.0 then 2 else maxPoints.Floor; if whole < 2 then 2 else whole
  }

  /** The time of the last sample, for which zero counts as missing. */
  function LastTime(s: seq<Sample>): real
    requires s != []
  {
    var last := s[|s| - 1].timeUs; if last == 0.0 then s[0].timeUs else last
  }

  function BucketCount(limit: int): int { if (limit - 2) / 2 < 1 then 1 else (limit - 2) / 2 }

  /** The last sample survives the final cut exactly if there is room for it. */
  ghost predicate RoomForLast(s: seq<Sample>, limit: int) {
    || limit >= 4 || NoneFinite(s, 1, |s| - 1) || (limit == 3 && AllEqual(s, 1, |s| - 1))
  }

  /* ---------- equal intervals of time ---------- */

  /** Where the k-th of n equal intervals between the first and the last time ends. */
  function EndOf(s: seq<Sample>, n: int, k: int): real
    requires s != [] && n >= 1
  {
    s[0].timeUs + k as real * ((LastTime(s) - s[0].timeUs) / n as real)
  }

  /** An inner sample lies in the k-th interval, the ends belonging to the earlier one, and the first and last samples to none. */
  ghost predicate InInterval(s: seq<Sample>, n: int, k: int, i: int)
    requires n >= 1
  {
    && 1 <= i < |s| - 1
    && (k == 0 || s[i].timeUs > EndOf(s, n, k))
    && (k == n - 1 || s[i].timeUs <= EndOf(s, n, k + 1))
  }

  /** The first sample of least value in the interval. */
  ghost predicate FirstLeast(s: seq<Sample>, n: int, k: int, i: int)
    requires n >= 1
  {
    && Finite(s, i) && InInterval(s, n, k, i)
    && forall j :: Finite(s, j) && InInterval(s, n, k, j) ==> Value(s, i) <= Value(s, j) && (j < i ==> Value(s, i) < Value(s, j))
  }

  ghost predicate FirstGreatest(s: seq<Sample>, n: int, k: int, i: int)
    requires n >= 1
  {
    && Finite(s, i) && InInterval(s, n, k, i)
    && forall j :: Finite(s, j) && InInterval(s, n, k, j) ==> Value(s, i) >= Value(s, j) && (j < i ==> Value(s, i) > Value(s, j))
  }

  /** The sample is an extreme of one of the first m intervals. */
  ghost predicate IsExtreme(s: seq<Sample>, n: int, m: int, i: int)
    requires n >= 1
  {
    exists k :: 0 <= k < m && (FirstLeast(s, n, k, i) || FirstGreatest(s, n, k, i))
  }

  /** The first sample and the extremes of the first m intervals are chosen, each once, and no other. */
  ghost predicate Picks(s: seq<Sample>, r: seq<nat>, n: int, m: int)
    requires n >= 1
  {
    && (forall i: nat :: i in r <==> i == 0 || IsExtreme(s, n, m, i))
    && forall a, b :: 0 <= a < b < |r| ==> r[a] != r[b]
  }

  /** The inner samples before index are those of the first m intervals. */
  ghost predicate Boundary(s: seq<Sample>, n: int, m: int, index: int)
    requires n >= 1
  {
    && 1 <= index <= |s| - 1
    && (m == 0 ==> index == 1)
    && (m == n ==> index == |s| - 1)
    && (0 < m < n ==> forall i :: 1 <= i < index ==> s[i].timeUs <= EndOf(s, n, m))
    && (0 < m < n ==> forall i :: index <= i < |s| - 1 ==> s[i].timeUs > EndOf(s, n, m))
  }

  /** The result for n intervals: the first sample, the last, the extremes of the intervals, each once, and no other. */
  ghost predicate PicksExactly(s: seq<Sample>, r: seq<nat>, n: int)
    requires n >= 1
  {
    && (forall i: nat :: i in r <==> i == 0 || i == |s| - 1 || IsExtreme(s, n, n, i))
    && forall a, b :: 0 <= a < b < |r| ==> r[a] != r[b]
  }

  lemma EndsGrow(s: seq<Sample>, n: int, k: int, l: int)
    requires s != [] && n >= 1 && LastTime(s) > s[0].timeUs && k <= l
    ensures EndOf(s, n, k) <= EndOf(s, n, l)
  {
    var d := (LastTime(s) - s[0].timeUs) / n as real;
    assert d > 0.0;
    assert (l - k) as real * d >= 0.0;
    assert l as real * d == k as real * d + (l - k) as real * d;
  }

  lemma IntervalIs(s: seq<Sample>, n: int, k: int, start: int, next: int)
    requires n >= 1 && 0 <= k < n && start <= next && Boundary(s, n, k, start) && Boundary(s, n, k + 1, next)
    ensures forall i :: InInterval(s, n, k, i) <==> start <= i < next
  {
    hide EndOf;
  }

  lemma BoundaryMoves(s: seq<Sample>, n: int, k: int, start: int, next: int)
    requires n >= 1 && 0 <= k < n && Sorted(s) && start <= next <= |s| - 1 && Boundary(s, n, k, start) && LastTime(s) > s[0].timeUs
    requires k + 1 < n ==> (next < |s| - 1 ==> s[next].timeUs > EndOf(s, n, k + 1)) && forall i :: start <= i < next ==> s[i].timeUs <= EndOf(s, n, k + 1)
    requires k + 1 == n ==> next == |s| - 1
    ensures Boundary(s, n, k + 1, next)
  {
    EndsGrow(s, n, k, k + 1);
    hide EndOf;
  }

  lemma ExtremesAre(s: seq<Sample>, n: int, k: int, start: int, next: int, min: Option<nat>, max: Option<nat>, i: nat)
    requires n >= 1 && 0 <= k < n && 1 <= start <= next <= |s| - 1 && Extremes(s, start, next, min, max)
    requires forall j :: InInterval(s, n, k, j) <==> start <= j < next
    ensures FirstLeast(s, n, k, i) <==> min == Some(i)
    ensures FirstGreatest(s, n, k, i) <==> max == Some(i)
  {
    hide InInterval;
    if FirstLeast(s, n, k, i) { assert min.Some?; assert InInterval(s, n, k, min.value); }
    if FirstGreatest(s, n, k, i) { assert max.Some?; assert InInterval(s, n, k, max.value); }
  }

  lemma PicksNext(s: seq<Sample>, r: seq<nat>, n: int, k: int, start: int, next: int, min: Option<nat>, max: Option<nat>)
    requires n >= 1 && 0 <= k < n && Picks(s, r, n, k) && (forall a :: 0 <= a < |r| ==> r[a] < start)
    requires 1 <= start <= next <= |s| - 1 && Extremes(s, start, next, min, max)
    requires Boundary(s, n, k, start) && Boundary(s, n, k + 1, next)
    ensures (min.Some? ==> min.value < |s|) && (max.Some? ==> max.value < |s|)
    ensures Picks(s, r + Added(s, min, max), n, k + 1)
  {
    IntervalIs(s, n, k, start, next);
    var added := Added(s, min, max);
    forall i: nat ensures i in r + added <==> i == 0 || IsExtreme(s, n, k + 1, i) {
      ExtremesAre(s, n, k, start, next, min, max, i);
      hide FirstLeast, FirstGreatest, InInterval, Boundary;
      OneIntervalMore(s, n, k, i);
      AddedAre(s, min, max, i);
    }
    hide FirstLeast, FirstGreatest, InInterval, Boundary, IsExtreme;
    assert forall a :: 0 <= a < |added| ==> added[a] >= start;
  }

  lemma AddedAre(s: seq<Sample>, min: Option<nat>, max: Option<nat>, i: nat)
    requires (min.Some? ==> min.value < |s|) && (max.Some? ==> max.value < |s|) && (min.None? <==> max.None?)
    ensures i in Added(s, min, max) <==> min == Some(i) || max == Some(i)
  {
  }

  lemma OneIntervalMore(s: seq<Sample>, n: int, k: int, i: int)
    requires n >= 1 && 0 <= k < n
    ensures IsExtreme(s, n, k + 1, i) <==> IsExtreme(s, n, k, i) || FirstLeast(s, n, k, i) || FirstGreatest(s, n, k, i)
  {
    hide FirstLeast, FirstGreatest;
  }

  /** Intervals behind the last inner sample are empty. */
  lemma PicksAll(s: seq<Sample>, r: seq<nat>, n: int, k: int)
    requires n >= 1 && 0 <= k <= n && Picks(s, r, n, k) && Boundary(s, n, k, |s| - 1) && |s| >= 3 && LastTime(s) > s[0].timeUs
    ensures Picks(s, r, n, n)
  {
    forall i: nat, l | k <= l < n ensures !FirstLeast(s, n, l, i) && !FirstGreatest(s, n, l, i) {
      if InInterval(s, n, l, i) {
        assert k > 0;
        EndsGrow(s, n, k, l);
        assert false;
      }
    }
    hide FirstLeast, FirstGreatest;
    forall i: nat ensures IsExtreme(s, n, k, i) <==> IsExtreme(s, n, n, i) {
      if IsExtreme(s, n, n, i) { var l :| 0 <= l < n && (FirstLeast(s, n, l, i) || FirstGreatest(s, n, l, i)); assert l < k; }
    }
  }

  lemma LastIsAdded(s: seq<Sample>, r: seq<nat>, n: int)
    requires s != [] && n >= 1 && Picks(s, r, n, n) && forall a :: 0 <= a < |r| ==> r[a] < |s| - 1
    ensures PicksExactly(s, r + [|s| - 1], n)
  {
    hide IsExtreme;
  }

  /** The state of the loop over the buckets: what was chosen of the first m of n intervals, which end before index. */
  ghost predicate Progress(s: seq<Sample>, n: int, m: int, r: seq<nat>, index: int)
    requires n >= 1
  {
    && 0 <= m <= n && 1 <= index <= |s| - 1 && Chosen(s, r, index)
    && 1 <= |r| <= 1 + 2 * m && (m == 0 ==> index == 1) && (m == 1 ==> |r| == 1 + Width(s, index))
    && (Sorted(s) ==> Boundary(s, n, m, index) && Picks(s, r, n, m))
  }

  method ByBuckets(s: seq<Sample>, limit: int) returns (r: seq<nat>)
    requires limit >= 2 && |s| > limit && LastTime(s) > s[0].timeUs
    ensures 0 < |r| <= limit && r[0] == 0 && forall k :: 0 <= k < |r| ==> r[k] < |s|
    ensures Sorted(s) ==> InTimeOrder(s, r)
    ensures Sorted(s) && limit >= 4 ==> KeepsExtremes(s, r) && PicksExactly(s, r, (limit - 2) / 2)
    ensures Sorted(s) ==> (r[|r| - 1] == |s| - 1 <==> RoomForLast(s, limit))
  {
    hide Progress, Extremes, Sorted, KeepsExtremes, PicksExactly, InTimeOrder, RoomForLast, LastTime;
    var firstTime, lastTime := s[0].timeUs, LastTime(s);
    var bucketCount := BucketCount(limit);
    var bucketDuration := (lastTime - firstTime) / bucketCount as real;
    var result: seq<nat> := [0];
    var index := 1;
    ProgressStarts(s, bucketCount);
    var bucket := 0;
    while bucket < bucketCount && index < |s| - 1
      invariant 0 <= bucket <= bucketCount && 1 <= index <= |s| - 1 && Progress(s, bucketCount, bucket, result, index)
    {
      var bucketEnd := if bucket == bucketCount - 1 then lastTime else firstTime + (bucket + 1) as real * bucketDuration;
      var next, minimum, maximum := ScanBucket(s, index, bucketEnd);
      EndIs(s, bucketCount, bucket + 1, bucketDuration);
      ProgressMoves(s, bucketCount, bucket, result, index, next, minimum, maximum);
      result := result + Added(s, minimum, maximum);
      index := next;
      bucket := bucket + 1;
    }
    ghost var chosen := result;
    result := result + [|s| - 1];
    r := Cut(result, limit);
    ProgressEnds(s, chosen, bucketCount, bucket, index, limit);
  }

  lemma ProgressStarts(s: seq<Sample>, n: int)
    requires n >= 1 && |s| >= 3
    ensures Progress(s, n, 0, [0], 1)
  {
    FirstChosen(s);
    FirstPicked(s, n);
    hide Chosen, Boundary, Picks;
  }

  /** Where the code lets the k-th bucket end. */
  function BucketEnd(s: seq<Sample>, n: int, k: int): real
    requires s != [] && n >= 1
  {
    if k == n - 1 then LastTime(s) else EndOf(s, n, k + 1)
  }

  lemma ProgressMoves(s: seq<Sample>, n: int, k: int, r: seq<nat>, start: nat, next: nat, min: Option<nat>, max: Option<nat>)
    requires |s| >= 3 && n >= 1 && 0 <= k < n && Progress(s, n, k, r, start) && LastTime(s) > s[0].timeUs
    requires start <= next <= |s| - 1 && Extremes(s, start, next, min, max)
    requires next < |s| - 1 ==> s[next].timeUs > BucketEnd(s, n, k)
    requires forall i :: start <= i < next ==> s[i].timeUs <= BucketEnd(s, n, k)
    ensures (min.Some? ==> min.value < |s|) && (max.Some? ==> max.value < |s|)
    ensures Progress(s, n, k + 1, r + Added(s, min, max), next)
  {
    hide Chosen, Extremes, Boundary, Picks, Width, EndOf;
    AddBucket(s, r, start, next, min, max);
    if k == 0 { WidthIs(s, next, min, max); }
    if Sorted(s) {
      SortedAt(s, next, |s| - 1);
      hide Sorted;
      ChosenBefore(s, r, start);
      BoundaryMoves(s, n, k, start, next);
      PicksNext(s, r, n, k, start, next, min, max);
    }
  }

  lemma ProgressEnds(s: seq<Sample>, chosen: seq<nat>, n: int, m: int, index: int, limit: int)
    requires limit >= 2 && |s| > limit && LastTime(s) > s[0].timeUs && n == BucketCount(limit)
    requires Progress(s, n, m, chosen, index) && (m == n || index == |s| - 1)
    ensures var r := Cut(chosen + [|s| - 1], limit);
      && 0 < |r| <= limit && r[0] == 0 && (forall k :: 0 <= k < |r| ==> r[k] < |s|)
      && (Sorted(s) ==> InTimeOrder(s, r) && (r[|r| - 1] == |s| - 1 <==> RoomForLast(s, limit)))
      && (Sorted(s) && limit >= 4 ==> KeepsExtremes(s, r) && PicksExactly(s, r, (limit - 2) / 2))
  {
    hide Chosen, Width, InTimeOrder, RoomForLast, KeepsExtremes, PicksExactly, Picks, EndOf, LastTime;
    if Sorted(s) { AtTheEnd(s, n, m, index); }
    assert m >= 1;
    hide Sorted, Boundary;
    Finished(s, chosen, index, limit);
    if Sorted(s) && limit >= 4 {
      PicksAll(s, chosen, n, m);
      ChosenBefore(s, chosen, index);
      LastIsAdded(s, chosen, n);
    }
  }

  lemma AtTheEnd(s: seq<Sample>, n: int, m: int, index: int)
    requires n >= 1 && Boundary(s, n, m, index) && (m == n || index == |s| - 1)
    ensures index == |s| - 1
  {
    hide EndOf;
  }

  lemma FirstPicked(s: seq<Sample>, n: int)
    requires n >= 1 && |s| >= 2
    ensures Picks(s, [0], n, 0) && Boundary(s, n, 0, 1)
  {
  }

  lemma EndIs(s: seq<Sample>, n: int, k: int, d: real)
    requires s != [] && n >= 1 && d == (LastTime(s) - s[0].timeUs) / n as real
    ensures EndOf(s, n, k) == s[0].timeUs + k as real * d
  {
  }

  lemma ChosenBefore(s: seq<Sample>, r: seq<nat>, index: int)
    requires Chosen(s, r, index)
    ensures forall a :: 0 <= a < |r| ==> r[a] < index
  {
    hide Spans, InTimeOrder;
  }

  /** How many samples the only bucket adds. */
  ghost function Width(s: seq<Sample>, hi: int): nat {
    if NoneFinite(s, 1, hi) then 0 else if AllEqual(s, 1, hi) then 1 else 2
  }

  lemma WidthIs(s: seq<Sample>, hi: nat, min: Option<nat>, max: Option<nat>)
    requires Extremes(s, 1, hi, min, max) && hi <= |s|
    ensures (min.Some? ==> min.value < |s|) && (max.Some? ==> max.value < |s|) && |Added(s, min, max)| == Width(s, hi)
  {
    if min.Some? && min == max {
      forall i, j | 1 <= i < hi && 1 <= j < hi && Finite(s, i) && Finite(s, j) ensures Value(s, i) == Value(s, j) { }
    }
  }

  lemma FirstChosen(s: seq<Sample>)
    requires s != []
    ensures Chosen(s, [0], 1)
  {
  }

  lemma SortedAt(s: seq<Sample>, i: nat, j: nat)
    requires Sorted(s) && i <= j < |s|
    ensures s[i].timeUs <= s[j].timeUs
  {
  }

  /** The list, cut to the limit. */
  function Cut(all: seq<nat>, limit: int): (r: seq<nat>)
    requires limit >= 2
    ensures all != [] ==> r != []
  {
    if |all| <= limit then all else all[..limit]
  }

  function LastOf(r: seq<nat>): nat
    requires r != []
  {
    r[|r| - 1]
  }

  /** The last sample is appended, and the list is cut to the limit. */
  lemma Finished(s: seq<Sample>, chosen: seq<nat>, index: nat, limit: int)
    requires limit >= 2 && |s| > limit && Chosen(s, chosen, index) && index <= |s| - 1
    requires limit >= 4 ==> |chosen| < limit
    requires Sorted(s) ==> index == |s| - 1
    requires limit < 4 ==> |chosen| == 1 + Width(s, index)
    ensures var r := Cut(chosen + [|s| - 1], limit); 0 < |r| <= limit && r[0] == 0 && forall k :: 0 <= k < |r| ==> r[k] < |s|
    ensures Sorted(s) ==> InTimeOrder(s, Cut(chosen + [|s| - 1], limit))
    ensures Sorted(s) && limit >= 4 ==> KeepsExtremes(s, Cut(chosen + [|s| - 1], limit))
    ensures Sorted(s) ==> (LastOf(Cut(chosen + [|s| - 1], limit)) == |s| - 1 <==> RoomForLast(s, limit))
  {
    hide Finite, Value, Spans, KeepsExtremes, NoneFinite, AllEqual, InTimeOrder, Sorted;
    var all := chosen + [|s| - 1];
    if Sorted(s) {
      LastInOrder(s, chosen);
      CutInOrder(s, all, limit);
    }
    if Sorted(s) && limit >= 4 { SpansMore(s, chosen, all, 1, |s| - 1); SpansKeep(s, all); }
  }

  lemma SpansKeep(s: seq<Sample>, r: seq<nat>)
    requires Spans(s, r, 1, |s| - 1)
    ensures KeepsExtremes(s, r)
  {
    hide HasBelow, HasAbove, Finite, Value;
    if i :| 1 <= i < |s| - 1 && Finite(s, i) {
      var any := ChosenBelow(s, r, i);
      var k := LeastOf(s, r, |s| - 1, any);
      var l := GreatestOf(s, r, |s| - 1, any);
    }
  }

  lemma ChosenBelow(s: seq<Sample>, r: seq<nat>, i: int) returns (k: nat)
    requires Finite(s, i) && HasBelow(s, r, i)
    ensures k < |r| && Inner(s, r[k]) && Value(s, r[k]) <= Value(s, i)
  {
    hide Finite, Value;
    k :| k < |r| && Inner(s, r[k]) && Value(s, r[k]) <= Value(s, i);
  }

  lemma ChosenAbove(s: seq<Sample>, r: seq<nat>, i: int) returns (k: nat)
    requires Finite(s, i) && HasAbove(s, r, i)
    ensures k < |r| && Inner(s, r[k]) && Value(s, r[k]) >= Value(s, i)
  {
    hide Finite, Value;
    k :| k < |r| && Inner(s, r[k]) && Value(s, r[k]) >= Value(s, i);
  }

  /** From one chosen below each value to one chosen below all of them. */
  lemma {:induction false} LeastOf(s: seq<Sample>, r: seq<nat>, hi: nat, any: nat) returns (k: nat)
    requires Spans(s, r, 1, hi) && hi <= |s| - 1 && any < |r| && Inner(s, r[any])
    ensures k < |r| && Inner(s, r[k]) && forall i :: 1 <= i < hi && Finite(s, i) ==> Value(s, r[k]) <= Value(s, i)
    decreases hi
  {
    hide HasBelow, HasAbove, Finite, Value;
    if hi <= 1 { k := any; }
    else {
      k := LeastOf(s, r, hi - 1, any);
      if Finite(s, hi - 1) && Value(s, hi - 1) < Value(s, r[k]) { k := ChosenBelow(s, r, hi - 1); }
    }
  }

  lemma {:induction false} GreatestOf(s: seq<Sample>, r: seq<nat>, hi: nat, any: nat) returns (k: nat)
    requires Spans(s, r, 1, hi) && hi <= |s| - 1 && any < |r| && Inner(s, r[any])
    ensures k < |r| && Inner(s, r[k]) && forall i :: 1 <= i < hi && Finite(s, i) ==> Value(s, r[k]) >= Value(s, i)
    decreases hi
  {
    hide HasBelow, HasAbove, Finite, Value;
    if hi <= 1 { k := any; }
    else {
      k := GreatestOf(s, r, hi - 1, any);
      if Finite(s, hi - 1) && Value(s, hi - 1) > Value(s, r[k]) { k := ChosenAbove(s, r, hi - 1); }
    }
  }

  lemma LastInOrder(s: seq<Sample>, chosen: seq<nat>)
    requires Sorted(s) && InTimeOrder(s, chosen) && s != []
    ensures InTimeOrder(s, chosen + [|s| - 1])
  {
  }

  lemma CutInOrder(s: seq<Sample>, all: seq<nat>, limit: int)
    requires limit >= 2 && InTimeOrder(s, all)
    ensures InTimeOrder(s, Cut(all, limit))
  {
  }

  lemma SpansMore(s: seq<Sample>, r: seq<nat>, more: seq<nat>, lo: int, hi: int)
    requires Spans(s, r, lo, hi) && r <= more
    ensures Spans(s, more, lo, hi)
  {
    hide Finite, Value, HasBelow, HasAbove;
    forall i | lo <= i < hi && Finite(s, i) ensures HasBelow(s, more, i) && HasAbove(s, more, i) { StillThere(s, r, more, i); }
  }

  /** Every stride-th of n samples, as many as fit below the limit. */
  function Strided(n: nat, limit: int): (m: int)
    requires limit >= 2
    ensures n > limit ==> 1 <= m <= limit - 1
  {
    var all := (n + Stride(n, limit) - 1) / Stride(n, limit); if all < limit - 1 then all else limit - 1
  }

  /** The least stride with which the limit suffices for all of them. */
  function Stride(n: nat, limit: int): (d: int)
    requires limit >= 2
    ensures d >= 1
    ensures n > 0 ==> limit * (d - 1) < n <= limit * d
  {
    if n == 0 then 1 else
      DivideUp(n, limit);
      (n + limit - 1) / limit
  }

  lemma DivideUp(n: int, d: int)
    requires n >= 1 && d >= 1
    ensures var q := (n + d - 1) / d; q >= 1 && d * (q - 1) < n <= d * q
  {
    var q, r := (n + d - 1) / d, (n + d - 1) % d;
    assert n + d - 1 == d * q + r;
    assert d * (q - 1) == d * q - d;
    MultipleOf(d, q);
  }

  /** With m multiples below index, the next one is m times the stride. */
  lemma NextMultiple(index: int, m: int, d: int)
    requires d >= 1 && m >= 0 && index >= 0 && d * (m - 1) < index <= d * m
    ensures index % d == 0 <==> index == d * m
  {
    if index == d * m { ModUnique(index, d, m, 0); }
    else {
      assert d * (m - 1) == d * m - d;
      ModUnique(index, d, m - 1, index - d * (m - 1));
    }
  }

  /** The count of multiples of d below n. */
  lemma CountedUp(n: int, m: int, d: int)
    requires n >= 1 && d >= 1 && d * (m - 1) < n <= d * m
    ensures m == (n + d - 1) / d
  {
    assert d * (m - 1) == d * m - d;
    ModUnique(n + d - 1, d, m, n + d - 1 - d * m);
  }

  ghost predicate EveryStride(s: seq<Sample>, r: seq<nat>, limit: int)
    requires limit >= 2
  {
    |r| == Strided(|s|, limit) + 1 && (forall k :: 0 <= k < |r| - 1 ==> r[k] == Stride(|s|, limit) * k) && r[|r| - 1] == |s| - 1
  }

  lemma StridesInOrder(s: seq<Sample>, r: seq<nat>, limit: int)
    requires limit >= 2 && |s| > limit && EveryStride(s, r, limit) && Sorted(s) && forall k :: 0 <= k < |r| ==> r[k] < |s|
    ensures InTimeOrder(s, r)
  {
    hide Stride, Strided;
    forall k, l | 0 <= k <= l < |r| ensures s[r[k]].timeUs <= s[r[l]].timeUs {
      if l < |r| - 1 { Multiples(Stride(|s|, limit), k, l); }
    }
  }

  /** Samples without any spread in time: every stride-th of them, and the last. */
  method ByStride(s: seq<Sample>, limit: int) returns (r: seq<nat>)
    requires limit >= 2 && |s| > limit
    ensures 0 < |r| <= limit && r[|r| - 1] == |s| - 1 && forall k :: 0 <= k < |r| ==> r[k] < |s|
    ensures EveryStride(s, r, limit)
  {
    var stride := (|s| + limit - 1) / limit;
    assert stride == Stride(|s|, limit);
    hide Stride;
    r := [];
    var index := 0;
    while index < |s| && |r| < limit - 1
      invariant 0 <= index <= |s| && |r| <= limit - 1
      invariant stride * (|r| - 1) < index <= stride * |r|
      invariant forall k :: 0 <= k < |r| ==> r[k] == stride * k && r[k] < |s|
    {
      NextMultiple(index, |r|, stride);
      if index % stride == 0 { r := r + [index]; }
      assert stride * (|r| - 1) <= index < stride * |r|;
      index := index + 1;
    }
    StridedIs(|s|, limit, index, |r|);
    r := r + [|s| - 1];
  }

  lemma StridedIs(n: nat, limit: int, index: int, m: nat)
    requires limit >= 2 && n > limit && m <= limit - 1 && (index == n || m == limit - 1) && index <= n
    requires var d := Stride(n, limit); d * (m - 1) < index <= d * m
    ensures m == Strided(n, limit)
  {
    var d := Stride(n, limit);
    hide Stride;
    DivideUp(n, d);
    var all := (n + d - 1) / d;
    if index == n { CountedUp(n, m, d); }
    else if all < m { Multiples(d, all, m - 1); }
  }

  lemma Multiples(d: int, x: int, y: int)
    requires d >= 1 && x <= y
    ensures d * x <= d * y
  {
    assert d * (y - x) >= 0;
    assert d * (y - x) == d * y - d * x;
  }

  lemma AllInOrder(s: seq<Sample>)
    requires Sorted(s)
    ensures InTimeOrder(s, seq(|s|, i => i))
  {
  }

  /**
   * At most the limit of samples, drawn from the input, in time order if the input is, with the first and the last sample and,
   * among all others, a least and a greatest value. From a limit of four on it is, besides these two, exactly the first least and
   * the first greatest sample of each interval. With a limit of two or three the last sample may be cut off, and it is known
   * exactly when.
   */
  method DownsampleMinMax(s: seq<Sample>, maxPoints: real) returns (r: seq<nat>)
    ensures forall k :: 0 <= k < |r| ==> r[k] < |s|
    ensures |s| <= Limit(maxPoints) ==> r == seq(|s|, i => i)
    ensures |s| > Limit(maxPoints) ==> 0 < |r| <= Limit(maxPoints)
    ensures Sorted(s) ==> InTimeOrder(s, r)
    ensures |s| > Limit(maxPoints) && LastTime(s) <= s[0].timeUs ==> EveryStride(s, r, Limit(maxPoints))
    ensures |s| > Limit(maxPoints) && LastTime(s) > s[0].timeUs && Sorted(s) ==>
      && r[0] == 0 && (r[|r| - 1] == |s| - 1 <==> RoomForLast(s, Limit(maxPoints)))
      && (Limit(maxPoints) >= 4 ==> KeepsExtremes(s, r) && PicksExactly(s, r, (Limit(maxPoints) - 2) / 2))
  {
    hide KeepsExtremes, PicksExactly, RoomForLast, EveryStride, InTimeOrder, Sorted;
    var limit := Limit(maxPoints);
    if |s| <= limit {
      if Sorted(s) { AllInOrder(s); }
      return seq(|s|, i => i);
    }
    if LastTime(s) <= s[0].timeUs {
      r := ByStride(s, limit);
      if Sorted(s) { StridesInOrder(s, r, limit); }
      return;
    }
    r := ByBuckets(s, limit);
  }
}
