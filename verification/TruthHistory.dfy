/** The bounded history of true poses, and the pose it gives for a capture time. */
module TruthHistory {
  import opened Bytes
  import opened Reals

  datatype Turn = Turn(x: real, y: real, z: real, w: real)
  datatype Truth = Truth(captureTimeNs: int, position: Vec, orientation: Turn)

  const HistoryNs := 10_000_000_000

  ghost predicate Increasing(h: seq<Truth>) {
    forall i, j :: 0 <= i < j < |h| ==> h[i].captureTimeNs < h[j].captureTimeNs
  }

  /* ---------- what is kept ---------- */

  function Newest(h: seq<Truth>): int
    requires h != []
  {
    h[|h| - 1].captureTimeNs
  }

  /** The samples of a run that are newer than all before them. */
  function Advancing(samples: seq<Truth>): seq<Truth> {
    if samples == [] then []
    else
      var front, t := Advancing(samples[..|samples| - 1]), samples[|samples| - 1];
      if front != [] && t.captureTimeNs <= Newest(front) then front else front + [t]
  }

  function Since(h: seq<Truth>, oldest: int): seq<Truth> {
    if h == [] then [] else if h[0].captureTimeNs < oldest then Since(h[1..], oldest) else h
  }

  /** The history after a run: of the advancing samples those of the last ten seconds. */
  function Window(samples: seq<Truth>): seq<Truth> {
    var all := Advancing(samples); if all == [] then [] else Since(all, Newest(all) - HistoryNs)
  }

  lemma {:induction false} AdvancingIncreases(samples: seq<Truth>)
    ensures Increasing(Advancing(samples)) && (Advancing(samples) == [] <==> samples == [])
    decreases |samples|
  {
    if samples != [] { AdvancingIncreases(samples[..|samples| - 1]); }
  }

  lemma {:induction false} SinceIs(h: seq<Truth>, oldest: int)
    requires Increasing(h)
    ensures Increasing(Since(h, oldest)) && (forall t :: t in Since(h, oldest) <==> t in h && t.captureTimeNs >= oldest)
    ensures h != [] && Newest(h) >= oldest ==> Since(h, oldest) != [] && Since(h, oldest)[|Since(h, oldest)| - 1] == h[|h| - 1]
    decreases |h|
  {
    if h != [] {
      assert h == [h[0]] + h[1..];
      if h[0].captureTimeNs < oldest { SinceIs(h[1..], oldest); }
    }
  }

  /** Some sample of the run is t, and it is newer than all before it. */
  ghost predicate Advances(samples: seq<Truth>, t: Truth) {
    exists i :: 0 <= i < |samples| && samples[i] == t && forall j :: 0 <= j < i ==> samples[j].captureTimeNs < t.captureTimeNs
  }

  /** One sample more advances exactly if it is newer than all others. */
  lemma OneMoreAdvances(front: seq<Truth>, last: Truth, t: Truth)
    ensures Advances(front + [last], t) <==> Advances(front, t) || (t == last && forall j :: 0 <= j < |front| ==> front[j].captureTimeNs < last.captureTimeNs)
  {
    var all := front + [last];
    if Advances(front, t) {
      var i :| 0 <= i < |front| && front[i] == t && forall j :: 0 <= j < i ==> front[j].captureTimeNs < t.captureTimeNs;
      assert all[i] == t && forall j :: 0 <= j < i ==> all[j] == front[j];
    }
    if Advances(all, t) {
      var i :| 0 <= i < |all| && all[i] == t && forall j :: 0 <= j < i ==> all[j].captureTimeNs < t.captureTimeNs;
      assert forall j :: 0 <= j < i ==> all[j] == front[j];
      if i < |front| { assert front[i] == t; }
    }
    if t == last && forall j :: 0 <= j < |front| ==> front[j].captureTimeNs < last.captureTimeNs { assert all[|front|] == t; }
  }

  lemma {:induction false} AdvancingIff(samples: seq<Truth>, t: Truth)
    ensures t in Advancing(samples) <==> Advances(samples, t)
    decreases |samples|
  {
    if samples != [] {
      var front, last := samples[..|samples| - 1], samples[|samples| - 1];
      AdvancingIff(front, t);
      AdvancingIncreases(front);
      assert samples == front + [last];
      OneMoreAdvances(front, last, t);
      hide Advances;
      if front != [] {
        NewestIsNewest(front); NewestOccurs(front);
        var newest := Advancing(front)[|Advancing(front)| - 1];
        assert newest in front;
        assert (forall j :: 0 <= j < |front| ==> front[j].captureTimeNs < last.captureTimeNs) <==> Newest(Advancing(front)) < last.captureTimeNs by {
          var k :| 0 <= k < |front| && front[k] == newest;
          forall j | 0 <= j < |front| ensures front[j].captureTimeNs <= newest.captureTimeNs { assert front[j] in front; }
        }
      }
    }
  }

  lemma {:induction false} NewestOccurs(samples: seq<Truth>)
    requires samples != [] && Advancing(samples) != []
    ensures Advancing(samples)[|Advancing(samples)| - 1] in samples
    decreases |samples|
  {
    var front := samples[..|samples| - 1];
    assert samples == front + [samples[|samples| - 1]];
    AdvancingIncreases(front);
    if front != [] { NewestOccurs(front); }
  }

  /** For every run: the times increase, span at most ten seconds, and the newest sample is kept. */
  lemma WindowIsSound(samples: seq<Truth>)
    ensures var h := Window(samples);
      && Increasing(h) && (h == [] <==> samples == [])
      && (h != [] ==> Newest(h) - h[0].captureTimeNs <= 10_000_000_000)
      && (forall t :: t in samples ==> h != [] && t.captureTimeNs <= Newest(h))
      && (forall t :: t in h <==> Advances(samples, t) && t.captureTimeNs >= Newest(h) - 10_000_000_000)
  {
    hide Advancing, Since, Advances;
    AdvancingIncreases(samples);
    forall t ensures t in Advancing(samples) <==> Advances(samples, t) { AdvancingIff(samples, t); }
    var all := Advancing(samples);
    if all != [] {
      SinceIs(all, Newest(all) - HistoryNs);
      var h := Window(samples);
      assert h == Since(all, Newest(all) - HistoryNs);
      hide Increasing, Window;
      assert h[0] in h && Newest(h) == Newest(all);
      NewestIsNewest(samples);
    }
  }

  lemma {:induction false} NewestIsNewest(samples: seq<Truth>)
    requires samples != [] && Advancing(samples) != []
    ensures forall t :: t in samples ==> t.captureTimeNs <= Newest(Advancing(samples))
    decreases |samples|
  {
    var front := samples[..|samples| - 1];
    assert samples == front + [samples[|samples| - 1]];
    AdvancingIncreases(front);
    if front != [] { NewestIsNewest(front); }
  }

  lemma {:induction false} SinceTwice(h: seq<Truth>, t: Truth, a: int, b: int)
    requires Increasing(h + [t]) && a <= b
    ensures Since(Since(h, a) + [t], b) == Since(h + [t], b)
    decreases |h|
  {
    if h != [] {
      assert (h + [t])[1..] == h[1..] + [t];
      if h[0].captureTimeNs < a { SinceTwice(h[1..], t, a, b); }
    }
  }

  class Recorder {
    var truthHistory: seq<Truth>

    constructor ()
      ensures truthHistory == []
    {
      truthHistory := [];
    }

    /** Appends a sample that is newer than the last, and drops those more than ten seconds older than it. */
    method RecordTruth(truth: Truth, ghost samples: seq<Truth>)
      requires truthHistory == Window(samples)
      modifies `truthHistory
      ensures truthHistory == Window(samples + [truth])
    {
      Recorded(samples, truth);
      if truthHistory != [] && truth.captureTimeNs <= Newest(truthHistory) { return; }
      truthHistory := truthHistory + [truth];
      var oldest := truth.captureTimeNs - HistoryNs;
      var drop := 0;
      ghost var all := truthHistory;
      while drop < |truthHistory| && truthHistory[drop].captureTimeNs < oldest
        invariant 0 <= drop <= |truthHistory| && truthHistory == all
        invariant Since(all[drop..], oldest) == Since(all, oldest)
      {
        assert all[drop..][1..] == all[drop + 1..];
        drop := drop + 1;
      }
      if drop > 0 { truthHistory := truthHistory[drop..]; }
    }

    /** The pose for an estimate without a capture time is the newest. */
    method TruthFor(slerp: (Turn, Turn, real) -> Turn, captureTimeNs: Option<int>, ghost samples: seq<Truth>) returns (r: Option<Truth>)
      requires truthHistory == Window(samples)
      ensures captureTimeNs.None? ==> r == if truthHistory == [] then None else Some(truthHistory[|truthHistory| - 1])
      ensures captureTimeNs.Some? ==> Answers(slerp, truthHistory, captureTimeNs.value, r)
    {
      WindowIsSound(samples);
      if captureTimeNs.None? { return if truthHistory == [] then None else Some(truthHistory[|truthHistory| - 1]); }
      r := TruthAtCaptureTime(slerp, truthHistory, captureTimeNs.value);
    }
  }

  lemma AppendIncreases(all: seq<Truth>, t: Truth)
    requires Increasing(all) && (all != [] ==> t.captureTimeNs > Newest(all))
    ensures Increasing(all + [t])
  {
  }

  /** Whether dropped before or after a sample is appended, the old samples are dropped. */
  lemma KeepsUp(all: seq<Truth>, t: Truth)
    requires Increasing(all) && all != []
    ensures var h := Since(all, Newest(all) - HistoryNs);
      && h != [] && Newest(h) == Newest(all)
      && (t.captureTimeNs > Newest(all) ==>
           Since(h + [t], t.captureTimeNs - HistoryNs) == Since(all + [t], t.captureTimeNs - HistoryNs))
  {
    hide Since, Increasing;
    SinceIs(all, Newest(all) - HistoryNs);
    if t.captureTimeNs > Newest(all) {
      AppendIncreases(all, t);
      SinceTwice(all, t, Newest(all) - HistoryNs, t.captureTimeNs - HistoryNs);
    }
  }

  lemma AdvancingOne(samples: seq<Truth>, t: Truth)
    ensures var all := Advancing(samples);
      Advancing(samples + [t]) == if all != [] && t.captureTimeNs <= Newest(all) then all else all + [t]
  {
    var more := samples + [t];
    assert more[..|more| - 1] == samples;
  }

  lemma Recorded(samples: seq<Truth>, truth: Truth)
    ensures var h := Window(samples);
      Window(samples + [truth]) == if h != [] && truth.captureTimeNs <= Newest(h) then h else Since(h + [truth], truth.captureTimeNs - HistoryNs)
  {
    hide Advancing, Since, Increasing;
    var all := Advancing(samples);
    AdvancingOne(samples, truth);
    AdvancingIncreases(samples);
    if all != [] { KeepsUp(all, truth); }
    else { assert [] + [truth] == [truth]; }
  }

  /* ---------- looking up ---------- */

  function Lerp(a: real, b: real, alpha: real): real { a + (b - a) * alpha }

  predicate Between(a: real, x: real, b: real) { (a <= x <= b) || (b <= x <= a) }

  predicate BetweenVec(a: Vec, v: Vec, b: Vec) {
    Between(a.x, v.x, b.x) && Between(a.y, v.y, b.y) && Between(a.z, v.z, b.z)
  }

  /** x lies on the line through a at t0 and b at t1, at time t. */
  predicate OnLine(t0: int, t1: int, t: int, a: real, x: real, b: real) {
    x * (t1 - t0) as real == a * (t1 - t) as real + b * (t - t0) as real
  }

  predicate OnLineVec(t0: int, t1: int, t: int, a: Vec, v: Vec, b: Vec) {
    OnLine(t0, t1, t, a.x, v.x, b.x) && OnLine(t0, t1, t, a.y, v.y, b.y) && OnLine(t0, t1, t, a.z, v.z, b.z)
  }

  lemma LerpIsBetween(t0: int, t1: int, t: int, a: real, b: real)
    requires t0 <= t <= t1 && t0 < t1
    ensures var x := Lerp(a, b, (t - t0) as real / (t1 - t0) as real); Between(a, x, b) && OnLine(t0, t1, t, a, x, b)
  {
    var n, d := (t - t0) as real, (t1 - t0) as real;
    var alpha, w := n / d, b - a;
    assert alpha * d == n;
    assert 0.0 <= alpha <= 1.0;
    assert w * alpha * d == w * n;
    var m := w * alpha;
    assert Lerp(a, b, alpha) == a + m;
    if w >= 0.0 { Scaled(w, alpha); } else { Scaled(-w, alpha); assert (-w) * alpha == -m; }
    assert (a + w * alpha) * d == a * d + w * n;
  }

  lemma Scaled(w: real, alpha: real)
    requires w >= 0.0 && 0.0 <= alpha <= 1.0
    ensures 0.0 <= w * alpha <= w
  {
    assert w * (1.0 - alpha) >= 0.0;
  }

  /** The answer stands between neighbours i and i + 1, at the time in question. */
  predicate Interpolates(slerp: (Turn, Turn, real) -> Turn, h: seq<Truth>, i: nat, timeNs: int, t: Truth) {
    && i + 1 < |h| && h[i].captureTimeNs < timeNs < h[i + 1].captureTimeNs
    && BetweenVec(h[i].position, t.position, h[i + 1].position)
    && OnLineVec(h[i].captureTimeNs, h[i + 1].captureTimeNs, timeNs, h[i].position, t.position, h[i + 1].position)
    && t.orientation == slerp(h[i].orientation, h[i + 1].orientation,
         (timeNs - h[i].captureTimeNs) as real / (h[i + 1].captureTimeNs - h[i].captureTimeNs) as real)
  }

  /**
   * The answer for a time: none exactly if the time lies outside the history; else it has that very time, it is the sample of
   * that time if there is one, and otherwise its position lies on the line between the two neighbours that bracket the time, and its
   * orientation is what the spherical interpolation gives for the same share of the way.
   */
  ghost predicate Answers(slerp: (Turn, Turn, real) -> Turn, h: seq<Truth>, timeNs: int, r: Option<Truth>) {
    && (r.None? <==> h == [] || timeNs < h[0].captureTimeNs || timeNs > Newest(h))
    && (r.Some? ==> r.value.captureTimeNs == timeNs)
    && (forall j :: 0 <= j < |h| && h[j].captureTimeNs == timeNs ==> r == Some(h[j]))
    && (r.Some? && r.value !in h ==> exists i: nat :: Interpolates(slerp, h, i, timeNs, r.value))
  }

  lemma InterpolatedIsBetween(slerp: (Turn, Turn, real) -> Turn, h: seq<Truth>, i: nat, timeNs: int, t: Truth)
    requires i + 1 < |h| && h[i].captureTimeNs < timeNs < h[i + 1].captureTimeNs
    requires var alpha, a, b := (timeNs - h[i].captureTimeNs) as real / (h[i + 1].captureTimeNs - h[i].captureTimeNs) as real, h[i].position, h[i + 1].position;
      && t.position == Vec(Lerp(a.x, b.x, alpha), Lerp(a.y, b.y, alpha), Lerp(a.z, b.z, alpha))
      && t.orientation == slerp(h[i].orientation, h[i + 1].orientation, alpha)
    ensures Interpolates(slerp, h, i, timeNs, t)
  {
    var t0, t1, a, b := h[i].captureTimeNs, h[i + 1].captureTimeNs, h[i].position, h[i + 1].position;
    LerpIsBetween(t0, t1, timeNs, a.x, b.x);
    LerpIsBetween(t0, t1, timeNs, a.y, b.y);
    LerpIsBetween(t0, t1, timeNs, a.z, b.z);
  }

  /** Halves the history down to the two samples around the time. */
  method TruthAtCaptureTime(slerp: (Turn, Turn, real) -> Turn, history: seq<Truth>, captureTimeNs: int) returns (r: Option<Truth>)
    requires Increasing(history)
    ensures Answers(slerp, history, captureTimeNs, r)
  {
    hide Interpolates;
    if history == [] { return None; }
    var high := |history| - 1;
    if captureTimeNs > history[high].captureTimeNs || captureTimeNs < history[0].captureTimeNs { return None; }
    var low := 0;
    while high - low > 1
      invariant 0 <= low <= high < |history| && (low < high || |history| == 1)
      invariant history[low].captureTimeNs <= captureTimeNs <= history[high].captureTimeNs
    {
      var middle := (low + high) / 2;
      if history[middle].captureTimeNs <= captureTimeNs { low := middle; } else { high := middle; }
    }
    var before, after := history[low], history[high];
    if before.captureTimeNs == captureTimeNs { return Some(before); }
    if after.captureTimeNs == captureTimeNs { return Some(after); }
    var alpha := (captureTimeNs - before.captureTimeNs) as real / (after.captureTimeNs - before.captureTimeNs) as real;
    var a, b := before.position, after.position;
    var position := Vec(Lerp(a.x, b.x, alpha), Lerp(a.y, b.y, alpha), Lerp(a.z, b.z, alpha));
    r := Some(Truth(captureTimeNs, position, slerp(before.orientation, after.orientation, alpha)));
    InterpolatedIsBetween(slerp, history, low, captureTimeNs, r.value);
  }
}
