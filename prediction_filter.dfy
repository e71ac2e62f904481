/**
 * The plot threshold filter of the visualisation step: of the detections the model's own
 * filter returns for one image, keep those whose probability is strictly above the plot
 * threshold, in their original order, with boxes, probabilities and classes kept aligned.
 */
module PredictionFilter {

  /** The positions `0 .. |probs| - 1` whose probability exceeds `thresh`, ascending. */
  function KeepIndices(probs: seq<real>, thresh: real): (r: seq<nat>)
    ensures forall k :: 0 <= k < |r| ==> r[k] < |probs| && probs[r[k]] > thresh
    ensures forall k, m :: 0 <= k < m < |r| ==> r[k] < r[m]
    ensures forall idx :: 0 <= idx < |probs| && probs[idx] > thresh ==> idx in r
  {
    if probs == [] then []
    else
      var n := |probs| - 1;
      KeepIndices(probs[..n], thresh) + (if probs[n] > thresh then [n] else [])
  }

  datatype Detections<B> = Detections(boxes: seq<B>, probs: seq<real>, classes: seq<int>)

  /** Every kept position names a box and a class (the lists are indexed by the positions
      of the probability list). */
  predicate Indexable<B>(d: Detections<B>, thresh: real)
  {
    forall k :: 0 <= k < |d.probs| && d.probs[k] > thresh ==> k < |d.boxes| && k < |d.classes|
  }

  function Select<T>(s: seq<T>, idx: seq<nat>): (r: seq<T>)
    requires forall k :: 0 <= k < |idx| ==> idx[k] < |s|
    ensures |r| == |idx| && forall k :: 0 <= k < |idx| ==> r[k] == s[idx[k]]
  {
    seq(|idx|, k requires 0 <= k < |idx| => s[idx[k]])
  }

  /** The three gathered lists: entry `k` of each output list is the entry of the input list
      at the `k`-th kept position. */
  function ThresholdFilter<B>(d: Detections<B>, thresh: real): (r: Detections<B>)
    requires Indexable(d, thresh)
    ensures |r.boxes| == |r.probs| == |r.classes| == |KeepIndices(d.probs, thresh)|
    ensures forall k :: 0 <= k < |r.probs| ==>
      var idx := KeepIndices(d.probs, thresh)[k];
      r.probs[k] == d.probs[idx] && r.boxes[k] == d.boxes[idx] && r.classes[k] == d.classes[idx]
  {
    var keep := KeepIndices(d.probs, thresh);
    Detections(Select(d.boxes, keep), Select(d.probs, keep), Select(d.classes, keep))
  }
}

module FilterTheorems {
  import opened PredictionFilter

  /** The number of positions whose probability exceeds `thresh`. */
  function CountAbove(probs: seq<real>, thresh: real): nat
  {
    |set k | 0 <= k < |probs| && probs[k] > thresh|
  }

  lemma KeepIndicesComplete(probs: seq<real>, thresh: real)
    ensures (set k | 0 <= k < |KeepIndices(probs, thresh)| :: KeepIndices(probs, thresh)[k])
      == (set k | 0 <= k < |probs| && probs[k] > thresh)
  {
    var keep := KeepIndices(probs, thresh);
    forall idx | 0 <= idx < |probs| && probs[idx] > thresh
      ensures idx in (set k | 0 <= k < |keep| :: keep[k])
    {
      var k :| 0 <= k < |keep| && keep[k] == idx;
    }
  }

  lemma {:induction false} DistinctCard(s: seq<nat>)
    requires forall k, m :: 0 <= k < m < |s| ==> s[k] < s[m]
    ensures |set k | 0 <= k < |s| :: s[k]| == |s|
  {
    if s != [] {
      var n := |s| - 1;
      DistinctCard(s[..n]);
      var before := set k | 0 <= k < n :: s[..n][k];
      var all := set k | 0 <= k < |s| :: s[k];
      assert all == before + {s[n]};
      assert s[n] !in before;
    }
  }

  /** The filter keeps exactly as many detections as there are probabilities above the
      threshold, and every kept probability is above it. */
  lemma FilterCount<B>(d: Detections<B>, thresh: real)
    requires Indexable(d, thresh)
    ensures |ThresholdFilter(d, thresh).probs| == CountAbove(d.probs, thresh)
    ensures forall k :: 0 <= k < |ThresholdFilter(d, thresh).probs| ==> ThresholdFilter(d, thresh).probs[k] > thresh
  {
    KeepIndicesComplete(d.probs, thresh);
    DistinctCard(KeepIndices(d.probs, thresh));
  }

  /** The positions `0 .. n - 1` in order. */
  function Positions(n: nat): (r: seq<nat>)
    ensures |r| == n && forall k :: 0 <= k < n ==> r[k] == k
  {
    seq(n, k requires 0 <= k < n => k)
  }

  lemma PositionsSnoc(n: nat)
    ensures Positions(n) + [n] == Positions(n + 1)
  {
  }

  /** When every probability is above the threshold, every position is kept. */
  lemma {:induction false} KeepAllAbove(probs: seq<real>, thresh: real)
    requires forall k :: 0 <= k < |probs| ==> probs[k] > thresh
    ensures KeepIndices(probs, thresh) == Positions(|probs|)
  {
    if probs != [] {
      var n := |probs| - 1;
      assert forall k :: 0 <= k < n ==> probs[..n][k] == probs[k];
      KeepAllAbove(probs[..n], thresh);
      assert KeepIndices(probs, thresh) == Positions(n) + [n];
      PositionsSnoc(n);
    }
  }

  /** Filtering the filtered detections again with the same threshold changes nothing. */
  lemma FilterIdempotent<B>(d: Detections<B>, thresh: real)
    requires Indexable(d, thresh)
    ensures Indexable(ThresholdFilter(d, thresh), thresh)
    ensures ThresholdFilter(ThresholdFilter(d, thresh), thresh) == ThresholdFilter(d, thresh)
  {
    var r := ThresholdFilter(d, thresh);
    var keep := KeepIndices(r.probs, thresh);
    assert keep == Positions(|r.probs|) by {
      KeepAllAbove(r.probs, thresh);
    }
    assert Select(r.boxes, keep) == r.boxes;
    assert Select(r.probs, keep) == r.probs;
    assert Select(r.classes, keep) == r.classes;
  }
}
