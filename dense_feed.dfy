/**
 * The dense feed of `_load_data`: each sparse index/value list is scattered into a zero
 * tensor of shape [BATCH, ANCHORS, .]. `sparse_to_dense`, from `utils/util`, is modelled as:
 * start from zeros, write value k at index k, in order.
 */
module DenseFeed {
  import opened Common
  import opened AnchorAssembly

  /** A rank-3 tensor of reals, indexed [image][anchor][slot]. */
  type Tensor = seq<seq<seq<real>>>

  type Index = (int, int, int)

  predicate HasShape(t: Tensor, d0: nat, d1: nat, d2: nat)
  {
    && |t| == d0
    && forall i :: 0 <= i < d0 ==> |t[i]| == d1 && forall a :: 0 <= a < d1 ==> |t[i][a]| == d2
  }

  predicate InBounds(q: Index, d0: nat, d1: nat, d2: nat)
  {
    0 <= q.0 < d0 && 0 <= q.1 < d1 && 0 <= q.2 < d2
  }

  predicate AllInBounds(idx: seq<Index>, d0: nat, d1: nat, d2: nat)
  {
    forall k :: 0 <= k < |idx| ==> InBounds(idx[k], d0, d1, d2)
  }

  function At(t: Tensor, q: Index, d0: nat, d1: nat, d2: nat): real
    requires HasShape(t, d0, d1, d2) && InBounds(q, d0, d1, d2)
  {
    t[q.0][q.1][q.2]
  }

  function Zeros(d0: nat, d1: nat, d2: nat): (t: Tensor)
    ensures HasShape(t, d0, d1, d2)
    ensures forall q :: InBounds(q, d0, d1, d2) ==> At(t, q, d0, d1, d2) == 0.0
  {
    seq(d0, _ => seq(d1, _ => seq(d2, _ => 0.0)))
  }

  /** `t` with the single entry `q` set to `v` (numpy's `array[tuple(idx)] = value`). */
  function Write(t: Tensor, q: Index, v: real, d0: nat, d1: nat, d2: nat): (r: Tensor)
    requires HasShape(t, d0, d1, d2) && InBounds(q, d0, d1, d2)
    ensures HasShape(r, d0, d1, d2)
    ensures forall q' :: InBounds(q', d0, d1, d2) ==>
      At(r, q', d0, d1, d2) == if q' == q then v else At(t, q', d0, d1, d2)
  {
    t[q.0 := t[q.0][q.1 := t[q.0][q.1][q.2 := v]]]
  }

  /** `sparse_to_dense(idx, shape, vals)` applied to `t`: `vals[k]` is written at `idx[k]`,
      for k in order. */
  function Scatter(t: Tensor, idx: seq<Index>, vals: seq<real>, d0: nat, d1: nat, d2: nat): (r: Tensor)
    requires HasShape(t, d0, d1, d2) && |idx| == |vals| && AllInBounds(idx, d0, d1, d2)
    ensures HasShape(r, d0, d1, d2)
  {
    if idx == [] then t
    else
      var n := |idx| - 1;
      Write(Scatter(t, idx[..n], vals[..n], d0, d1, d2), idx[n], vals[n], d0, d1, d2)
  }

  /** With pairwise distinct indices, the scattered tensor holds `vals[k]` at `idx[k]` and is
      unchanged everywhere else. */
  lemma {:induction false} ScatterDistinct(t: Tensor, idx: seq<Index>, vals: seq<real>, d0: nat, d1: nat, d2: nat)
    requires HasShape(t, d0, d1, d2) && |idx| == |vals| && AllInBounds(idx, d0, d1, d2)
    requires Distinct(idx)
    ensures forall k :: 0 <= k < |idx| ==> At(Scatter(t, idx, vals, d0, d1, d2), idx[k], d0, d1, d2) == vals[k]
    ensures forall q :: InBounds(q, d0, d1, d2) && q !in idx ==>
      At(Scatter(t, idx, vals, d0, d1, d2), q, d0, d1, d2) == At(t, q, d0, d1, d2)
  {
    if idx != [] {
      var n := |idx| - 1;
      var pre, preVals := idx[..n], vals[..n];
      ScatterDistinct(t, pre, preVals, d0, d1, d2);
      var r := Scatter(t, idx, vals, d0, d1, d2);
      forall k | 0 <= k < |idx| ensures At(r, idx[k], d0, d1, d2) == vals[k] {
        if k < n {
          assert pre[k] == idx[k] && preVals[k] == vals[k];
        }
      }
      forall q | InBounds(q, d0, d1, d2) && q !in idx
        ensures At(r, q, d0, d1, d2) == At(t, q, d0, d1, d2)
      {
        assert q !in pre;
      }
    }
  }

  /** Pointwise forms of `ScatterDistinct`: the entry at a written index, */
  lemma ScatterHit(t: Tensor, idx: seq<Index>, vals: seq<real>, d0: nat, d1: nat, d2: nat, m: nat)
    requires HasShape(t, d0, d1, d2) && |idx| == |vals| && AllInBounds(idx, d0, d1, d2)
    requires Distinct(idx) && m < |idx|
    ensures InBounds(idx[m], d0, d1, d2)
    ensures At(Scatter(t, idx, vals, d0, d1, d2), idx[m], d0, d1, d2) == vals[m]
  {
    ScatterDistinct(t, idx, vals, d0, d1, d2);
  }

  /** and the entry at an index that is not written. */
  lemma ScatterMiss(t: Tensor, idx: seq<Index>, vals: seq<real>, d0: nat, d1: nat, d2: nat, q: Index)
    requires HasShape(t, d0, d1, d2) && |idx| == |vals| && AllInBounds(idx, d0, d1, d2)
    requires Distinct(idx) && InBounds(q, d0, d1, d2) && q !in idx
    ensures At(Scatter(t, idx, vals, d0, d1, d2), q, d0, d1, d2) == At(t, q, d0, d1, d2)
  {
    ScatterDistinct(t, idx, vals, d0, d1, d2);
  }

  /** The tensors fed to the model for one batch. */
  datatype Feed = Feed(mask: Tensor, boxDelta: Tensor, boxValue: Tensor, labels: Tensor, edgeAdhesion: seq<seq<seq<bool>>>)

  function Ones(n: nat): (r: seq<real>)
    ensures |r| == n && forall k :: 0 <= k < n ==> r[k] == 1.0
  {
    seq(n, _ => 1.0)
  }

  /** The [BATCH, ANCHORS] mask indices reshaped to [BATCH, ANCHORS, 1]: entry (i, a)
      becomes (i, a, 0). */
  function MaskSlots(mask: seq<(int, int)>): (r: seq<Index>)
    ensures |r| == |mask| && forall k :: 0 <= k < |mask| ==> r[k] == (mask[k].0, mask[k].1, 0)
  {
    seq(|mask|, k requires 0 <= k < |mask| => (mask[k].0, mask[k].1, 0))
  }

  /** A rank-2 tensor of reals, indexed [image][anchor]: the mask before its reshape. */
  type Matrix = seq<seq<real>>

  predicate HasShape2(m: Matrix, d0: nat, d1: nat)
  {
    |m| == d0 && forall i :: 0 <= i < d0 ==> |m[i]| == d1
  }

  predicate AllInBounds2(idx: seq<(int, int)>, d0: nat, d1: nat)
  {
    forall k :: 0 <= k < |idx| ==> 0 <= idx[k].0 < d0 && 0 <= idx[k].1 < d1
  }

  function Zeros2(d0: nat, d1: nat): (m: Matrix)
    ensures HasShape2(m, d0, d1)
  {
    seq(d0, _ => seq(d1, _ => 0.0))
  }

  function Write2(m: Matrix, q: (int, int), v: real, d0: nat, d1: nat): (r: Matrix)
    requires HasShape2(m, d0, d1) && 0 <= q.0 < d0 && 0 <= q.1 < d1
    ensures HasShape2(r, d0, d1)
  {
    m[q.0 := m[q.0][q.1 := v]]
  }

  /** `sparse_to_dense` with a two-dimensional output shape. */
  function Scatter2(m: Matrix, idx: seq<(int, int)>, vals: seq<real>, d0: nat, d1: nat): (r: Matrix)
    requires HasShape2(m, d0, d1) && |idx| == |vals| && AllInBounds2(idx, d0, d1)
    ensures HasShape2(r, d0, d1)
  {
    if idx == [] then m
    else
      var n := |idx| - 1;
      Write2(Scatter2(m, idx[..n], vals[..n], d0, d1), idx[n], vals[n], d0, d1)
  }

  /** `np.reshape(m, [d0, d1, 1])`: entry (i, a) becomes the one-element row (i, a, 0). */
  function Reshape(m: Matrix, d0: nat, d1: nat): (t: Tensor)
    requires HasShape2(m, d0, d1)
    ensures HasShape(t, d0, d1, 1)
  {
    seq(d0, i requires 0 <= i < d0 => seq(d1, a requires 0 <= a < d1 => [m[i][a]]))
  }

  lemma ReshapeZeros(d0: nat, d1: nat)
    ensures Reshape(Zeros2(d0, d1), d0, d1) == Zeros(d0, d1, 1)
  {
    var lhs, rhs := Reshape(Zeros2(d0, d1), d0, d1), Zeros(d0, d1, 1);
    forall i | 0 <= i < d0 ensures lhs[i] == rhs[i] {
      forall a | 0 <= a < d1 ensures lhs[i][a] == rhs[i][a] {
        assert At(rhs, (i, a, 0), d0, d1, 1) == 0.0;
      }
    }
  }

  lemma ReshapeWrite(m: Matrix, q: (int, int), v: real, d0: nat, d1: nat)
    requires HasShape2(m, d0, d1) && 0 <= q.0 < d0 && 0 <= q.1 < d1
    ensures Reshape(Write2(m, q, v, d0, d1), d0, d1)
            == Write(Reshape(m, d0, d1), (q.0, q.1, 0), v, d0, d1, 1)
  {
    var lhs := Reshape(Write2(m, q, v, d0, d1), d0, d1);
    var rhs := Write(Reshape(m, d0, d1), (q.0, q.1, 0), v, d0, d1, 1);
    forall i | 0 <= i < d0 ensures lhs[i] == rhs[i] {
      forall a | 0 <= a < d1 ensures lhs[i][a] == rhs[i][a] {
        assert At(rhs, (i, a, 0), d0, d1, 1) == rhs[i][a][0];
      }
    }
  }

  /** Reshaping the two-dimensional scatter of the mask indices is the same as scattering
      the reshaped indices `(i, a, 0)` into the reshaped tensor. */
  lemma {:induction false} ReshapeScatter(m: Matrix, idx: seq<(int, int)>, vals: seq<real>, d0: nat, d1: nat)
    requires HasShape2(m, d0, d1) && |idx| == |vals| && AllInBounds2(idx, d0, d1)
    ensures AllInBounds(MaskSlots(idx), d0, d1, 1)
    ensures Reshape(Scatter2(m, idx, vals, d0, d1), d0, d1)
            == Scatter(Reshape(m, d0, d1), MaskSlots(idx), vals, d0, d1, 1)
  {
    if idx != [] {
      var n := |idx| - 1;
      ReshapeScatter(m, idx[..n], vals[..n], d0, d1);
      assert MaskSlots(idx)[..n] == MaskSlots(idx[..n]);
      ReshapeWrite(Scatter2(m, idx[..n], vals[..n], d0, d1), idx[n], vals[n], d0, d1);
    }
  }

  /** `.astype(np.bool)`: a nonzero entry is true. */
  function ToBool(t: Tensor): seq<seq<seq<bool>>>
  {
    seq(|t|, i requires 0 <= i < |t| => seq(|t[i]|, a requires 0 <= a < |t[i]| =>
      seq(|t[i][a]|, k requires 0 <= k < |t[i][a]| => t[i][a][k] != 0.0)))
  }

  /** What the five `sparse_to_dense` calls need of the sparse lists: as many values as
      indices, and every index inside the tensor's shape. */
  predicate Feedable(s: Sparse, batchSize: nat, anchors: nat, classes: nat, p: nat)
  {
    && |s.bboxIndices| == |s.deltaValues| && |s.bboxIndices| == |s.boxValues|
    && |s.edgeIndices| == |s.edgeValues|
    && AllInBounds2(s.maskIndices, batchSize, anchors)
    && AllInBounds(s.bboxIndices, batchSize, anchors, p)
    && AllInBounds(s.edgeIndices, batchSize, anchors, p)
    && AllInBounds(s.labelIndices, batchSize, anchors, classes)
  }

  /** The feed dictionary's dense tensors (src/train.py, `feed_dict`), each of the shape its
      placeholder declares. */
  function BuildFeed(s: Sparse, batchSize: nat, anchors: nat, classes: nat, p: nat): (f: Feed)
    requires Feedable(s, batchSize, anchors, classes, p)
    ensures HasShape(f.mask, batchSize, anchors, 1)
    ensures HasShape(f.boxDelta, batchSize, anchors, p) && HasShape(f.boxValue, batchSize, anchors, p)
    ensures HasShape(f.labels, batchSize, anchors, classes)
    ensures |f.edgeAdhesion| == batchSize
  {
    var mask := Scatter2(Zeros2(batchSize, anchors), s.maskIndices, Ones(|s.maskIndices|), batchSize, anchors);
    Feed(
      Reshape(mask, batchSize, anchors),
      Scatter(Zeros(batchSize, anchors, p), s.bboxIndices, s.deltaValues, batchSize, anchors, p),
      Scatter(Zeros(batchSize, anchors, p), s.bboxIndices, s.boxValues, batchSize, anchors, p),
      Scatter(Zeros(batchSize, anchors, classes), s.labelIndices, Ones(|s.labelIndices|), batchSize, anchors, classes),
      ToBool(Scatter(Zeros(batchSize, anchors, p), s.edgeIndices, s.edgeValues, batchSize, anchors, p)))
  }
}
