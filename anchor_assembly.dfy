/**
 * The anchor-label assembler of `_load_data`: one batch of per-image annotation lists is
 * turned into parallel sparse index/value lists, keeping at most one ground-truth object per
 * (image, anchor) pair. The first annotation for a pair wins; every later one is counted as
 * discarded and contributes nothing.
 */
module AnchorAssembly {
  import opened Common

  /** One ground-truth object of one image, as the dataset reader delivers it: class label,
      anchor index, regression target, raw box (or polygon) coordinates and edge flags. */
  datatype Annotation = Annotation(classLabel: int, anchor: int, delta: seq<real>, box: seq<real>, edge: seq<real>)

  /** The annotation lists of the images of one batch, image by image. */
  type RawBatch = seq<seq<Annotation>>

  /** An annotation tagged with the index of its image. */
  type Tagged = (int, Annotation)

  /** The sparse lists and counters the assembly loop builds. `seen` is the set of
      (image, anchor) pairs already assigned. */
  datatype Sparse = Sparse(
    seen: set<(int, int)>,
    labelIndices: seq<(int, int, int)>,
    maskIndices: seq<(int, int)>,
    bboxIndices: seq<(int, int, int)>,
    deltaValues: seq<real>,
    boxValues: seq<real>,
    edgeValues: seq<real>,
    edgeIndices: seq<(int, int, int)>,
    numLabels: nat,
    numDiscarded: nat)

  const Empty: Sparse := Sparse({}, [], [], [], [], [], [], [], 0, 0)

  function PairOf(x: Tagged): (int, int)
  {
    (x.0, x.1.anchor)
  }

  /** The `p` per-parameter indices `[i, a, 0] .. [i, a, p - 1]` of one anchor slot. */
  function ParamIndices(i: int, a: int, p: nat): (r: seq<(int, int, int)>)
    ensures |r| == p
    ensures forall k :: 0 <= k < p ==> r[k] == (i, a, k)
  {
    seq(p, k => (i, a, k))
  }

  /** All annotations of the batch, tagged with their image, in image-then-annotation order. */
  function Flatten(b: RawBatch): seq<Tagged>
  {
    if b == [] then [] else Flatten(b[..|b| - 1]) + Tag(|b| - 1, b[|b| - 1])
  }

  function Tag(i: int, xs: seq<Annotation>): (r: seq<Tagged>)
    ensures |r| == |xs|
    ensures forall k :: 0 <= k < |xs| ==> r[k] == (i, xs[k])
  {
    seq(|xs|, k requires 0 <= k < |xs| => (i, xs[k]))
  }

  /** Total number of annotations in the batch. */
  function TotalAnnotations(b: RawBatch): nat
  {
    if b == [] then 0 else TotalAnnotations(b[..|b| - 1]) + |b[|b| - 1]|
  }

  /** One iteration of the inner loop body: count the annotation, and either record it
      (its pair is new) or count it as discarded. */
  function Record(s: Sparse, x: Tagged, p: nat): Sparse
  {
    var (i, ann) := x;
    var a := ann.anchor;
    if (i, a) !in s.seen then
      s.(seen := s.seen + {(i, a)},
         labelIndices := s.labelIndices + [(i, a, ann.classLabel)],
         maskIndices := s.maskIndices + [(i, a)],
         bboxIndices := s.bboxIndices + ParamIndices(i, a, p),
         deltaValues := s.deltaValues + ann.delta,
         boxValues := s.boxValues + ann.box,
         edgeValues := s.edgeValues + ann.edge,
         edgeIndices := s.edgeIndices + ParamIndices(i, a, p),
         numLabels := s.numLabels + 1)
    else
      s.(numLabels := s.numLabels + 1, numDiscarded := s.numDiscarded + 1)
  }

  /** The state after the loop has processed `xs` in order. */
  function Fold(xs: seq<Tagged>, p: nat): Sparse
  {
    if xs == [] then Empty else Record(Fold(xs[..|xs| - 1], p), xs[|xs| - 1], p)
  }

  lemma FoldSnoc(xs: seq<Tagged>, x: Tagged, p: nat)
    ensures Fold(xs + [x], p) == Record(Fold(xs, p), x, p)
  {
    assert (xs + [x])[..|xs|] == xs;
  }

  lemma InnerStep(batch: RawBatch, i: nat, j: nat, p: nat)
    requires i < |batch| && j < |batch[i]|
    ensures Fold(Flatten(batch[..i]) + Tag(i, batch[i][..j + 1]), p)
            == Record(Fold(Flatten(batch[..i]) + Tag(i, batch[i][..j]), p), (i, batch[i][j]), p)
  {
    var before := Flatten(batch[..i]) + Tag(i, batch[i][..j]);
    assert Tag(i, batch[i][..j + 1]) == Tag(i, batch[i][..j]) + [(i, batch[i][j])];
    assert Flatten(batch[..i]) + Tag(i, batch[i][..j + 1]) == before + [(i, batch[i][j])];
    FoldSnoc(before, (i, batch[i][j]), p);
  }

  lemma OuterStep(batch: RawBatch, i: nat)
    requires i < |batch|
    ensures Flatten(batch[..i + 1]) == Flatten(batch[..i]) + Tag(i, batch[i][..|batch[i]|])
  {
    assert batch[i][..|batch[i]|] == batch[i];
    assert batch[..i + 1][..i] == batch[..i];
  }

  /** The assembly loop of `_load_data`: walks the images of the batch and, within each, its
      annotations in order, building the sparse lists; `p` is the mask parameterization. */
  method Assemble(batch: RawBatch, p: nat) returns (s: Sparse)
    ensures s == Fold(Flatten(batch), p)
  {
    var labelIndices, bboxIndices, deltaValues, maskIndices := [], [], [], [];
    var boxValues, edgeValues, edgeIndices := [], [], [];
    var seen: set<(int, int)> := {};
    var numDiscarded: nat := 0;
    var numLabels: nat := 0;
    var i := 0;
    while i < |batch|
      invariant 0 <= i <= |batch|
      invariant Sparse(seen, labelIndices, maskIndices, bboxIndices, deltaValues, boxValues,
                       edgeValues, edgeIndices, numLabels, numDiscarded) == Fold(Flatten(batch[..i]), p)
    {
      var j := 0;
      assert Flatten(batch[..i]) + Tag(i, batch[i][..0]) == Flatten(batch[..i]);
      while j < |batch[i]|
        invariant 0 <= j <= |batch[i]|
        invariant Sparse(seen, labelIndices, maskIndices, bboxIndices, deltaValues, boxValues,
                         edgeValues, edgeIndices, numLabels, numDiscarded)
                  == Fold(Flatten(batch[..i]) + Tag(i, batch[i][..j]), p)
      {
        ghost var cur := Sparse(seen, labelIndices, maskIndices, bboxIndices, deltaValues, boxValues,
                                edgeValues, edgeIndices, numLabels, numDiscarded);
        var ann := batch[i][j];
        numLabels := numLabels + 1;
        if (i, ann.anchor) !in seen {
          seen := seen + {(i, ann.anchor)};
          labelIndices := labelIndices + [(i, ann.anchor, ann.classLabel)];
          maskIndices := maskIndices + [(i, ann.anchor)];
          bboxIndices := bboxIndices + ParamIndices(i, ann.anchor, p);
          deltaValues := deltaValues + ann.delta;
          boxValues := boxValues + ann.box;
          edgeValues := edgeValues + ann.edge;
          edgeIndices := edgeIndices + ParamIndices(i, ann.anchor, p);
        } else {
          numDiscarded := numDiscarded + 1;
        }
        assert Sparse(seen, labelIndices, maskIndices, bboxIndices, deltaValues, boxValues,
                      edgeValues, edgeIndices, numLabels, numDiscarded) == Record(cur, (i, ann), p);
        InnerStep(batch, i, j, p);
        j := j + 1;
      }
      OuterStep(batch, i);
      i := i + 1;
    }
    assert batch[..i] == batch;
    s := Sparse(seen, labelIndices, maskIndices, bboxIndices, deltaValues, boxValues,
                edgeValues, edgeIndices, numLabels, numDiscarded);
  }
}
