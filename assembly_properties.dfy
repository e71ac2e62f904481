/**
 * What the assembly loop computes, stated against an independent reference: the annotations
 * whose (image, anchor) pair has not occurred earlier in the batch. From it follow the
 * first-wins policy, the label counters and the alignment of the parallel lists.
 */
module AssemblyProperties {
  import opened Common
  import opened AnchorAssembly

  /** The (image, anchor) pairs that occur among `xs`. */
  function Pairs(xs: seq<Tagged>): set<(int, int)>
  {
    set k | 0 <= k < |xs| :: PairOf(xs[k])
  }

  /** Annotation `n` is the first one of its (image, anchor) pair. */
  predicate FirstOfPair(xs: seq<Tagged>, n: nat)
    requires n < |xs|
  {
    forall m :: 0 <= m < n ==> PairOf(xs[m]) != PairOf(xs[n])
  }

  /** Reference definition of the surviving annotations: those that are first of their pair,
      in their original order. */
  function Kept(xs: seq<Tagged>): seq<Tagged>
  {
    if xs == [] then []
    else Kept(xs[..|xs| - 1]) + (if FirstOfPair(xs, |xs| - 1) then [xs[|xs| - 1]] else [])
  }

  function MaskOf(kept: seq<Tagged>): seq<(int, int)>
  {
    seq(|kept|, k requires 0 <= k < |kept| => PairOf(kept[k]))
  }

  function LabelsOf(kept: seq<Tagged>): seq<(int, int, int)>
  {
    seq(|kept|, k requires 0 <= k < |kept| => (kept[k].0, kept[k].1.anchor, kept[k].1.classLabel))
  }

  function IndexBlocks(kept: seq<Tagged>, p: nat): seq<seq<(int, int, int)>>
  {
    seq(|kept|, k requires 0 <= k < |kept| => ParamIndices(kept[k].0, kept[k].1.anchor, p))
  }

  function Deltas(kept: seq<Tagged>): seq<seq<real>>
  {
    seq(|kept|, k requires 0 <= k < |kept| => kept[k].1.delta)
  }

  function Boxes(kept: seq<Tagged>): seq<seq<real>>
  {
    seq(|kept|, k requires 0 <= k < |kept| => kept[k].1.box)
  }

  function Edges(kept: seq<Tagged>): seq<seq<real>>
  {
    seq(|kept|, k requires 0 <= k < |kept| => kept[k].1.edge)
  }

  /** Every annotation carries exactly `p` delta, box and edge values. */
  predicate Uniform(xs: seq<Tagged>, p: nat)
  {
    forall k :: 0 <= k < |xs| ==> |xs[k].1.delta| == p && |xs[k].1.box| == p && |xs[k].1.edge| == p
  }

  /** The state the loop reaches over `xs` is exactly the one the kept annotations describe. */
  predicate Describes(s: Sparse, xs: seq<Tagged>, p: nat)
  {
    var kept := Kept(xs);
    && s.seen == Pairs(xs)
    && s.maskIndices == MaskOf(kept)
    && s.labelIndices == LabelsOf(kept)
    && s.bboxIndices == Concat(IndexBlocks(kept, p))
    && s.edgeIndices == Concat(IndexBlocks(kept, p))
    && s.deltaValues == Concat(Deltas(kept))
    && s.boxValues == Concat(Boxes(kept))
    && s.edgeValues == Concat(Edges(kept))
    && s.numLabels == |xs|
    && s.numDiscarded + |kept| == |xs|
  }

  lemma PairsSnoc(xs: seq<Tagged>, x: Tagged)
    ensures Pairs(xs + [x]) == Pairs(xs) + {PairOf(x)}
  {
    var ys := xs + [x];
    forall q | q in Pairs(ys) ensures q in Pairs(xs) + {PairOf(x)} {
      var k :| 0 <= k < |ys| && PairOf(ys[k]) == q;
      if k < |xs| { assert ys[k] == xs[k]; }
    }
    forall q | q in Pairs(xs) ensures q in Pairs(ys) {
      var k :| 0 <= k < |xs| && PairOf(xs[k]) == q;
      assert ys[k] == xs[k];
    }
    assert PairOf(ys[|xs|]) == PairOf(x);
  }

  lemma FirstOfPairIsNew(xs: seq<Tagged>)
    requires xs != []
    ensures FirstOfPair(xs, |xs| - 1) <==> PairOf(xs[|xs| - 1]) !in Pairs(xs[..|xs| - 1])
  {
    var n := |xs| - 1;
    var init := xs[..n];
    if PairOf(xs[n]) in Pairs(init) {
      var m :| 0 <= m < n && PairOf(init[m]) == PairOf(xs[n]);
      assert PairOf(xs[m]) == PairOf(xs[n]);
    }
    if !FirstOfPair(xs, n) {
      var m :| 0 <= m < n && PairOf(xs[m]) == PairOf(xs[n]);
      assert PairOf(init[m]) in Pairs(init);
    }
  }

  lemma KeptSnoc(kept: seq<Tagged>, x: Tagged, p: nat)
    ensures MaskOf(kept + [x]) == MaskOf(kept) + [PairOf(x)]
    ensures LabelsOf(kept + [x]) == LabelsOf(kept) + [(x.0, x.1.anchor, x.1.classLabel)]
    ensures IndexBlocks(kept + [x], p) == IndexBlocks(kept, p) + [ParamIndices(x.0, x.1.anchor, p)]
    ensures Deltas(kept + [x]) == Deltas(kept) + [x.1.delta]
    ensures Boxes(kept + [x]) == Boxes(kept) + [x.1.box]
    ensures Edges(kept + [x]) == Edges(kept) + [x.1.edge]
  {
  }

  /** The loop state is the one the reference describes, whatever annotations it has seen. */
  lemma {:induction false} FoldDescribes(xs: seq<Tagged>, p: nat)
    ensures Describes(Fold(xs, p), xs, p)
  {
    if xs == [] {
      assert Pairs(xs) == {};
    } else {
      var n := |xs| - 1;
      var init := xs[..n];
      var x := xs[n];
      assert xs == init + [x];
      FoldDescribes(init, p);
      FoldSnoc(init, x, p);
      PairsSnoc(init, x);
      FirstOfPairIsNew(xs);
      var kept := Kept(init);
      if FirstOfPair(xs, n) {
        assert Kept(xs) == kept + [x];
        KeptSnoc(kept, x, p);
        ConcatSnoc(IndexBlocks(kept, p), ParamIndices(x.0, x.1.anchor, p));
        ConcatSnoc(Deltas(kept), x.1.delta);
        ConcatSnoc(Boxes(kept), x.1.box);
        ConcatSnoc(Edges(kept), x.1.edge);
      } else {
        assert Kept(xs) == kept;
      }
    }
  }
}

module AssemblyTheorems {
  import opened Common
  import opened AnchorAssembly
  import opened AssemblyProperties

  /** The kept annotations are annotations of the batch, at most one per pair, and every pair
      that occurs has one. */
  lemma {:induction false} KeptShape(xs: seq<Tagged>)
    ensures |Kept(xs)| <= |xs|
    ensures Distinct(MaskOf(Kept(xs)))
    ensures Pairs(Kept(xs)) == Pairs(xs)
    ensures forall k :: 0 <= k < |Kept(xs)| ==> Kept(xs)[k] in xs
  {
    if xs != [] {
      var n := |xs| - 1;
      var init := xs[..n];
      var x := xs[n];
      assert xs == init + [x];
      KeptShape(init);
      PairsSnoc(init, x);
      FirstOfPairIsNew(xs);
      var kept := Kept(init);
      if FirstOfPair(xs, n) {
        assert Kept(xs) == kept + [x];
        KeptSnoc(kept, x, 0);
        PairsSnoc(kept, x);
        forall k | 0 <= k < |kept| ensures MaskOf(kept)[k] != PairOf(x) {
          assert PairOf(kept[k]) in Pairs(kept);
        }
      } else {
        assert Kept(xs) == kept;
        assert PairOf(x) in Pairs(init);
      }
    }
  }

  /** An annotation that is first of its pair survives. */
  lemma {:induction false} FirstIsKept(xs: seq<Tagged>, n: nat)
    requires n < |xs| && FirstOfPair(xs, n)
    ensures exists k :: 0 <= k < |Kept(xs)| && Kept(xs)[k] == xs[n]
  {
    var last := |xs| - 1;
    var init := xs[..last];
    if n == last {
      assert Kept(xs) == Kept(init) + [xs[n]];
      assert Kept(xs)[|Kept(init)|] == xs[n];
    } else {
      assert FirstOfPair(init, n) by {
        forall m | 0 <= m < n ensures PairOf(init[m]) != PairOf(init[n]) {
          assert init[m] == xs[m];
        }
      }
      FirstIsKept(init, n);
      var k :| 0 <= k < |Kept(init)| && Kept(init)[k] == init[n];
      assert Kept(xs)[k] == Kept(init)[k];
    }
  }

  lemma {:induction false} FlattenLength(b: RawBatch)
    ensures |Flatten(b)| == TotalAnnotations(b)
  {
    if b != [] {
      FlattenLength(b[..|b| - 1]);
    }
  }

  lemma {:induction false} FlattenPrefix(b: RawBatch, i: nat)
    requires i <= |b|
    ensures Flatten(b[..i]) <= Flatten(b)
  {
    if i < |b| {
      var init := b[..|b| - 1];
      FlattenPrefix(init, i);
      assert init[..i] == b[..i];
    } else {
      assert b[..i] == b;
    }
  }

  lemma {:induction false} FlattenImagesBelow(b: RawBatch, i: nat)
    requires i <= |b|
    ensures forall m :: 0 <= m < |Flatten(b[..i])| ==> 0 <= Flatten(b[..i])[m].0 < i
  {
    if i > 0 {
      FlattenImagesBelow(b, i - 1);
      assert b[..i][..i - 1] == b[..i - 1];
    }
  }

  /** Annotation `j` of image `i` sits at position `|Flatten(b[..i])| + j` of the walk, and
      before image `i` the walk holds only annotations of earlier images. */
  lemma TagPrefixAt<T>(xs: seq<T>, f: seq<T>, t: seq<T>, k: nat)
    requires f + t <= xs && k < |t|
    ensures |f| + k < |xs| && xs[|f| + k] == t[k]
  {
    assert (f + t)[|f| + k] == t[k];
  }

  lemma FlattenAt(b: RawBatch, i: nat, j: nat)
    requires i < |b| && j < |b[i]|
    ensures |Flatten(b[..i])| + j < |Flatten(b)|
    ensures Flatten(b)[|Flatten(b[..i])| + j] == (i, b[i][j])
    ensures forall m :: 0 <= m < |Flatten(b[..i])| ==> Flatten(b)[m].0 < i
  {
    var xs := Flatten(b);
    var f := Flatten(b[..i]);
    var g := Flatten(b[..i + 1]);
    OuterStep(b, i);
    assert b[i][..|b[i]|] == b[i];
    var t := Tag(i, b[i]);
    assert g == f + t;
    FlattenPrefix(b, i + 1);
    assert g <= xs;
    FlattenImagesBelow(b, i);
    forall m | 0 <= m < |f| ensures xs[m].0 < i {
      assert xs[m] == g[m] == f[m];
    }
    TagPrefixAt(xs, f, t, j);
  }

  /** Annotation `j` of image `i` is the first of image `i` to target its anchor. */
  predicate FirstInImage(b: RawBatch, i: nat, j: nat)
    requires i < |b| && j < |b[i]|
  {
    forall j' :: 0 <= j' < j ==> b[i][j'].anchor != b[i][j].anchor
  }

  lemma FirstInImageIsFirstOfPair(b: RawBatch, i: nat, j: nat)
    requires i < |b| && j < |b[i]|
    ensures |Flatten(b[..i])| + j < |Flatten(b)|
    ensures FirstInImage(b, i, j) <==> FirstOfPair(Flatten(b), |Flatten(b[..i])| + j)
  {
    var xs := Flatten(b);
    var off := |Flatten(b[..i])|;
    FlattenAt(b, i, j);
    if FirstInImage(b, i, j) {
      forall m | 0 <= m < off + j ensures PairOf(xs[m]) != PairOf(xs[off + j]) {
        if m >= off {
          FlattenAt(b, i, m - off);
        }
      }
    }
    if FirstOfPair(xs, off + j) {
      forall j' | 0 <= j' < j ensures b[i][j'].anchor != b[i][j].anchor {
        FlattenAt(b, i, j');
        assert PairOf(xs[off + j']) != PairOf(xs[off + j]);
      }
    }
  }

  /** Counting: every annotation is counted; each is either kept (one mask entry) or
      discarded; the mask entries are pairwise distinct and are exactly the seen set; the
      parallel lists have one entry (labels) or `p` entries (indices, and values when every
      annotation has `p` of each) per mask entry. */
  lemma Counting(batch: RawBatch, p: nat)
    ensures var s := Fold(Flatten(batch), p);
      && s.numLabels == TotalAnnotations(batch)
      && s.numLabels == |s.maskIndices| + s.numDiscarded
      && |s.labelIndices| == |s.maskIndices|
      && Distinct(s.maskIndices)
      && s.seen == (set k | 0 <= k < |s.maskIndices| :: s.maskIndices[k])
      && |s.bboxIndices| == p * |s.maskIndices|
      && |s.edgeIndices| == p * |s.maskIndices|
    ensures var s := Fold(Flatten(batch), p);
      Uniform(Flatten(batch), p) ==>
        |s.deltaValues| == p * |s.maskIndices| && |s.boxValues| == p * |s.maskIndices|
        && |s.edgeValues| == p * |s.maskIndices|
  {
    var xs := Flatten(batch);
    var s := Fold(xs, p);
    var kept := Kept(xs);
    FoldDescribes(xs, p);
    FlattenLength(batch);
    KeptShape(xs);
    assert s.seen == (set k | 0 <= k < |s.maskIndices| :: s.maskIndices[k]) by {
      forall q | q in Pairs(kept) ensures q in (set k | 0 <= k < |s.maskIndices| :: s.maskIndices[k]) {
        var k :| 0 <= k < |kept| && PairOf(kept[k]) == q;
        assert s.maskIndices[k] == q;
      }
    }
    ConcatUniformLength(IndexBlocks(kept, p), p);
    if Uniform(xs, p) {
      assert forall k :: 0 <= k < |kept| ==> |kept[k].1.delta| == p && |kept[k].1.box| == p && |kept[k].1.edge| == p;
      ConcatUniformLength(Deltas(kept), p);
      ConcatUniformLength(Boxes(kept), p);
      ConcatUniformLength(Edges(kept), p);
    }
  }
}

/** The first-wins policy and the alignment of the parallel lists, in the batch's own terms. */
module FirstWinsTheorems {
  import opened Common
  import opened AnchorAssembly
  import opened AssemblyProperties
  import opened AssemblyTheorems

  /** Position of the first annotation that targets anchor `a` (or `|anns|` if none does). */
  function FirstAt(anns: seq<Annotation>, a: int): (r: nat)
    ensures r <= |anns|
    ensures r < |anns| ==> anns[r].anchor == a
    ensures forall k :: 0 <= k < r ==> anns[k].anchor != a
  {
    if anns == [] then 0
    else if anns[0].anchor == a then 0
    else 1 + FirstAt(anns[1..], a)
  }

  lemma UniformKept(xs: seq<Tagged>, p: nat)
    requires Uniform(xs, p)
    ensures Uniform(Kept(xs), p)
  {
    KeptShape(xs);
    var kept := Kept(xs);
    forall k | 0 <= k < |kept|
      ensures |kept[k].1.delta| == p && |kept[k].1.box| == p && |kept[k].1.edge| == p
    {
      assert kept[k] in xs;
      var n :| 0 <= n < |xs| && xs[n] == kept[k];
    }
  }

  /** First wins: whichever annotation `j` of image `i` is looked at, the slot of its
      (image, anchor) pair exists exactly once and holds the label and, when every annotation
      carries `p` values, the box delta, box and edge values of the FIRST annotation of image
      `i` that targets the same anchor; later colliding annotations never overwrite it. */
  lemma FirstWins(batch: RawBatch, p: nat, i: nat, j: nat)
    requires i < |batch| && j < |batch[i]|
    ensures var s := Fold(Flatten(batch), p);
      var a := batch[i][j].anchor;
      var first := batch[i][FirstAt(batch[i], a)];
      && FirstAt(batch[i], a) <= j
      && (i, a) in s.seen
      && |s.labelIndices| == |s.maskIndices|
      && (exists k :: 0 <= k < |s.maskIndices| && s.maskIndices[k] == (i, a))
      && (forall k :: 0 <= k < |s.maskIndices| && s.maskIndices[k] == (i, a) ==>
            s.labelIndices[k] == (i, a, first.classLabel))
    ensures var s := Fold(Flatten(batch), p);
      var a := batch[i][j].anchor;
      var first := batch[i][FirstAt(batch[i], a)];
      Uniform(Flatten(batch), p) ==>
        forall k :: 0 <= k < |s.maskIndices| && s.maskIndices[k] == (i, a) ==>
          && p * k + p <= |s.deltaValues| && Block(s.deltaValues, p, k) == first.delta
          && p * k + p <= |s.boxValues| && Block(s.boxValues, p, k) == first.box
          && p * k + p <= |s.edgeValues| && Block(s.edgeValues, p, k) == first.edge
  {
    var xs := Flatten(batch);
    var s := Fold(xs, p);
    var a := batch[i][j].anchor;
    var j0 := FirstAt(batch[i], a);
    var first := batch[i][j0];
    FirstInImageIsFirstOfPair(batch, i, j0);
    var n := |Flatten(batch[..i])| + j0;
    FlattenAt(batch, i, j0);
    assert xs[n] == (i, first);
    FirstIsKept(xs, n);
    FoldDescribes(xs, p);
    KeptShape(xs);
    var kept := Kept(xs);
    var k0 :| 0 <= k0 < |kept| && kept[k0] == xs[n];
    assert s.maskIndices[k0] == (i, a);
    assert PairOf(xs[n]) in Pairs(xs);
    forall k | 0 <= k < |s.maskIndices| && s.maskIndices[k] == (i, a)
      ensures k == k0
    {
      assert MaskOf(kept)[k] == MaskOf(kept)[k0];
    }
    if Uniform(xs, p) {
      UniformKept(xs, p);
      ConcatUniformBlock(Deltas(kept), p, k0);
      ConcatUniformBlock(Boxes(kept), p, k0);
      ConcatUniformBlock(Edges(kept), p, k0);
    }
  }

  /** Alignment: entry `k` of the label list and block `k` of the index lists belong to the
      pair of mask entry `k`; the index blocks are `[i, a, 0] .. [i, a, p - 1]`. */
  lemma Alignment(batch: RawBatch, p: nat)
    ensures var s := Fold(Flatten(batch), p);
      && |s.labelIndices| == |s.maskIndices|
      && |s.bboxIndices| == p * |s.maskIndices|
      && |s.edgeIndices| == p * |s.maskIndices|
      && forall k :: 0 <= k < |s.maskIndices| ==>
           && (s.labelIndices[k].0, s.labelIndices[k].1) == s.maskIndices[k]
           && p * k + p <= |s.bboxIndices|
           && Block(s.bboxIndices, p, k) == ParamIndices(s.maskIndices[k].0, s.maskIndices[k].1, p)
           && Block(s.edgeIndices, p, k) == ParamIndices(s.maskIndices[k].0, s.maskIndices[k].1, p)
  {
    var xs := Flatten(batch);
    var s := Fold(xs, p);
    FoldDescribes(xs, p);
    var kept := Kept(xs);
    ConcatUniformLength(IndexBlocks(kept, p), p);
    forall k | 0 <= k < |s.maskIndices|
      ensures p * k + p <= |s.bboxIndices|
      ensures Block(s.bboxIndices, p, k) == ParamIndices(s.maskIndices[k].0, s.maskIndices[k].1, p)
    {
      ConcatUniformBlock(IndexBlocks(kept, p), p, k);
    }
  }
}
