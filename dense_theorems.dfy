/**
 * What the dense feed holds, slot by slot, for a batch whose anchors, labels and value
 * vectors fit the tensors' shape [BATCH, ANCHORS, .].
 */
module DenseTheorems {
  import opened Common
  import opened AnchorAssembly
  import opened AssemblyProperties
  import opened AssemblyTheorems
  import opened FirstWinsTheorems
  import opened DenseFeed

  /** Every annotation fits the tensors: at most `batchSize` images, anchor and class inside
      the grid, and `p` delta, box and edge values each. */
  predicate FitsShape(batch: RawBatch, batchSize: nat, anchors: nat, classes: nat, p: nat)
  {
    && |batch| <= batchSize
    && forall i, j :: 0 <= i < |batch| && 0 <= j < |batch[i]| ==>
         && 0 <= batch[i][j].anchor < anchors
         && 0 <= batch[i][j].classLabel < classes
         && |batch[i][j].delta| == p && |batch[i][j].box| == p && |batch[i][j].edge| == p
  }

  /** Some annotation of image `i` targets anchor `a`. */
  predicate Targets(batch: RawBatch, i: int, a: int)
  {
    0 <= i < |batch| && exists j :: 0 <= j < |batch[i]| && batch[i][j].anchor == a
  }

  /** The first annotation of image `i` that targets anchor `a`. */
  function FirstFor(batch: RawBatch, i: int, a: int): (x: Annotation)
    requires Targets(batch, i, a)
    ensures x in batch[i] && x.anchor == a
  {
    var j :| 0 <= j < |batch[i]| && batch[i][j].anchor == a;
    assert FirstAt(batch[i], a) <= j;
    batch[i][FirstAt(batch[i], a)]
  }

  /** Every entry of the walk is annotation `j` of some image `i` of the batch. */
  lemma {:induction false} FlattenElements(b: RawBatch)
    ensures forall m :: 0 <= m < |Flatten(b)| ==>
      0 <= Flatten(b)[m].0 < |b| && Flatten(b)[m].1 in b[Flatten(b)[m].0]
  {
    if b != [] {
      var n := |b| - 1;
      var init := b[..n];
      FlattenElements(init);
      var xs := Flatten(b);
      assert xs == Flatten(init) + Tag(n, b[n]);
      forall m | 0 <= m < |xs| ensures 0 <= xs[m].0 < |b| && xs[m].1 in b[xs[m].0] {
        if m < |Flatten(init)| {
          assert xs[m] == Flatten(init)[m];
          assert init[xs[m].0] == b[xs[m].0];
        } else {
          assert xs[m] == Tag(n, b[n])[m - |Flatten(init)|];
        }
      }
    }
  }

  /** The pairs that occur in the walk are exactly the targeted (image, anchor) pairs. */
  lemma PairsTargets(b: RawBatch, i: int, a: int)
    ensures (i, a) in Pairs(Flatten(b)) <==> Targets(b, i, a)
  {
    var xs := Flatten(b);
    if (i, a) in Pairs(xs) {
      FlattenElements(b);
      var m :| 0 <= m < |xs| && PairOf(xs[m]) == (i, a);
      assert xs[m].1 in b[i];
    }
    if Targets(b, i, a) {
      var j :| 0 <= j < |b[i]| && b[i][j].anchor == a;
      FlattenAt(b, i, j);
      var n := |Flatten(b[..i])| + j;
      assert PairOf(xs[n]) == (i, a);
    }
  }

  lemma FitsShapeWalk(batch: RawBatch, batchSize: nat, anchors: nat, classes: nat, p: nat)
    requires FitsShape(batch, batchSize, anchors, classes, p)
    ensures Uniform(Flatten(batch), p)
    ensures forall m :: 0 <= m < |Flatten(batch)| ==>
      && 0 <= Flatten(batch)[m].0 < batchSize
      && 0 <= Flatten(batch)[m].1.anchor < anchors
      && 0 <= Flatten(batch)[m].1.classLabel < classes
  {
    FlattenElements(batch);
    var xs := Flatten(batch);
    forall m | 0 <= m < |xs|
      ensures && 0 <= xs[m].0 < batchSize && 0 <= xs[m].1.anchor < anchors
              && 0 <= xs[m].1.classLabel < classes
              && |xs[m].1.delta| == p && |xs[m].1.box| == p && |xs[m].1.edge| == p
    {
      var i := xs[m].0;
      var j :| 0 <= j < |batch[i]| && batch[i][j] == xs[m].1;
    }
  }

  /** The index blocks of distinct pairs are pairwise distinct, and every index in them
      belongs to a kept pair and a parameter slot below `p`. */
  lemma {:induction false} BlocksDistinct(kept: seq<Tagged>, p: nat)
    requires Distinct(MaskOf(kept))
    ensures Distinct(Concat(IndexBlocks(kept, p)))
    ensures forall e :: e in Concat(IndexBlocks(kept, p)) ==> (e.0, e.1) in Pairs(kept) && 0 <= e.2 < p
  {
    if kept != [] {
      var n := |kept| - 1;
      var init := kept[..n];
      var x := kept[n];
      assert kept == init + [x];
      KeptSnoc(init, x, p);
      assert MaskOf(init) == MaskOf(kept)[..n];
      BlocksDistinct(init, p);
      ConcatSnoc(IndexBlocks(init, p), ParamIndices(x.0, x.1.anchor, p));
      PairsSnoc(init, x);
      var front := Concat(IndexBlocks(init, p));
      var blk := ParamIndices(x.0, x.1.anchor, p);
      var all := front + blk;
      forall k | 0 <= k < |init| ensures PairOf(init[k]) != PairOf(x) {
        assert MaskOf(kept)[k] == PairOf(init[k]) && MaskOf(kept)[n] == PairOf(x);
      }
      assert PairOf(x) !in Pairs(init);
      forall m1, m2 | 0 <= m1 < m2 < |all| ensures all[m1] != all[m2] {
        if m2 >= |front| && m1 < |front| {
          assert all[m1] in front;
          assert all[m2] == blk[m2 - |front|];
        } else if m1 >= |front| {
          assert all[m1] == blk[m1 - |front|] && all[m2] == blk[m2 - |front|];
        }
      }
      forall e | e in all ensures (e.0, e.1) in Pairs(kept) && 0 <= e.2 < p {
        if e !in front {
          var t :| 0 <= t < |blk| && blk[t] == e;
        }
      }
    }
  }

  /** Everything the loop builds from a batch that fits the shape can be scattered. */
  lemma FeedableFromBatch(batch: RawBatch, batchSize: nat, anchors: nat, classes: nat, p: nat)
    requires FitsShape(batch, batchSize, anchors, classes, p)
    ensures Feedable(Fold(Flatten(batch), p), batchSize, anchors, classes, p)
  {
    var xs := Flatten(batch);
    var s := Fold(xs, p);
    var kept := Kept(xs);
    FitsShapeWalk(batch, batchSize, anchors, classes, p);
    Counting(batch, p);
    FoldDescribes(xs, p);
    KeptShape(xs);
    BlocksDistinct(kept, p);
    forall k | 0 <= k < |kept|
      ensures 0 <= kept[k].0 < batchSize && 0 <= kept[k].1.anchor < anchors && 0 <= kept[k].1.classLabel < classes
    {
      assert kept[k] in xs;
    }
    forall e | e in s.bboxIndices ensures InBounds(e, batchSize, anchors, p) {
      var k :| 0 <= k < |kept| && PairOf(kept[k]) == (e.0, e.1);
    }
    assert AllInBounds2(s.maskIndices, batchSize, anchors);
    assert AllInBounds(s.labelIndices, batchSize, anchors, classes);
  }

  /** The feed built from the batch (the requirements of the scatter hold by
      `FeedableFromBatch`). */
  function FeedOf(batch: RawBatch, batchSize: nat, anchors: nat, classes: nat, p: nat): Feed
    requires FitsShape(batch, batchSize, anchors, classes, p)
  {
    FeedableFromBatch(batch, batchSize, anchors, classes, p);
    BuildFeed(Fold(Flatten(batch), p), batchSize, anchors, classes, p)
  }

  /** Dense mask: 1.0 exactly at the (image, anchor) slots some annotation targets, 0.0
      elsewhere. */
  lemma DenseMask(batch: RawBatch, batchSize: nat, anchors: nat, classes: nat, p: nat, i: nat, a: nat)
    requires FitsShape(batch, batchSize, anchors, classes, p)
    requires i < batchSize && a < anchors
    ensures HasShape(FeedOf(batch, batchSize, anchors, classes, p).mask, batchSize, anchors, 1)
    ensures FeedOf(batch, batchSize, anchors, classes, p).mask[i][a][0] == if Targets(batch, i, a) then 1.0 else 0.0
  {
    var s := Fold(Flatten(batch), p);
    assert Feedable(s, batchSize, anchors, classes, p) by {
      FeedableFromBatch(batch, batchSize, anchors, classes, p);
    }
    var slots := MaskSlots(s.maskIndices);
    var q := (i, a, 0);
    assert Distinct(s.maskIndices) && (Targets(batch, i, a) <==> q in slots) by {
      Counting(batch, p);
      PairsTargets(batch, i, a);
      FoldDescribes(Flatten(batch), p);
      if Targets(batch, i, a) {
        var k :| 0 <= k < |s.maskIndices| && s.maskIndices[k] == (i, a);
        assert slots[k] == q;
      } else {
        forall k | 0 <= k < |slots| ensures slots[k] != q {
          assert s.maskIndices[k] in s.seen;
        }
      }
    }
    assert Distinct(slots) by {
      forall m1, m2 | 0 <= m1 < m2 < |slots| ensures slots[m1] != slots[m2] {
        assert s.maskIndices[m1] != s.maskIndices[m2];
      }
    }
    var z := Zeros(batchSize, anchors, 1);
    assert FeedOf(batch, batchSize, anchors, classes, p).mask == Scatter(z, slots, Ones(|slots|), batchSize, anchors, 1) by {
      ReshapeZeros(batchSize, anchors);
      ReshapeScatter(Zeros2(batchSize, anchors), s.maskIndices, Ones(|s.maskIndices|), batchSize, anchors);
    }
    if q in slots {
      var k :| 0 <= k < |slots| && slots[k] == q;
      ScatterHit(z, slots, Ones(|slots|), batchSize, anchors, 1, k);
    } else {
      ScatterMiss(z, slots, Ones(|slots|), batchSize, anchors, 1, q);
    }
  }

  /** The label list holds (i, a, c) exactly when image `i` targets anchor `a` and `c` is the
      class of the first such annotation; its entries are pairwise distinct. */
  lemma LabelEntries(batch: RawBatch, p: nat, i: int, a: int, c: int)
    ensures Distinct(Fold(Flatten(batch), p).labelIndices)
    ensures (i, a, c) in Fold(Flatten(batch), p).labelIndices
            <==> Targets(batch, i, a) && c == FirstFor(batch, i, a).classLabel
  {
    var xs := Flatten(batch);
    var s := Fold(xs, p);
    var lab := s.labelIndices;
    FoldDescribes(xs, p);
    KeptShape(xs);
    PairsTargets(batch, i, a);
    assert forall k :: 0 <= k < |lab| ==> (lab[k].0, lab[k].1) == s.maskIndices[k];
    assert Distinct(lab) by {
      forall m1, m2 | 0 <= m1 < m2 < |lab| ensures lab[m1] != lab[m2] {
        assert s.maskIndices[m1] != s.maskIndices[m2];
      }
    }
    if (i, a, c) in lab {
      var k :| 0 <= k < |lab| && lab[k] == (i, a, c);
      assert s.maskIndices[k] in Pairs(Kept(xs));
      assert Targets(batch, i, a);
      var j :| 0 <= j < |batch[i]| && batch[i][j].anchor == a;
      FirstWins(batch, p, i, j);
    }
    if Targets(batch, i, a) && c == FirstFor(batch, i, a).classLabel {
      var j :| 0 <= j < |batch[i]| && batch[i][j].anchor == a;
      FirstWins(batch, p, i, j);
      var k :| 0 <= k < |s.maskIndices| && s.maskIndices[k] == (i, a);
      assert lab[k] == (i, a, c);
    }
  }

  /** Dense labels: 1.0 exactly at (image, anchor, class of the first annotation of that
      anchor), for the targeted slots; 0.0 everywhere else. */
  lemma DenseLabels(batch: RawBatch, batchSize: nat, anchors: nat, classes: nat, p: nat, i: nat, a: nat, c: nat)
    requires FitsShape(batch, batchSize, anchors, classes, p)
    requires i < batchSize && a < anchors && c < classes
    ensures HasShape(FeedOf(batch, batchSize, anchors, classes, p).labels, batchSize, anchors, classes)
    ensures FeedOf(batch, batchSize, anchors, classes, p).labels[i][a][c]
            == if Targets(batch, i, a) && c == FirstFor(batch, i, a).classLabel then 1.0 else 0.0
  {
    var s := Fold(Flatten(batch), p);
    assert Feedable(s, batchSize, anchors, classes, p) by {
      FeedableFromBatch(batch, batchSize, anchors, classes, p);
    }
    var lab := s.labelIndices;
    var q := (i, a, c);
    assert Distinct(lab) && (q in lab <==> Targets(batch, i, a) && c == FirstFor(batch, i, a).classLabel) by {
      LabelEntries(batch, p, i, a, c);
    }
    var z := Zeros(batchSize, anchors, classes);
    if q in lab {
      var k :| 0 <= k < |lab| && lab[k] == q;
      ScatterHit(z, lab, Ones(|lab|), batchSize, anchors, classes, k);
    } else {
      ScatterMiss(z, lab, Ones(|lab|), batchSize, anchors, classes, q);
    }
  }

  /** The box index list (and the identical edge index list) has pairwise distinct entries,
      none of them at a slot that no annotation targets. */
  lemma BoxIndicesDistinct(batch: RawBatch, p: nat, i: int, a: int, t: int)
    ensures var s := Fold(Flatten(batch), p);
      && Distinct(s.bboxIndices) && s.edgeIndices == s.bboxIndices
      && (!Targets(batch, i, a) ==> (i, a, t) !in s.bboxIndices)
  {
    var xs := Flatten(batch);
    var kept := Kept(xs);
    FoldDescribes(xs, p);
    KeptShape(xs);
    BlocksDistinct(kept, p);
    PairsTargets(batch, i, a);
  }

  /** For the mask slot `k` of a targeted (image, anchor) pair, position `p * k + t` of the box
      index list holds (i, a, t), aligned with the first annotation's t-th delta, box and
      edge value. */
  lemma BoxEntryAt(batch: RawBatch, batchSize: nat, anchors: nat, classes: nat, p: nat, i: nat, j: nat, t: nat, k: nat)
    returns (m: nat)
    requires FitsShape(batch, batchSize, anchors, classes, p)
    requires i < |batch| && j < |batch[i]| && t < p
    requires k < |Fold(Flatten(batch), p).maskIndices|
    requires Fold(Flatten(batch), p).maskIndices[k] == (i, batch[i][j].anchor)
    ensures var s := Fold(Flatten(batch), p);
      var a := batch[i][j].anchor;
      var first := batch[i][FirstAt(batch[i], a)];
      && m == p * k + t
      && m < |s.bboxIndices| && s.bboxIndices[m] == (i, a, t)
      && m < |s.deltaValues| && s.deltaValues[m] == first.delta[t]
      && m < |s.boxValues| && s.boxValues[m] == first.box[t]
      && m < |s.edgeValues| && s.edgeValues[m] == first.edge[t]
  {
    MulMonotone(p, 0, k);
    m := p * k + t;
    var s := Fold(Flatten(batch), p);
    var a := batch[i][j].anchor;
    var first := batch[i][FirstAt(batch[i], a)];
    assert m < |s.bboxIndices| && s.bboxIndices[m] == (i, a, t) by {
      Alignment(batch, p);
      BlockAt(s.bboxIndices, p, k, t, m, ParamIndices(i, a, p));
    }
    assert && m < |s.deltaValues| && s.deltaValues[m] == first.delta[t]
           && m < |s.boxValues| && s.boxValues[m] == first.box[t]
           && m < |s.edgeValues| && s.edgeValues[m] == first.edge[t]
    by {
      FitsShapeWalk(batch, batchSize, anchors, classes, p);
      FirstWins(batch, p, i, j);
      BlockAt(s.deltaValues, p, k, t, m, first.delta);
      BlockAt(s.boxValues, p, k, t, m, first.box);
      BlockAt(s.edgeValues, p, k, t, m, first.edge);
    }
  }

  /** A targeted slot (i, a, t) is written exactly once in the box index list, at a position
      whose delta, box and edge values are the t-th ones of the anchor's first annotation. */
  lemma TargetedBoxSlot(batch: RawBatch, batchSize: nat, anchors: nat, classes: nat, p: nat, i: nat, a: nat, t: nat)
    returns (m: nat)
    requires FitsShape(batch, batchSize, anchors, classes, p)
    requires Targets(batch, i, a) && t < p
    ensures var s := Fold(Flatten(batch), p);
      && m < |s.bboxIndices| && s.bboxIndices[m] == (i, a, t)
      && m < |s.deltaValues| && s.deltaValues[m] == FirstFor(batch, i, a).delta[t]
      && m < |s.boxValues| && s.boxValues[m] == FirstFor(batch, i, a).box[t]
      && m < |s.edgeValues| && s.edgeValues[m] == FirstFor(batch, i, a).edge[t]
  {
    var s := Fold(Flatten(batch), p);
    var j :| 0 <= j < |batch[i]| && batch[i][j].anchor == a;
    assert FirstFor(batch, i, a) == batch[i][FirstAt(batch[i], a)];
    assert exists k :: 0 <= k < |s.maskIndices| && s.maskIndices[k] == (i, a) by {
      FirstWins(batch, p, i, j);
    }
    var k: nat :| k < |s.maskIndices| && s.maskIndices[k] == (i, a);
    m := BoxEntryAt(batch, batchSize, anchors, classes, p, i, j, t, k);
  }

  /** The facts the three box tensors share: the feed is well formed, the index list is
      duplicate-free and shared by the edge tensor, and untargeted slots are absent from it. */
  lemma BoxFeedFacts(batch: RawBatch, batchSize: nat, anchors: nat, classes: nat, p: nat, i: nat, a: nat, t: nat)
    requires FitsShape(batch, batchSize, anchors, classes, p)
    requires i < batchSize && a < anchors && t < p
    ensures var s := Fold(Flatten(batch), p);
      && Feedable(s, batchSize, anchors, classes, p)
      && Distinct(s.bboxIndices) && s.edgeIndices == s.bboxIndices
      && InBounds((i, a, t), batchSize, anchors, p)
      && (!Targets(batch, i, a) ==> (i, a, t) !in s.bboxIndices)
  {
    FeedableFromBatch(batch, batchSize, anchors, classes, p);
    BoxIndicesDistinct(batch, p, i, a, t);
  }

  /** Dense box deltas: at a targeted slot, parameter `t` is the first annotation's delta;
      zero at every other slot. */
  lemma DenseDeltas(batch: RawBatch, batchSize: nat, anchors: nat, classes: nat, p: nat, i: nat, a: nat, t: nat)
    requires FitsShape(batch, batchSize, anchors, classes, p)
    requires i < batchSize && a < anchors && t < p
    ensures var f := FeedOf(batch, batchSize, anchors, classes, p);
      && HasShape(f.boxDelta, batchSize, anchors, p)
      && f.boxDelta[i][a][t] == (if Targets(batch, i, a) then FirstFor(batch, i, a).delta[t] else 0.0)
  {
    var s := Fold(Flatten(batch), p);
    BoxFeedFacts(batch, batchSize, anchors, classes, p, i, a, t);
    var z := Zeros(batchSize, anchors, p);
    if Targets(batch, i, a) {
      var m := TargetedBoxSlot(batch, batchSize, anchors, classes, p, i, a, t);
      ScatterHit(z, s.bboxIndices, s.deltaValues, batchSize, anchors, p, m);
    } else {
      ScatterMiss(z, s.bboxIndices, s.deltaValues, batchSize, anchors, p, (i, a, t));
    }
  }

  /** Dense boxes: at a targeted slot, parameter `t` is the first annotation's box coordinate;
      zero at every other slot. */
  lemma DenseBoxValues(batch: RawBatch, batchSize: nat, anchors: nat, classes: nat, p: nat, i: nat, a: nat, t: nat)
    requires FitsShape(batch, batchSize, anchors, classes, p)
    requires i < batchSize && a < anchors && t < p
    ensures var f := FeedOf(batch, batchSize, anchors, classes, p);
      && HasShape(f.boxValue, batchSize, anchors, p)
      && f.boxValue[i][a][t] == (if Targets(batch, i, a) then FirstFor(batch, i, a).box[t] else 0.0)
  {
    var s := Fold(Flatten(batch), p);
    BoxFeedFacts(batch, batchSize, anchors, classes, p, i, a, t);
    var z := Zeros(batchSize, anchors, p);
    if Targets(batch, i, a) {
      var m := TargetedBoxSlot(batch, batchSize, anchors, classes, p, i, a, t);
      ScatterHit(z, s.bboxIndices, s.boxValues, batchSize, anchors, p, m);
    } else {
      ScatterMiss(z, s.bboxIndices, s.boxValues, batchSize, anchors, p, (i, a, t));
    }
  }

  /** Dense edge flags: at a targeted slot, flag `t` is set exactly when the first annotation's
      edge value is nonzero; false at every other slot. */
  lemma DenseEdges(batch: RawBatch, batchSize: nat, anchors: nat, classes: nat, p: nat, i: nat, a: nat, t: nat)
    requires FitsShape(batch, batchSize, anchors, classes, p)
    requires i < batchSize && a < anchors && t < p
    ensures var f := FeedOf(batch, batchSize, anchors, classes, p);
      && i < |f.edgeAdhesion| && a < |f.edgeAdhesion[i]| && t < |f.edgeAdhesion[i][a]|
      && f.edgeAdhesion[i][a][t] == (Targets(batch, i, a) && FirstFor(batch, i, a).edge[t] != 0.0)
  {
    var s := Fold(Flatten(batch), p);
    BoxFeedFacts(batch, batchSize, anchors, classes, p, i, a, t);
    var z := Zeros(batchSize, anchors, p);
    if Targets(batch, i, a) {
      var m := TargetedBoxSlot(batch, batchSize, anchors, classes, p, i, a, t);
      ScatterHit(z, s.bboxIndices, s.edgeValues, batchSize, anchors, p, m);
    } else {
      ScatterMiss(z, s.bboxIndices, s.edgeValues, batchSize, anchors, p, (i, a, t));
    }
  }
}
