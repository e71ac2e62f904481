/**
 * What the per-image extraction yields when it runs on the edge-index list built by the
 * assembly loop: for every image, the distinct anchors of that image's annotations, in the
 * order in which they first occur; and the behaviour of the extraction as written when an
 * image of the batch carries no annotation.
 */
module ExtractionTheorems {
  import opened Common
  import opened AnchorAssembly
  import opened AssemblyProperties
  import opened AssemblyTheorems
  import opened AnchorExtraction

  /** The anchors of the annotations of `anns`, in order. */
  function AnchorList(anns: seq<Annotation>): (r: seq<int>)
    ensures |r| == |anns| && forall k :: 0 <= k < |anns| ==> r[k] == anns[k].anchor
  {
    seq(|anns|, k requires 0 <= k < |anns| => anns[k].anchor)
  }

  /** The anchors of the tagged annotations of image `id`, in order. */
  function TaggedAnchors(xs: seq<Tagged>, id: int): seq<int>
  {
    if xs == [] then []
    else
      var n := |xs| - 1;
      TaggedAnchors(xs[..n], id) + (if xs[n].0 == id then [xs[n].1.anchor] else [])
  }

  /** The anchors of the mask entries of image `id`, in mask order. */
  function MaskAnchors(mask: seq<(int, int)>, id: int): seq<int>
  {
    if mask == [] then []
    else
      var n := |mask| - 1;
      MaskAnchors(mask[..n], id) + (if mask[n].0 == id then [mask[n].1] else [])
  }

  function Repeat(a: int, p: nat): (r: seq<int>)
    ensures |r| == p && forall k :: 0 <= k < p ==> r[k] == a
  {
    seq(p, _ => a)
  }

  lemma {:induction false} AnchorsOfImageAppend(u: seq<Row>, v: seq<Row>, id: int)
    ensures AnchorsOfImage(u + v, id) == AnchorsOfImage(u, id) + AnchorsOfImage(v, id)
  {
    if v == [] {
      assert u + v == u;
    } else {
      var n := |v| - 1;
      assert (u + v)[..|u| + n] == u + v[..n];
      AnchorsOfImageAppend(u, v[..n], id);
    }
  }

  lemma {:induction false} AnchorsOfBlock(i: int, a: int, p: nat, id: int)
    ensures AnchorsOfImage(ParamIndices(i, a, p), id) == if i == id then Repeat(a, p) else []
  {
    if p > 0 {
      assert ParamIndices(i, a, p)[..p - 1] == ParamIndices(i, a, p - 1);
      AnchorsOfBlock(i, a, p - 1, id);
      if i == id {
        assert Repeat(a, p - 1) + [a] == Repeat(a, p);
      }
    }
  }

  lemma {:induction false} UniqueRepeat(s: seq<int>, a: int, p: nat)
    requires p >= 1 && a !in s
    ensures UniqueInOrder(s + Repeat(a, p)) == UniqueInOrder(s) + [a]
    ensures a in s + Repeat(a, p)
  {
    assert s + Repeat(a, p) == (s + Repeat(a, p - 1)) + [a];
    UniqueSnoc(s + Repeat(a, p - 1), a);
    if p == 1 {
      assert s + Repeat(a, 0) == s;
    } else {
      UniqueRepeat(s, a, p - 1);
    }
  }

  lemma BlocksSnoc(init: seq<Tagged>, x: Tagged, p: nat)
    ensures Concat(IndexBlocks(init + [x], p)) == Concat(IndexBlocks(init, p)) + ParamIndices(x.0, x.1.anchor, p)
  {
    KeptSnoc(init, x, p);
    ConcatSnoc(IndexBlocks(init, p), ParamIndices(x.0, x.1.anchor, p));
  }

  lemma MaskAnchorsSnoc(init: seq<Tagged>, x: Tagged, id: int)
    ensures MaskAnchors(MaskOf(init + [x]), id) == MaskAnchors(MaskOf(init), id) + (if x.0 == id then [x.1.anchor] else [])
  {
    var m := MaskOf(init + [x]);
    assert m[..|m| - 1] == MaskOf(init) && m[|m| - 1] == PairOf(x);
  }

  lemma DistinctSnoc(init: seq<Tagged>, x: Tagged)
    requires Distinct(MaskOf(init + [x]))
    ensures Distinct(MaskOf(init)) && PairOf(x) !in MaskOf(init)
  {
    var m := MaskOf(init + [x]);
    var n := |init|;
    forall k, j | 0 <= k < j < n ensures MaskOf(init)[k] != MaskOf(init)[j] {
      assert MaskOf(init)[k] == m[k] && MaskOf(init)[j] == m[j];
    }
    forall k | 0 <= k < n ensures MaskOf(init)[k] != PairOf(x) {
      assert m[k] != m[n];
    }
  }

  /** The edge-index rows of the kept annotations, read back image by image, give the mask's
      anchors of that image; as a set, the anchors of the mask entries of that image. */
  lemma {:induction false} KeptAnchors(kept: seq<Tagged>, p: nat, id: int)
    requires p >= 1 && Distinct(MaskOf(kept))
    ensures UniqueInOrder(AnchorsOfImage(Concat(IndexBlocks(kept, p)), id)) == MaskAnchors(MaskOf(kept), id)
    ensures forall a :: a in AnchorsOfImage(Concat(IndexBlocks(kept, p)), id) <==> (id, a) in MaskOf(kept)
  {
    if kept == [] {
      assert IndexBlocks(kept, p) == [];
    } else {
      var n := |kept| - 1;
      var init, x := kept[..n], kept[n];
      assert kept == init + [x];
      DistinctSnoc(init, x);
      KeptAnchors(init, p, id);
      var before := AnchorsOfImage(Concat(IndexBlocks(init, p)), id);
      var block := ParamIndices(x.0, x.1.anchor, p);
      BlocksSnoc(init, x, p);
      MaskAnchorsSnoc(init, x, id);
      AnchorsOfImageAppend(Concat(IndexBlocks(init, p)), block, id);
      AnchorsOfBlock(x.0, x.1.anchor, p, id);
      KeptSnoc(init, x, p);
      if x.0 == id {
        UniqueRepeat(before, x.1.anchor, p);
      } else {
        assert before + [] == before;
      }
    }
  }

  lemma {:induction false} TaggedAnchorsAppend(u: seq<Tagged>, v: seq<Tagged>, id: int)
    ensures TaggedAnchors(u + v, id) == TaggedAnchors(u, id) + TaggedAnchors(v, id)
  {
    if v == [] {
      assert u + v == u;
    } else {
      var n := |v| - 1;
      assert (u + v)[..|u| + n] == u + v[..n];
      TaggedAnchorsAppend(u, v[..n], id);
    }
  }

  lemma {:induction false} TaggedAnchorsOfTag(i: int, anns: seq<Annotation>, id: int)
    ensures TaggedAnchors(Tag(i, anns), id) == if i == id then AnchorList(anns) else []
  {
    if anns != [] {
      var n := |anns| - 1;
      assert Tag(i, anns)[..n] == Tag(i, anns[..n]);
      TaggedAnchorsOfTag(i, anns[..n], id);
      if i == id {
        assert AnchorList(anns[..n]) + [anns[n].anchor] == AnchorList(anns);
      }
    }
  }

  /** Read back by image, the flattened batch gives each image's own anchors. */
  lemma {:induction false} TaggedAnchorsOfBatch(b: RawBatch, id: int)
    ensures TaggedAnchors(Flatten(b), id) == if 0 <= id < |b| then AnchorList(b[id]) else []
  {
    if b != [] {
      var n := |b| - 1;
      assert Flatten(b) == Flatten(b[..n]) + Tag(n, b[n]);
      TaggedAnchorsAppend(Flatten(b[..n]), Tag(n, b[n]), id);
      TaggedAnchorsOfTag(n, b[n], id);
      TaggedAnchorsOfBatch(b[..n], id);
    }
  }

  lemma TaggedAnchorsIn(xs: seq<Tagged>, id: int, a: int)
    ensures a in TaggedAnchors(xs, id) <==> (id, a) in Pairs(xs)
  {
    if xs != [] {
      var n := |xs| - 1;
      assert xs == xs[..n] + [xs[n]];
      PairsSnoc(xs[..n], xs[n]);
      TaggedAnchorsIn(xs[..n], id, a);
    }
  }

  /** The mask's anchors of image `id` are the distinct anchors of that image's annotations,
      in first-occurrence order. */
  lemma {:induction false} MaskAnchorsOfKept(xs: seq<Tagged>, id: int)
    ensures MaskAnchors(MaskOf(Kept(xs)), id) == UniqueInOrder(TaggedAnchors(xs, id))
  {
    if xs != [] {
      var n := |xs| - 1;
      var init := xs[..n];
      var x := xs[n];
      assert xs == init + [x];
      MaskAnchorsOfKept(init, id);
      FirstOfPairIsNew(xs);
      var k0 := Kept(init);
      var k1 := Kept(xs);
      if FirstOfPair(xs, n) {
        assert k1 == k0 + [x];
        KeptSnoc(k0, x, 0);
        assert MaskOf(k1)[..|MaskOf(k1)| - 1] == MaskOf(k0) && MaskOf(k1)[|k0|] == PairOf(x);
        assert MaskAnchors(MaskOf(k1), id) == MaskAnchors(MaskOf(k0), id) + (if x.0 == id then [x.1.anchor] else []);
      } else {
        assert k1 == k0;
      }
      if x.0 == id {
        assert TaggedAnchors(xs, id) == TaggedAnchors(init, id) + [x.1.anchor];
        UniqueSnoc(TaggedAnchors(init, id), x.1.anchor);
        TaggedAnchorsIn(init, id, x.1.anchor);
        assert PairOf(x) == (id, x.1.anchor);
      } else {
        assert TaggedAnchors(xs, id) == TaggedAnchors(init, id);
      }
    }
  }

  /** With at least one mask parameter, the per-image anchors the summary step extracts from
      the edge-index list are the mask's anchors of that image, and these are the distinct
      anchors of the image's annotations in first-occurrence order. */
  lemma ExtractionMatchesBatch(batch: RawBatch, p: nat, id: int)
    requires p >= 1
    ensures var s := Fold(Flatten(batch), p);
      && UniqueInOrder(AnchorsOfImage(s.edgeIndices, id)) == MaskAnchors(s.maskIndices, id)
      && MaskAnchors(s.maskIndices, id) == UniqueInOrder(if 0 <= id < |batch| then AnchorList(batch[id]) else [])
  {
    var xs := Flatten(batch);
    FoldDescribes(xs, p);
    KeptShape(xs);
    KeptAnchors(Kept(xs), p, id);
    MaskAnchorsOfKept(xs, id);
    TaggedAnchorsOfBatch(batch, id);
  }

  /** With at least one mask parameter the edge-index list is empty exactly when the batch
      carries no annotation at all. */
  lemma EdgeIndicesEmpty(batch: RawBatch, p: nat)
    requires p >= 1
    ensures Fold(Flatten(batch), p).edgeIndices == [] <==> TotalAnnotations(batch) == 0
  {
    var xs := Flatten(batch);
    Counting(batch, p);
    FlattenLength(batch);
    FoldDescribes(xs, p);
    if xs != [] {
      FirstIsKept(xs, 0);
      MulMonotone(p, 1, |Fold(xs, p).maskIndices|);
    }
  }

  /** How the extraction fails as written: numpy cannot take column 0 of the empty edge-index
      list (a one-dimensional empty array), and it cannot index with the empty float array
      that an image without anchors produces. */
  datatype GatherError = ColumnOfEmptyList | FloatIndexArray(image: nat)

  /** The per-image slots as written, image by image; the first image without anchors stops it. */
  function SlotsAsWritten(rows: seq<Row>, n: nat, edges: seq<seq<seq<bool>>>): (r: Result<seq<seq<seq<bool>>>, GatherError>)
    requires GatherInBounds(rows, n, edges)
    ensures r.Ok? ==> |r.value| == n
  {
    if n == 0 then Ok([])
    else
      match SlotsAsWritten(rows, n - 1, edges)
      case Err(e) => Err(e)
      case Ok(prev) =>
        var anchors := UniqueInOrder(AnchorsOfImage(rows, n - 1));
        if anchors == [] then Err(FloatIndexArray(n - 1))
        else
          AnchorsInBounds(rows, n, edges, n - 1);
          Ok(prev + [Gather(edges, n - 1, anchors)])
  }

  lemma AnchorsInBounds(rows: seq<Row>, batchSize: nat, edges: seq<seq<seq<bool>>>, id: nat)
    requires GatherInBounds(rows, batchSize, edges) && id < batchSize
    ensures forall k :: 0 <= k < |UniqueInOrder(AnchorsOfImage(rows, id))| ==>
      0 <= UniqueInOrder(AnchorsOfImage(rows, id))[k] < |edges[id]|
  {
    var u := UniqueInOrder(AnchorsOfImage(rows, id));
    forall k | 0 <= k < |u| ensures 0 <= u[k] < |edges[id]| {
      UniqueElements(AnchorsOfImage(rows, id), u[k]);
      AnchorsOfImageIn(rows, id, u[k]);
    }
  }

  /** The extraction loop of lines 453-461 and 514-520 as written. */
  function ExtractAsWritten(rows: seq<Row>, batchSize: nat, edges: seq<seq<seq<bool>>>): (r: Result<seq<seq<seq<bool>>>, GatherError>)
    requires GatherInBounds(rows, batchSize, edges)
    ensures r.Ok? ==> |r.value| == batchSize
  {
    if batchSize > 0 && rows == [] then Err(ColumnOfEmptyList)
    else SlotsAsWritten(rows, batchSize, edges)
  }

  /** As written, the extraction fails as soon as one image of the batch has no anchor, and
      succeeds with the slots the corrected loop computes otherwise. */
  lemma AsWrittenFailsIffImageWithoutAnchors(rows: seq<Row>, n: nat, edges: seq<seq<seq<bool>>>)
    requires GatherInBounds(rows, n, edges)
    ensures SlotsAsWritten(rows, n, edges).Err? <==> exists id :: 0 <= id < n && AnchorsOfImage(rows, id) == []
    ensures SlotsAsWritten(rows, n, edges).Ok? ==>
      forall id :: 0 <= id < n ==>
        AnchorsInRange(rows, id, edges) && SlotsAsWritten(rows, n, edges).value[id] == Gather(edges, id, UniqueInOrder(AnchorsOfImage(rows, id)))
  {
    AsWrittenFails(rows, n, edges);
    AsWrittenSlots(rows, n, edges);
  }

  lemma UniqueEmpty(s: seq<int>)
    ensures UniqueInOrder(s) == [] <==> s == []
  {
    if s != [] {
      UniqueElements(s, s[0]);
    }
  }

  lemma {:induction false} AsWrittenFails(rows: seq<Row>, n: nat, edges: seq<seq<seq<bool>>>)
    requires GatherInBounds(rows, n, edges)
    ensures SlotsAsWritten(rows, n, edges).Err? <==> exists id :: 0 <= id < n && AnchorsOfImage(rows, id) == []
  {
    if n > 0 {
      AsWrittenFails(rows, n - 1, edges);
      UniqueEmpty(AnchorsOfImage(rows, n - 1));
      if SlotsAsWritten(rows, n - 1, edges).Err? {
        var id :| 0 <= id < n - 1 && AnchorsOfImage(rows, id) == [];
        assert 0 <= id < n && AnchorsOfImage(rows, id) == [];
      } else if AnchorsOfImage(rows, n - 1) == [] {
        assert SlotsAsWritten(rows, n, edges) == Err(FloatIndexArray(n - 1));
        assert exists id :: 0 <= id < n && AnchorsOfImage(rows, id) == [] by {
          assert 0 <= n - 1 < n && AnchorsOfImage(rows, n - 1) == [];
        }
      } else {
        assert SlotsAsWritten(rows, n, edges).Ok?;
        forall id | 0 <= id < n ensures AnchorsOfImage(rows, id) != [] {
          if id < n - 1 {
            assert !(0 <= id < n - 1 && AnchorsOfImage(rows, id) == []);
          }
        }
      }
    }
  }

  lemma {:induction false} AsWrittenSlots(rows: seq<Row>, n: nat, edges: seq<seq<seq<bool>>>)
    requires GatherInBounds(rows, n, edges)
    ensures SlotsAsWritten(rows, n, edges).Ok? ==>
      forall id :: 0 <= id < n ==>
        AnchorsInRange(rows, id, edges) && SlotsAsWritten(rows, n, edges).value[id] == Gather(edges, id, UniqueInOrder(AnchorsOfImage(rows, id)))
  {
    if n > 0 {
      AsWrittenSlots(rows, n - 1, edges);
      forall id | 0 <= id < n ensures AnchorsInRange(rows, id, edges) {
        AnchorsInBounds(rows, n, edges, id);
      }
    }
  }

  predicate AnchorsInRange(rows: seq<Row>, id: nat, edges: seq<seq<seq<bool>>>)
  {
    id < |edges| && forall k :: 0 <= k < |UniqueInOrder(AnchorsOfImage(rows, id))| ==>
      0 <= UniqueInOrder(AnchorsOfImage(rows, id))[k] < |edges[id]|
  }

  /** The edge-index list of a two-image batch whose only annotation is in image 0: the `p`
      triples of that annotation's anchor. */
  lemma SingleAnnotationRows(ann: Annotation, p: nat)
    ensures Fold(Flatten([[ann], []]), p).edgeIndices == ParamIndices(0, ann.anchor, p)
  {
    var batch: RawBatch := [[ann], []];
    assert Flatten(batch) == [(0, ann)] by {
      assert batch[..1] == [[ann]] && batch[..1][..0] == [];
      assert Flatten(batch[..1]) == [] + Tag(0, [ann]);
    }
    assert Fold([(0, ann)], p) == Record(Empty, (0, ann), p) by {
      assert [(0, ann)][..0] == [];
    }
    assert [] + ParamIndices(0, ann.anchor, p) == ParamIndices(0, ann.anchor, p);
  }

  /** The anchors of the two images in those rows: image 0 has `a`, */
  lemma SingleBlockImageZero(a: int, p: nat)
    requires p >= 1
    ensures UniqueInOrder(AnchorsOfImage(ParamIndices(0, a, p), 0)) == [a]
  {
    AnchorsOfBlock(0, a, p, 0);
    UniqueRepeat([], a, p);
    assert [] + Repeat(a, p) == Repeat(a, p);
    assert UniqueInOrder([]) == [];
  }

  /** and image 1 has none. */
  lemma SingleBlockImageOne(a: int, p: nat)
    ensures UniqueInOrder(AnchorsOfImage(ParamIndices(0, a, p), 1)) == []
  {
    AnchorsOfBlock(0, a, p, 1);
    assert UniqueInOrder([]) == [];
  }

  /** The rows of one anchor's block in image 0 fit two images' edge tensors, and the
      extraction as written fails on image 1. */
  lemma SingleBlockExtraction(a: int, p: nat, edges: seq<seq<seq<bool>>>)
    requires p >= 1 && |edges| >= 2 && 0 <= a < |edges[0]|
    ensures GatherInBounds(ParamIndices(0, a, p), 2, edges)
    ensures ExtractAsWritten(ParamIndices(0, a, p), 2, edges) == Err(FloatIndexArray(1))
  {
    var rows := ParamIndices(0, a, p);
    assert GatherInBounds(rows, 2, edges) by {
      forall k | 0 <= k < |rows| && 0 <= rows[k].0 < 2 ensures 0 <= rows[k].1 < |edges[rows[k].0]| {
        assert rows[k] == (0, a, k);
      }
    }
    assert SlotsAsWritten(rows, 1, edges).Ok? by {
      SingleBlockImageZero(a, p);
    }
    assert UniqueInOrder(AnchorsOfImage(rows, 1)) == [] by {
      SingleBlockImageOne(a, p);
    }
    assert SlotsAsWritten(rows, 2, edges) == Err(FloatIndexArray(1));
    assert rows != [] by {
      assert rows[0] == (0, a, 0);
    }
  }

  /** The discrepancy on a concrete batch, for every mask parameterization (4 and 8 among
      them): two images, the second without annotations. The edge-index list is not empty,
      yet the extraction as written fails on image 1, while the model of the intended loop
      assigns image 1 an empty slot. */
  lemma ImageWithoutAnnotationsBreaksExtraction(ann: Annotation, p: nat, edges: seq<seq<seq<bool>>>)
    requires p >= 1 && |edges| >= 2 && 0 <= ann.anchor < |edges[0]|
    ensures var rows := Fold(Flatten([[ann], []]), p).edgeIndices;
      && rows != []
      && GatherInBounds(rows, 2, edges)
      && ExtractAsWritten(rows, 2, edges) == Err(FloatIndexArray(1))
      && UniqueInOrder(AnchorsOfImage(rows, 1)) == []
  {
    SingleAnnotationRows(ann, p);
    assert ParamIndices(0, ann.anchor, p)[0] == (0, ann.anchor, 0);
    SingleBlockExtraction(ann.anchor, p, edges);
    SingleBlockImageOne(ann.anchor, p);
  }

  /** An all-empty batch: the edge-index list is empty, and the extraction as written fails
      taking its first column. */
  lemma EmptyBatchBreaksExtraction(batch: RawBatch, p: nat, edges: seq<seq<seq<bool>>>)
    requires p >= 1 && |batch| > 0 && |edges| >= |batch| && TotalAnnotations(batch) == 0
    ensures var rows := Fold(Flatten(batch), p).edgeIndices;
      && rows == []
      && ExtractAsWritten(rows, |batch|, edges) == Err(ColumnOfEmptyList)
  {
    EdgeIndicesEmpty(batch, p);
  }
}
