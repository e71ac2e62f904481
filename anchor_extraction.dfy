/**
 * Per-image anchor extraction of the summary step: for each image id, the anchors of the
 * edge-index rows of that image, each listed once, in first-occurrence order (numpy's
 * `unique(..., return_index=True)` with the returned indices sorted), and the edge-flag rows
 * gathered at those anchors.
 */
module AnchorExtraction {
  import opened Common

  type Row = (int, int, int)

  /** Column 1 of the rows whose column 0 equals `id`, in row order. */
  function AnchorsOfImage(rows: seq<Row>, id: int): seq<int>
  {
    if rows == [] then []
    else
      var n := |rows| - 1;
      AnchorsOfImage(rows[..n], id) + (if rows[n].0 == id then [rows[n].1] else [])
  }

  /** The positions `n` (ascending) at which `s[n]` occurs for the first time: the indices
      `unique` returns, sorted. */
  function FirstOccurrences(s: seq<int>): (r: seq<nat>)
    ensures forall k :: 0 <= k < |r| ==> r[k] < |s|
  {
    if s == [] then []
    else
      var n := |s| - 1;
      FirstOccurrences(s[..n]) + (if s[n] in s[..n] then [] else [n])
  }

  /** The values at those positions. */
  function UniqueInOrder(s: seq<int>): (r: seq<int>)
  {
    var idx := FirstOccurrences(s);
    seq(|idx|, k requires 0 <= k < |idx| => s[idx[k]])
  }

  /** The distinct values listed once each, in the order of their first occurrence: no
      value twice, the same values as `s`, and of two listed values the one listed first
      occurs first in `s`. */
  lemma UniqueInOrderMeaning(s: seq<int>)
    ensures Distinct(UniqueInOrder(s))
    ensures forall a :: a in UniqueInOrder(s) <==> a in s
    ensures forall k, m :: 0 <= k < m < |UniqueInOrder(s)| ==>
      FirstIndex(s, UniqueInOrder(s)[k]) < FirstIndex(s, UniqueInOrder(s)[m])
  {
    var idx := FirstOccurrences(s);
    var u := UniqueInOrder(s);
    FirstOccurrencesMeaning(s);
    forall k | 0 <= k < |u| ensures FirstIndex(s, u[k]) == idx[k] {
      FirstIndexAt(s, idx[k]);
    }
    forall k, m | 0 <= k < m < |u| ensures u[k] != u[m] {
      assert s[idx[k]] == s[..idx[m]][idx[k]];
    }
    forall a ensures a in u <==> a in s {
      UniqueElements(s, a);
    }
  }

  /** The position of the first occurrence of `a` in `s` (`|s|` when there is none). */
  function FirstIndex(s: seq<int>, a: int): (r: nat)
    ensures r <= |s| && a !in s[..r] && (r < |s| ==> s[r] == a)
  {
    if s == [] then 0
    else if s[0] == a then 0
    else
      var r := 1 + FirstIndex(s[1..], a);
      assert s[..r] == [s[0]] + s[1..][..r - 1];
      r
  }

  lemma FirstIndexAt(s: seq<int>, n: nat)
    requires n < |s| && s[n] !in s[..n]
    ensures FirstIndex(s, s[n]) == n
  {
    var r := FirstIndex(s, s[n]);
    assert forall j :: 0 <= j < n ==> s[..n][j] == s[j];
    assert forall j :: 0 <= j < r ==> s[..r][j] == s[j];
  }

  /** The listed positions are first occurrences, ascending, and all of them. */
  lemma FirstOccurrencesMeaning(s: seq<int>)
    ensures var r := FirstOccurrences(s);
      && (forall k :: 0 <= k < |r| ==> s[r[k]] !in s[..r[k]])
      && (forall k, m :: 0 <= k < m < |r| ==> r[k] < r[m])
      && (forall n :: 0 <= n < |s| && s[n] !in s[..n] ==> n in r)
  {
    FirstOccurrencesAreFirst(s);
    FirstOccurrencesAscending(s);
    FirstOccurrencesComplete(s);
  }

  lemma {:induction false} FirstOccurrencesAreFirst(s: seq<int>)
    ensures forall k :: 0 <= k < |FirstOccurrences(s)| ==>
      s[FirstOccurrences(s)[k]] !in s[..FirstOccurrences(s)[k]]
  {
    if s != [] {
      var n := |s| - 1;
      var init := s[..n];
      FirstOccurrencesAreFirst(init);
      var r0 := FirstOccurrences(init);
      assert FirstOccurrences(s) == r0 + (if s[n] in init then [] else [n]);
      assert forall k :: 0 <= k < |r0| ==> r0[k] < n;
      forall k | 0 <= k < |r0| ensures s[r0[k]] !in s[..r0[k]] {
        assert init[r0[k]] !in init[..r0[k]];
        assert s[..r0[k]] == init[..r0[k]];
        assert s[r0[k]] == init[r0[k]];
      }
      assert s[..n] == init;
    }
  }

  lemma {:induction false} FirstOccurrencesAscending(s: seq<int>)
    ensures forall k, m :: 0 <= k < m < |FirstOccurrences(s)| ==>
      FirstOccurrences(s)[k] < FirstOccurrences(s)[m]
  {
    if s != [] {
      var n := |s| - 1;
      var init := s[..n];
      FirstOccurrencesAscending(init);
      var r0 := FirstOccurrences(init);
      var r := FirstOccurrences(s);
      assert r == r0 + (if s[n] in init then [] else [n]);
      assert forall k :: 0 <= k < |r0| ==> r0[k] < n;
      assert forall k, m :: 0 <= k < m < |r0| ==> r0[k] < r0[m];
      forall k, m | 0 <= k < m < |r| ensures r[k] < r[m] {
        assert r[k] == r0[k];
      }
    }
  }

  lemma {:induction false} FirstOccurrencesComplete(s: seq<int>)
    ensures forall n :: 0 <= n < |s| && s[n] !in s[..n] ==> n in FirstOccurrences(s)
  {
    if s != [] {
      var n := |s| - 1;
      var init := s[..n];
      FirstOccurrencesComplete(init);
      var r0 := FirstOccurrences(init);
      assert FirstOccurrences(s) == r0 + (if s[n] in init then [] else [n]);
      assert forall k :: 0 <= k < |r0| ==> r0[k] < n;
      forall j | 0 <= j < n && s[j] !in s[..j] ensures j in r0 {
        assert s[..j] == init[..j];
        assert s[j] == init[j];
      }
      assert s[..n] == init;
    }
  }

  lemma {:induction false} FirstOccurrencesPrefix(s: seq<int>, x: int)
    ensures FirstOccurrences(s + [x]) == FirstOccurrences(s) + (if x in s then [] else [|s|])
  {
    assert (s + [x])[..|s|] == s;
  }

  lemma UniqueSnoc(s: seq<int>, x: int)
    ensures UniqueInOrder(s + [x]) == UniqueInOrder(s) + (if x in s then [] else [x])
  {
    FirstOccurrencesPrefix(s, x);
    var idx := FirstOccurrences(s);
    var t := s + [x];
    var u := UniqueInOrder(t);
    var expected := UniqueInOrder(s) + (if x in s then [] else [x]);
    assert |u| == |expected|;
    forall k | 0 <= k < |u| ensures u[k] == expected[k] {
      if k < |idx| {
        assert t[idx[k]] == s[idx[k]];
      }
    }
  }

  /** The distinct anchors of image `id`, scanning the rows once with a set of the anchors
      already listed. */
  method UniqueAnchors(rows: seq<Row>, id: int) returns (anchors: seq<int>)
    ensures anchors == UniqueInOrder(AnchorsOfImage(rows, id))
  {
    anchors := [];
    var listed: set<int> := {};
    ghost var selected: seq<int> := [];
    for r := 0 to |rows|
      invariant selected == AnchorsOfImage(rows[..r], id)
      invariant anchors == UniqueInOrder(selected)
      invariant listed == set x | x in selected
    {
      assert rows[..r + 1][..r] == rows[..r];
      if rows[r].0 == id {
        var a := rows[r].1;
        UniqueSnoc(selected, a);
        if a !in listed {
          anchors := anchors + [a];
          listed := listed + {a};
        }
        selected := selected + [a];
      }
    }
    assert rows[..|rows|] == rows;
  }

  /** Every row of image `id < batchSize` names an anchor inside the gathered tensor. */
  predicate GatherInBounds(rows: seq<Row>, batchSize: nat, edges: seq<seq<seq<bool>>>)
  {
    && batchSize <= |edges|
    && forall k :: 0 <= k < |rows| && 0 <= rows[k].0 < batchSize ==> 0 <= rows[k].1 < |edges[rows[k].0]|
  }

  function Gather(edges: seq<seq<seq<bool>>>, id: nat, anchors: seq<int>): seq<seq<bool>>
    requires id < |edges| && forall k :: 0 <= k < |anchors| ==> 0 <= anchors[k] < |edges[id]|
  {
    seq(|anchors|, k requires 0 <= k < |anchors| => edges[id][anchors[k]])
  }

  lemma AnchorsOfImageIn(rows: seq<Row>, id: int, a: int)
    ensures a in AnchorsOfImage(rows, id) <==> exists k :: 0 <= k < |rows| && rows[k].0 == id && rows[k].1 == a
  {
    if rows != [] {
      var n := |rows| - 1;
      AnchorsOfImageIn(rows[..n], id, a);
      if exists k :: 0 <= k < |rows| && rows[k].0 == id && rows[k].1 == a {
        var k :| 0 <= k < |rows| && rows[k].0 == id && rows[k].1 == a;
        if k < n {
          assert rows[..n][k] == rows[k];
        }
      }
    }
  }

  lemma UniqueElements(s: seq<int>, a: int)
    ensures a in UniqueInOrder(s) <==> a in s
  {
    var idx := FirstOccurrences(s);
    var u := UniqueInOrder(s);
    if s != [] {
      var n := |s| - 1;
      var init := s[..n];
      assert s == init + [s[n]];
      UniqueSnoc(init, s[n]);
      UniqueElements(init, a);
    }
  }

  /** The per-image loop of the summary step: slot `id` of the result receives the distinct
      anchors of image `id`, in first-occurrence order, and the edge-flag rows of `edges`
      gathered at those anchors. */
  method ExtractPerImage(rows: seq<Row>, batchSize: nat, edges: seq<seq<seq<bool>>>)
    returns (anchorsPerImage: seq<seq<int>>, edgesPerImage: seq<seq<seq<bool>>>)
    requires GatherInBounds(rows, batchSize, edges)
    ensures |anchorsPerImage| == batchSize && |edgesPerImage| == batchSize
    ensures forall id :: 0 <= id < batchSize ==> anchorsPerImage[id] == UniqueInOrder(AnchorsOfImage(rows, id))
    ensures forall id :: 0 <= id < batchSize ==>
      (forall k :: 0 <= k < |anchorsPerImage[id]| ==> 0 <= anchorsPerImage[id][k] < |edges[id]|)
      && edgesPerImage[id] == Gather(edges, id, anchorsPerImage[id])
  {
    var anchorSlots := new seq<int>[batchSize](_ => [0]);
    var edgeSlots := new seq<seq<bool>>[batchSize](_ => [[false]]);
    for id := 0 to batchSize
      invariant forall id' :: 0 <= id' < id ==> anchorSlots[id'] == UniqueInOrder(AnchorsOfImage(rows, id'))
      invariant forall id' :: 0 <= id' < id ==>
        (forall k :: 0 <= k < |anchorSlots[id']| ==> 0 <= anchorSlots[id'][k] < |edges[id']|)
        && edgeSlots[id'] == Gather(edges, id', anchorSlots[id'])
    {
      var anchors := UniqueAnchors(rows, id);
      forall k | 0 <= k < |anchors| ensures 0 <= anchors[k] < |edges[id]| {
        UniqueElements(AnchorsOfImage(rows, id), anchors[k]);
        AnchorsOfImageIn(rows, id, anchors[k]);
      }
      anchorSlots[id] := anchors;
      edgeSlots[id] := Gather(edges, id, anchors);
    }
    anchorsPerImage := anchorSlots[..];
    edgesPerImage := edgeSlots[..];
  }
}
