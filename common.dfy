/** Small shared vocabulary: optional values, results, and sequence helpers. */
module Common {

  datatype Option<+T> = None | Some(value: T)

  datatype Result<+T, +E> = Ok(value: T) | Err(error: E)

  /** Concatenation of a sequence of sequences, built from the end (as `list.extend` does). */
  function Concat<T>(ss: seq<seq<T>>): seq<T>
  {
    if ss == [] then [] else Concat(ss[..|ss| - 1]) + ss[|ss| - 1]
  }

  lemma ConcatSnoc<T>(ss: seq<seq<T>>, s: seq<T>)
    ensures Concat(ss + [s]) == Concat(ss) + s
  {
    assert (ss + [s])[..|ss|] == ss;
  }

  /** When every block has length `p`, the concatenation has `p` entries per block. */
  lemma {:induction false} ConcatUniformLength<T>(ss: seq<seq<T>>, p: nat)
    requires forall k :: 0 <= k < |ss| ==> |ss[k]| == p
    ensures |Concat(ss)| == p * |ss|
  {
    if ss != [] {
      var n := |ss| - 1;
      ConcatUniformLength(ss[..n], p);
      assert p * n + p == p * |ss|;
    }
  }

  /** ... and entry `t` of block `k` sits at position `p * k + t`. */
  lemma {:induction false} ConcatUniformAt<T>(ss: seq<seq<T>>, p: nat, k: nat, t: nat)
    requires forall m :: 0 <= m < |ss| ==> |ss[m]| == p
    requires k < |ss| && t < p
    ensures p * k + t < |Concat(ss)| && Concat(ss)[p * k + t] == ss[k][t]
  {
    var n := |ss| - 1;
    var init := ss[..n];
    ConcatUniformLength(init, p);
    ConcatUniformLength(ss, p);
    var pn := p * n;
    assert |Concat(init)| == pn;
    if k < n {
      ConcatUniformAt(init, p, k, t);
    } else {
      assert p * k + t == pn + t;
    }
  }

  /** Block `k` of `p` consecutive entries of `s`. */
  function Block<T>(s: seq<T>, p: nat, k: nat): seq<T>
    requires p * k + p <= |s|
  {
    s[p * k..p * k + p]
  }

  /** Entry `t` of block `k` sits at position `p * k + t`. */
  lemma BlockAt<T>(s: seq<T>, p: nat, k: nat, t: nat, m: int, blk: seq<T>)
    requires p * k + p <= |s| && t < p && m == p * k + t && Block(s, p, k) == blk
    ensures 0 <= m < |s| && t < |blk| && s[m] == blk[t]
  {
  }

  /** With blocks of uniform length `p`, block `k` of the concatenation is `ss[k]`. */
  lemma ConcatUniformBlock<T>(ss: seq<seq<T>>, p: nat, k: nat)
    requires forall m :: 0 <= m < |ss| ==> |ss[m]| == p
    requires k < |ss|
    ensures p * k + p <= |Concat(ss)| && Block(Concat(ss), p, k) == ss[k]
  {
    var c := Concat(ss);
    var lo := p * k;
    ConcatUniformLength(ss, p);
    MulMonotone(p, k + 1, |ss|);
    assert p * (k + 1) == lo + p;
    assert lo + p <= |c|;
    var b := c[lo..lo + p];
    forall t | 0 <= t < p ensures b[t] == ss[k][t] {
      ConcatUniformAt(ss, p, k, t);
      assert b[t] == c[lo + t];
    }
    assert b == ss[k];
  }

  lemma MulMonotone(p: nat, a: nat, b: nat)
    requires a <= b
    ensures p * a <= p * b
  {
  }

  /** The elements of a sequence are pairwise distinct. */
  predicate Distinct<T(==)>(s: seq<T>)
  {
    forall m, n :: 0 <= m < n < |s| ==> s[m] != s[n]
  }
}
