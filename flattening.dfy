/**
 * The logical order of a chunked sequence: the contents of its blocks, front block
 * first, and how a (block, offset) position maps to a logical index.
 */
module Flattening {

  /** The blocks' elements concatenated, front block first. */
  function Flatten<T>(bs: seq<seq<T>>): seq<T>
  {
    if bs == [] then [] else bs[0] + Flatten(bs[1..])
  }

  /** Flattening distributes over the concatenation of block lists. */
  lemma {:induction false} FlattenAppend<T>(a: seq<seq<T>>, b: seq<seq<T>>)
    ensures Flatten(a + b) == Flatten(a) + Flatten(b)
  {
    if a == [] {
      assert a + b == b;
    } else {
      assert (a + b)[1..] == a[1..] + b;
      FlattenAppend(a[1..], b);
    }
  }

  /** The logical sequence is the blocks before `k`, then block `k`, then the blocks after it. */
  lemma FlattenSplit<T>(bs: seq<seq<T>>, k: nat)
    requires k < |bs|
    ensures Flatten(bs) == Flatten(bs[..k]) + bs[k] + Flatten(bs[k + 1..])
  {
    var pre, rest := bs[..k], bs[k..];
    assert bs == pre + rest;
    FlattenAppend(pre, rest);
    assert rest[1..] == bs[k + 1..];
    var x, y, z := Flatten(pre), bs[k], Flatten(bs[k + 1..]);
    assert Flatten(rest) == y + z;
    assert x + (y + z) == x + y + z;
  }

  /** Extending a prefix of the blocks by one block appends that block's contents. */
  lemma FlattenPrefixStep<T>(bs: seq<seq<T>>, k: nat)
    requires k < |bs|
    ensures Flatten(bs[..k + 1]) == Flatten(bs[..k]) + bs[k]
  {
    assert bs[..k + 1] == bs[..k] + [bs[k]];
    assert [bs[k]][1..] == [];
    FlattenAppend(bs[..k], [bs[k]]);
  }

  /** Appending a block appends its contents. */
  lemma FlattenSnoc<T>(bs: seq<seq<T>>, x: seq<T>)
    ensures Flatten(bs + [x]) == Flatten(bs) + x
  {
    assert [x][1..] == [];
    FlattenAppend(bs, [x]);
  }

  /**
   * Index translation: offset `e` of block `k` is logical index
   * (number of elements in the blocks before `k`) + `e`.
   */
  lemma FlattenAt<T>(bs: seq<seq<T>>, k: nat, e: nat)
    requires k < |bs| && e < |bs[k]|
    ensures |Flatten(bs[..k])| + e < |Flatten(bs)|
    ensures Flatten(bs)[|Flatten(bs[..k])| + e] == bs[k][e]
  {
    FlattenSplit(bs, k);
  }

  /** Replacing block `k` replaces its stretch of the logical sequence. */
  lemma FlattenUpdate<T>(bs: seq<seq<T>>, k: nat, x: seq<T>)
    requires k < |bs|
    ensures Flatten(bs[k := x]) == Flatten(bs[..k]) + x + Flatten(bs[k + 1..])
  {
    var cs := bs[k := x];
    assert cs[..k] == bs[..k];
    assert cs[k + 1..] == bs[k + 1..];
    FlattenSplit(cs, k);
  }

  /** Removing offset `e` of block `k` removes exactly the logical element that offset stands for. */
  lemma FlattenRemoveAt<T>(bs: seq<seq<T>>, k: nat, e: nat)
    requires k < |bs| && e < |bs[k]|
    ensures |Flatten(bs[..k])| + e < |Flatten(bs)|
    ensures Flatten(bs[k := bs[k][..e] + bs[k][e + 1..]])
         == Flatten(bs)[..|Flatten(bs[..k])| + e] + Flatten(bs)[|Flatten(bs[..k])| + e + 1..]
  {
    var pre, b, post := Flatten(bs[..k]), bs[k], Flatten(bs[k + 1..]);
    FlattenSplit(bs, k);
    FlattenUpdate(bs, k, b[..e] + b[e + 1..]);
    SpliceRemove(pre, b, post, e);
  }

  /** Removing offset `e` of the middle part of `pre + b + post` removes index |pre| + e of the whole. */
  lemma SpliceRemove<T>(pre: seq<T>, b: seq<T>, post: seq<T>, e: nat)
    requires e < |b|
    ensures (pre + b + post)[..|pre| + e] + (pre + b + post)[|pre| + e + 1..] == pre + (b[..e] + b[e + 1..]) + post
  {
    var s := pre + b + post;
    assert s[..|pre| + e] == pre + b[..e];
    assert s[|pre| + e + 1..] == b[e + 1..] + post;
  }

  /** Dropping an empty block leaves the logical sequence unchanged. */
  lemma FlattenDropEmpty<T>(bs: seq<seq<T>>, k: nat)
    requires k < |bs| && bs[k] == []
    ensures Flatten(bs[..k] + bs[k + 1..]) == Flatten(bs)
  {
    var pre, post := bs[..k], bs[k + 1..];
    FlattenSplit(bs, k);
    FlattenAppend(pre, post);
    assert Flatten(pre) + bs[k] == Flatten(pre);
  }

  /** With every block holding between 1 and `n` elements, there are between |bs| and |bs| * n elements. */
  lemma {:induction false} FlattenLength<T>(bs: seq<seq<T>>, n: nat)
    requires forall i :: 0 <= i < |bs| ==> 1 <= |bs[i]| <= n
    ensures |bs| <= |Flatten(bs)| <= |bs| * n
  {
    if bs != [] {
      assert forall i :: 0 <= i < |bs[1..]| ==> bs[1..][i] == bs[i + 1];
      FlattenLength(bs[1..], n);
      assert |bs| * n == n + (|bs| - 1) * n;
    }
  }

  /**
   * Taking the last element off the last block takes the last element off the logical
   * sequence; when that empties the block, dropping it changes nothing more.
   */
  lemma FlattenPopLast<T>(bs: seq<seq<T>>)
    requires bs != [] && bs[|bs| - 1] != []
    ensures Flatten(bs) != []
    ensures Flatten(bs)[|Flatten(bs)| - 1] == bs[|bs| - 1][|bs[|bs| - 1]| - 1]
    ensures Flatten(bs[|bs| - 1 := bs[|bs| - 1][..|bs[|bs| - 1]| - 1]]) == Flatten(bs)[..|Flatten(bs)| - 1]
    ensures |bs[|bs| - 1]| == 1 ==> Flatten(bs[..|bs| - 1]) == Flatten(bs)[..|Flatten(bs)| - 1]
  {
    var k := |bs| - 1;
    var pre, b := Flatten(bs[..k]), bs[k];
    FlattenSplit(bs, k);
    FlattenUpdate(bs, k, b[..|b| - 1]);
    assert bs[k + 1..] == [];
    var f := Flatten(bs);
    assert f == pre + b;
    assert f[..|f| - 1] == pre + b[..|b| - 1];
    if |b| == 1 {
      assert pre + b[..|b| - 1] == pre;
    }
  }

  /**
   * Removing offset `e` of block `k`, and then the block itself if that empties it, removes
   * logical element (elements before `k`) + `e` and nothing else.
   */
  lemma FlattenRemoveAndDrop<T>(bs: seq<seq<T>>, k: nat, e: nat)
    requires k < |bs| && e < |bs[k]|
    ensures |Flatten(bs[..k])| + e < |Flatten(bs)|
    ensures Flatten(bs)[|Flatten(bs[..k])| + e] == bs[k][e]
    ensures Flatten(bs[k := bs[k][..e] + bs[k][e + 1..]])
         == Flatten(bs)[..|Flatten(bs[..k])| + e] + Flatten(bs)[|Flatten(bs[..k])| + e + 1..]
    ensures |bs[k]| == 1 ==>
      Flatten(bs[..k] + bs[k + 1..]) == Flatten(bs)[..|Flatten(bs[..k])| + e] + Flatten(bs)[|Flatten(bs[..k])| + e + 1..]
  {
    FlattenAt(bs, k, e);
    FlattenRemoveAt(bs, k, e);
    if |bs[k]| == 1 {
      var cs := bs[k := []];
      assert bs[k][..e] + bs[k][e + 1..] == [];
      FlattenDropEmpty(cs, k);
      assert cs[..k] + cs[k + 1..] == bs[..k] + bs[k + 1..];
    }
  }

  /** Every block holds at least one and at most `n` elements. */
  ghost predicate Shaped<T>(bs: seq<seq<T>>, n: nat)
  {
    forall k :: 0 <= k < |bs| ==> 1 <= |bs[k]| <= n
  }

  /**
   * Removing offset `e` of block `k` keeps the shape, provided the block is dropped when
   * that empties it.
   */
  lemma ShapedRemoveAt<T>(bs: seq<seq<T>>, k: nat, e: nat, n: nat)
    requires Shaped(bs, n) && k < |bs| && e < |bs[k]|
    ensures |bs[k]| == 1 ==> Shaped(bs[..k] + bs[k + 1..], n)
    ensures |bs[k]| != 1 ==> Shaped(bs[k := bs[k][..e] + bs[k][e + 1..]], n)
  {
    if |bs[k]| == 1 {
      var cs := bs[..k] + bs[k + 1..];
      forall j | 0 <= j < |cs|
        ensures 1 <= |cs[j]| <= n
      {
        if j < k {
          assert cs[j] == bs[j];
        } else {
          assert cs[j] == bs[j + 1];
        }
      }
    }
  }

  /**
   * Pushing `v` at the back: into a new last block when there is none or the last one is
   * full, into the last block otherwise. Either way the shape is kept and `v` is appended.
   */
  lemma PushBackBlocks<T>(bs: seq<seq<T>>, v: T, n: nat)
    requires Shaped(bs, n) && 1 <= n
    ensures bs == [] || |bs[|bs| - 1]| == n ==>
      Shaped(bs + [[v]], n) && Flatten(bs + [[v]]) == Flatten(bs) + [v]
    ensures !(bs == [] || |bs[|bs| - 1]| == n) ==>
      && Shaped(bs[|bs| - 1 := bs[|bs| - 1] + [v]], n)
      && Flatten(bs[|bs| - 1 := bs[|bs| - 1] + [v]]) == Flatten(bs) + [v]
  {
    if bs == [] || |bs[|bs| - 1]| == n {
      FlattenSnoc(bs, [v]);
    } else {
      var k := |bs| - 1;
      var pre, b := Flatten(bs[..k]), bs[k];
      FlattenUpdate(bs, k, b + [v]);
      FlattenSplit(bs, k);
      assert bs[k + 1..] == [];
      assert pre + (b + [v]) + [] == pre + b + [] + [v];
    }
  }

  /**
   * Pushing `v` at the front: into a new first block when there is none or the first one is
   * full, into the first block otherwise. Either way the shape is kept and `v` is prepended.
   */
  lemma PushFrontBlocks<T>(bs: seq<seq<T>>, v: T, n: nat)
    requires Shaped(bs, n) && 1 <= n
    ensures bs == [] || |bs[0]| == n ==>
      Shaped([[v]] + bs, n) && Flatten([[v]] + bs) == [v] + Flatten(bs)
    ensures !(bs == [] || |bs[0]| == n) ==>
      && Shaped(bs[0 := [v] + bs[0]], n)
      && Flatten(bs[0 := [v] + bs[0]]) == [v] + Flatten(bs)
  {
    if bs == [] || |bs[0]| == n {
      assert ([[v]] + bs)[1..] == bs;
    } else {
      var b, post := bs[0], Flatten(bs[1..]);
      FlattenUpdate(bs, 0, [v] + b);
      FlattenSplit(bs, 0);
      assert bs[..0] == [];
      assert [] + ([v] + b) + post == [v] + ([] + b + post);
    }
  }

  /** Filling a new, empty first block. */
  lemma FillNewFirst<T>(bs: seq<seq<T>>, x: seq<T>)
    ensures ([[]] + bs)[0 := x] == [x] + bs
  {
    var cs := ([[]] + bs)[0 := x];
    assert cs[1..] == bs;
    assert cs == [cs[0]] + cs[1..];
  }

  /** Filling a new, empty last block. */
  lemma FillNewLast<T>(bs: seq<seq<T>>, x: seq<T>)
    ensures (bs + [[]])[|bs| := x] == bs + [x]
  {
    var cs := (bs + [[]])[|bs| := x];
    assert cs[..|bs|] == bs;
    assert cs == cs[..|bs|] + [cs[|bs|]];
  }
}
