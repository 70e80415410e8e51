/** The two whole-array operations the composers apply to palettes:
    `np.flip(colors, 0)` (reverse the rows) and `np.concatenate` (join
    blocks of rows in order). */
module Rows {

  /** The rows of `s` in reverse order. */
  function Flip<T>(s: seq<T>): (r: seq<T>)
    ensures |r| == |s|
    ensures forall k :: 0 <= k < |s| ==> r[k] == s[|s| - 1 - k]
  {
    if s == [] then [] else [s[|s| - 1]] + Flip(s[..|s| - 1])
  }

  /** Flipping twice gives back the original rows. */
  lemma FlipInvolution<T>(s: seq<T>)
    ensures Flip(Flip(s)) == s
  {
  }

  /** Flipping a joined sequence flips each part and swaps their order: a
      single reversal of the whole is not a reversal of each part. */
  lemma FlipAppend<T>(a: seq<T>, b: seq<T>)
    ensures Flip(a + b) == Flip(b) + Flip(a)
  {
  }

  /** `s` when `reverse` is false, its reversal otherwise. */
  function Oriented<T>(s: seq<T>, reverse: bool): (r: seq<T>)
    ensures |r| == |s|
    ensures forall k :: 0 <= k < |s| ==> r[k] == s[if reverse then |s| - 1 - k else k]
  {
    if reverse then Flip(s) else s
  }

  /** The blocks joined in order, each keeping its own row order; the
      result is exactly as long as all blocks together. */
  function Flatten<T>(blocks: seq<seq<T>>): (r: seq<T>)
    ensures |r| == TotalRows(blocks)
  {
    if blocks == [] then [] else blocks[0] + Flatten(blocks[1..])
  }

  /** Joining two lists of blocks joins their flattenings. */
  lemma {:induction false} FlattenAppend<T>(a: seq<seq<T>>, b: seq<seq<T>>)
    ensures Flatten(a + b) == Flatten(a) + Flatten(b)
  {
    if a == [] {
      assert a + b == b;
    } else {
      assert (a + b)[1..] == a[1..] + b;
      FlattenAppend(a[1..], b);
    }
  }

  /** Where block `i` starts in the joined sequence. */
  function Offset<T>(blocks: seq<seq<T>>, i: nat): nat
    requires i <= |blocks|
  {
    |Flatten(blocks[..i])|
  }

  /** Block `i` appears verbatim in the joined sequence, starting right after
      the rows of the blocks before it. */
  lemma {:induction false} FlattenBlock<T>(blocks: seq<seq<T>>, i: nat)
    requires i < |blocks|
    ensures Offset(blocks, i) + |blocks[i]| <= |Flatten(blocks)|
    ensures Flatten(blocks)[Offset(blocks, i)..Offset(blocks, i) + |blocks[i]|] == blocks[i]
    ensures Offset(blocks, i + 1) == Offset(blocks, i) + |blocks[i]|
  {
    assert blocks == blocks[..i] + blocks[i..];
    FlattenAppend(blocks[..i], blocks[i..]);
    assert blocks[i..][1..] == blocks[i + 1..];
    assert Flatten(blocks[i..]) == blocks[i] + Flatten(blocks[i + 1..]);
    assert blocks[..i + 1] == blocks[..i] + [blocks[i]];
    FlattenAppend(blocks[..i], [blocks[i]]);
    assert Flatten([blocks[i]]) == blocks[i] + Flatten([]);
  }

  /** The number of rows of all blocks together. */
  function TotalRows<T>(blocks: seq<seq<T>>): nat
  {
    if blocks == [] then 0 else |blocks[0]| + TotalRows(blocks[1..])
  }

  /** Block `i` starts after the rows of all blocks before it. */
  lemma {:induction false} OffsetIsTotal<T>(blocks: seq<seq<T>>, i: nat)
    requires i <= |blocks|
    ensures Offset(blocks, i) == TotalRows(blocks[..i])
  {
  }

  /** Two blocks are joined as the first followed by the second. */
  lemma FlattenPair<T>(a: seq<T>, b: seq<T>)
    ensures Flatten([a, b]) == a + b
  {
    assert [a, b][1..] == [b];
    assert Flatten([b]) == b + Flatten([]);
  }
}
