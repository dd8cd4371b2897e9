/** The in-place sum of 2 to 20 blocks into the first one, on exact numbers. */
module ReduceSum {

  const MAX_NUM_BLOCK := 20

  predicate Supported(numBlocks: int) {
    2 <= numBlocks <= MAX_NUM_BLOCK
  }

  /** Element `i` summed over the rows, left to right. */
  function RowSum(rows: seq<seq<real>>, i: nat): real
    requires forall r | r in rows :: i < |r|
  {
    if rows == [] then 0.0 else RowSum(rows[..|rows| - 1], i) + rows[|rows| - 1][i]
  }

  lemma RowSumOne(row: seq<real>, i: nat)
    requires i < |row|
    ensures RowSum([], i) == 0.0 && RowSum([row], i) == row[i]
  {
    assert [row][..0] == [];
  }

  /** Rows may be summed in parts: with `RowSumOne`, this is what makes it a sum. */
  lemma {:induction false} RowSumCat(a: seq<seq<real>>, b: seq<seq<real>>, i: nat)
    requires (forall r | r in a :: i < |r|) && forall r | r in b :: i < |r|
    ensures forall r | r in a + b :: i < |r|
    ensures RowSum(a + b, i) == RowSum(a, i) + RowSum(b, i)
  {
    if b == [] {
      assert a + b == a;
    } else {
      assert (a + b)[..|a + b| - 1] == a + b[..|b| - 1];
      RowSumCat(a, b[..|b| - 1], i);
    }
  }

  lemma RowSumTwo(rows: seq<seq<real>>, i: nat)
    requires |rows| == 2 && i < |rows[0]| && i < |rows[1]|
    ensures RowSum(rows, i) == rows[0][i] + rows[1][i]
  {
    assert rows == [rows[0]] + [rows[1]];
    RowSumOne(rows[0], i);
    RowSumOne(rows[1], i);
    RowSumCat([rows[0]], [rows[1]], i);
  }

  /** The same expression on the blocks as they are in memory now. */
  function SumNow(src: seq<array<real>>, numBlocks: nat, i: nat): real
    requires numBlocks <= |src| && forall j | 0 <= j < numBlocks :: i < src[j].Length
    reads src
  {
    if numBlocks == 0 then 0.0 else SumNow(src, numBlocks - 1, i) + src[numBlocks - 1][i]
  }

  /** The first `numBlocks` blocks as values. */
  ghost function Rows(src: seq<array<real>>, numBlocks: nat): (rows: seq<seq<real>>)
    requires numBlocks <= |src|
    reads src
    ensures |rows| == numBlocks
    ensures forall j | 0 <= j < numBlocks :: rows[j] == src[j][..]
  {
    if numBlocks == 0 then [] else Rows(src, numBlocks - 1) + [src[numBlocks - 1][..]]
  }

  lemma {:induction false} SumNowIsRowSum(src: seq<array<real>>, numBlocks: nat, i: nat, rows: seq<seq<real>>)
    requires numBlocks <= |src| && |rows| == numBlocks
    requires forall j | 0 <= j < numBlocks :: i < src[j].Length && i < |rows[j]| && rows[j][i] == src[j][i]
    ensures SumNow(src, numBlocks, i) == RowSum(rows, i)
  {
    if numBlocks > 0 {
      SumNowIsRowSum(src, numBlocks - 1, i, rows[..numBlocks - 1]);
    }
  }

  /**
   Block 0 becomes the elementwise sum of the original blocks although it is also the first operand,
   whichever other blocks are the same array; its tail and every other array keep their contents. The
   caller must pass 20 readable pointers, since all of them are read before the case distinction.
   */
  method Reduce(src: seq<array<real>>, numBlocks: int, numElements: nat)
    requires |src| >= MAX_NUM_BLOCK
    requires Supported(numBlocks) ==> forall j | 0 <= j < numBlocks :: numElements <= src[j].Length
    modifies src[0]
    ensures Supported(numBlocks) ==>
              forall i | 0 <= i < numElements :: src[0][i] == RowSum(old(Rows(src, numBlocks)), i)
    ensures numBlocks == 2 ==> forall i | 0 <= i < numElements :: src[0][i] == old(src[0][i]) + old(src[1][i])
    ensures Supported(numBlocks) ==> forall i | numElements <= i < src[0].Length :: src[0][i] == old(src[0][i])
    ensures numBlocks < 2 || numBlocks > 20 ==> src[0][..] == old(src[0][..])
  {
    if !Supported(numBlocks) {
      return;
    }
    var dst := src[0];
    ghost var rows := Rows(src, numBlocks);
    for i := 0 to numElements
      invariant forall k | 0 <= k < i :: dst[k] == RowSum(rows, k)
      invariant forall k | i <= k < dst.Length :: dst[k] == old(dst[k])
      invariant forall j | 0 <= j < numBlocks && src[j] != dst :: src[j][..] == old(src[j][..])
    {
      SumNowIsRowSum(src, numBlocks, i, rows);
      dst[i] := SumNow(src, numBlocks, i);
    }
    forall i | numBlocks == 2 && 0 <= i < numElements ensures dst[i] == old(src[0][i]) + old(src[1][i]) {
      RowSumTwo(rows, i);
    }
  }
}
