/** Compressed sparse rows, and the product that the blocked formats must agree with. */
module CsrMatrix {
  import opened Products

  /** Rows of elements in column order.  Everything is 0-based. */
  datatype Csr = Csr(nrows: nat, ncols: nat, rowPtr: seq<nat>, colInd: seq<nat>, values: seq<real>)
  {
    ghost predicate Valid() {
      && |rowPtr| == nrows + 1 && rowPtr[0] == 0 && rowPtr[nrows] == |colInd| == |values|
      && (forall i, j :: 0 <= i <= j <= nrows ==> rowPtr[i] <= rowPtr[j])
      && (forall k :: 0 <= k < |colInd| ==> colInd[k] < ncols)
      && (forall i, k, l :: 0 <= i < nrows && rowPtr[i] <= k < l < rowPtr[i + 1] ==> colInd[k] < colInd[l])
    }

    /** The products of the elements a..b, added up. */
    function Stretch(x: seq<real>, a: nat, b: nat): real
      requires a <= b <= |colInd| == |values|
      requires forall k :: 0 <= k < |colInd| ==> colInd[k] < |x|
      decreases b - a
    {
      if a == b then 0.0 else Stretch(x, a, b - 1) + Mul(values[b - 1], x[colInd[b - 1]])
    }

    /** Row i of the product. */
    function RowProduct(x: seq<real>, i: nat): real
      requires Valid() && i < nrows && |x| >= ncols
    {
      Stretch(x, rowPtr[i], rowPtr[i + 1])
    }
  }
}
