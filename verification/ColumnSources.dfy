/** The planner's column-permuting adapter (modules/store/src/commit_planner.cpp): the base as the encoder sees it
    when a tensor's secondary axis has moved. */
module ColumnSources {
  import opened Common
  import opened Arith
  import opened Gather
  import opened Records
  import opened Reader
  import opened ReadBack
  import opened Sources

  function ReadColumns(inner: Source, tensor: string, q: seq<int>, cub: nat, name: string, first: nat, count: nat,
      out: seq<Byte>): Result<Got> {
    if name != tensor then inner.read(name, first, count, out) else
      var got :- inner.read(name, first, count, out);
      var row := |q| * cub;
      if got.n != count * row || |got.out| < count * row || !InRow(Columns(q, cub)) then Err(Internal) else
        Ok(Got(got.n, ColumnPermute(got.out[..count * row], count, row, q, cub) + got.out[count * row..]))
  }

  /** Same tensors; rows of one of them come back with their columns permuted. */
  function ColumnSource(inner: Source, tensor: string, q: seq<int>, cub: nat): Source {
    Source(inner.metas, (name: string, first: nat, count: nat, out: seq<Byte>) => ReadColumns(inner, tensor, q, cub,
        name, first, count, out))
  }

  lemma OtherTensors(inner: Source, tensor: string, q: seq<int>, cub: nat, name: string, ub: nat, bytes: seq<Byte>)
    requires name != tensor && Yields(inner, name, ub, bytes)
    ensures Yields(ColumnSource(inner, tensor, q, cub), name, ub, bytes)
  {}

  lemma ReadColumnsIs(inner: Source, tensor: string, q: seq<int>, cub: nat, rows: nat, ub: nat, bytes: seq<Byte>,
      first: nat, count: nat, out: seq<Byte>)
    requires Yields(inner, tensor, ub, bytes) && |bytes| == rows * ub && ColumnsFit(ub, q, cub)
    requires |out| == count * ub && 0 <= first * ub <= first * ub + count * ub <= |bytes|
    ensures ReadColumns(inner, tensor, q, cub, tensor, first, count, out)
         == Ok(Got(count * ub, ColumnPermute(bytes, rows, ub, q, cub)[first * ub..first * ub + count * ub]))
  {
    var lo, n := first * ub, count * ub;
    var got := bytes[lo..lo + n];
    assert inner.read(tensor, first, count, out) == Ok(Got(n, got));
    hide ReadColumns, ColumnPermute, Yields;
    ReadWhole(inner, tensor, q, cub, ub, first, count, out, got);
    if ub > 0 {
      RowsInside(first, count, rows, ub);
      ColumnPermuteSlice(bytes, rows, ub, q, cub, first, count);
    }
  }

  lemma RowsInside(first: nat, count: nat, rows: nat, ub: nat)
    requires ub > 0 && first * ub + count * ub <= rows * ub
    ensures first + count <= rows
  {
    MulAdd(first, count, ub);
    if first + count > rows {
      MulLe(rows + 1, first + count, ub);
      MulSucc(rows, ub);
    }
  }

  lemma ReadWhole(inner: Source, tensor: string, q: seq<int>, cub: nat, ub: nat, first: nat, count: nat,
      out: seq<Byte>, got: seq<Byte>)
    requires inner.read(tensor, first, count, out) == Ok(Got(count * ub, got)) && |got| == count * ub
        && ColumnsFit(ub, q, cub)
    ensures ReadColumns(inner, tensor, q, cub, tensor, first, count,
        out) == Ok(Got(count * ub, ColumnPermute(got, count, ub, q, cub)))
  {
    var n := count * ub;
    assert got[..n] == got && got[n..] == [];
    hide ColumnPermute;
    var moved := ColumnPermute(got, count, ub, q, cub);
    assert moved + [] == moved;
  }

  /** The adapter yields the tensor with every row permuted. */
  lemma ThisTensor(inner: Source, tensor: string, q: seq<int>, cub: nat, rows: nat, ub: nat, bytes: seq<Byte>)
    requires Yields(inner, tensor, ub, bytes) && |bytes| == rows * ub && ColumnsFit(ub, q, cub)
    ensures Yields(ColumnSource(inner, tensor, q, cub), tensor, ub, ColumnPermute(bytes, rows, ub, q, cub))
  {
    hide Yields, ReadColumns;
    forall first: nat, count: nat, out: seq<Byte> | |out| == count * ub
        && 0 <= first * ub <= first * ub + count * ub <= |bytes|
      ensures ColumnSource(inner, tensor, q, cub).read(tensor, first, count, out)
           == Ok(Got(count * ub, ColumnPermute(bytes, rows, ub, q, cub)[first * ub..first * ub + count * ub]))
    {
      ReadColumnsIs(inner, tensor, q, cub, rows, ub, bytes, first, count, out);
    }
    YieldsIntro(ColumnSource(inner, tensor, q, cub), tensor, ub, ColumnPermute(bytes, rows, ub, q, cub));
  }

  lemma YieldsIntro(src: Source, name: string, ub: nat, bytes: seq<Byte>)
    requires forall first: nat, count: nat, out: seq<Byte> ::
      |out| == count * ub && 0 <= first * ub <= first * ub + count * ub <= |bytes| ==>
        src.read(name, first, count, out) == Ok(Got(count * ub, bytes[first * ub..first * ub + count * ub]))
    ensures Yields(src, name, ub, bytes)
  {}

  /** Also when there is nothing to move. */
  lemma MovedTensor(inner: Source, tensor: string, cols: Columns, rows: nat, ub: nat, bytes: seq<Byte>)
    requires Yields(inner, tensor, ub, bytes) && |bytes| == rows * ub && InRow(cols) && ub == |cols.perm| * cols.cub
    ensures Yields(ColumnSource(inner, tensor, cols.perm, cols.cub), tensor, ub, Moved(bytes, rows, ub, cols))
  {
    hide Yields;
    ThisTensor(inner, tensor, cols.perm, cols.cub, rows, ub, bytes);
    if cols.perm == [] {
      assert ub == 0 && bytes == [];
    }
  }
}
