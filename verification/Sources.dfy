/** Tensor sources: what the aligner and the encoder read checkpoints through
    (modules/core/include/synapsefs/core/interfaces.hpp, modules/core/src/tensor.cpp). */
module Sources {
  import opened Common
  import opened Arith
  import opened Records
  import opened Reader

  /** `read(name, first, count, out)` copies output units into `out`. */
  datatype Source = Source(metas: map<string, Meta>, read: (string, nat, nat, seq<Byte>) -> Result<Got>)

  /** Bytes per index of axis `dim`. */
  function UnitBytes(m: Meta, dim: nat): (r: Result<nat>)
    ensures r.Ok? ==> dim < |m.shape| && m.shape[dim] > 0 && m.shape[dim] * r.value == m.nbytes
  {
    if dim >= |m.shape| || m.shape[dim] == 0 || m.nbytes % m.shape[dim] != 0 then Err(ShapeMismatch) else
      var u := m.nbytes / m.shape[dim];
      assert m.nbytes == m.shape[dim] * u + m.nbytes % m.shape[dim];
      Ok(u)
  }

  /** A checkpoint tensor as committed. */
  datatype Tensor = Tensor(shape: seq<nat>, dtype: DType, bytes: seq<Byte>) {
    ghost predicate Valid() {
      |shape| >= 1 && shape[0] >= 1 && |bytes| == Product(shape) * dtype.Size()
    }

    /** Bytes per row. */
    function RowBytes(): nat
      requires |shape| >= 1
    {
      Product(shape[1..]) * dtype.Size()
    }

    function Info(): Meta { Meta(shape, dtype, |bytes|) }
  }

  lemma RowsOfTensor(t: Tensor)
    requires t.Valid()
    ensures |t.bytes| == t.shape[0] * t.RowBytes() && UnitBytes(t.Info(), 0) == Ok(t.RowBytes())
    ensures t.RowBytes() % t.dtype.Size() == 0
  {
    var rest, w := Product(t.shape[1..]), t.dtype.Size();
    assert Product(t.shape) == t.shape[0] * rest;
    assert t.shape[0] * rest * w == t.shape[0] * (rest * w);
    assert |t.bytes| == t.RowBytes() * t.shape[0] + 0;
    DivUnique(t.RowBytes(), 0, t.shape[0]);
    DivUnique(rest, 0, w);
  }

  /** Reads of existing units of this tensor yield those units of `bytes`. */
  ghost predicate Yields(src: Source, name: string, ub: nat, bytes: seq<Byte>) {
    forall first: nat, count: nat, out: seq<Byte> ::
      |out| == count * ub && 0 <= first * ub <= first * ub + count * ub <= |bytes| ==>
        src.read(name, first, count, out) == Ok(Got(count * ub, bytes[first * ub..first * ub + count * ub]))
  }

  /** The source holds this tensor. */
  ghost predicate Supplies(src: Source, name: string, t: Tensor) {
    && t.Valid() && name in src.metas && src.metas[name] == t.Info()
    && Yields(src, name, t.RowBytes(), t.bytes)
  }

  /** Every read of this tensor fails. */
  ghost predicate Blind(src: Source, name: string) {
    forall first: nat, count: nat, out :: src.read(name, first, count, out).Err?
  }

  /** Like `Supplies`, except that a scalar is declared but cannot be read: it has no rows. */
  ghost predicate Answers(src: Source, name: string, t: Tensor) {
    if t.shape == [] then
      name in src.metas && src.metas[name] == t.Info() && Blind(src, name)
    else Supplies(src, name, t)
  }

  // ------------------------------------------------------------- a checkpoint file

  type File = map<string, Tensor>

  function MetasOf(file: File): map<string, Meta> {
    map name | name in file :: file[name].Info()
  }

  /** StSource::read_units over the tensor's own extent. */
  function ReadFile(file: File, name: string, first: nat, count: nat, out: seq<Byte>): Result<Got> {
    if name !in file then Err(TensorNotInBufferLayout) else
      var t := file[name];
      var ub :- UnitBytes(t.Info(), 0);
      if |out| < count * ub then Err(Internal) else
        var got := Clip(t.bytes, first * ub, out[..count * ub]);
        Ok(Got(got.n, got.out + out[count * ub..]))
  }

  function FileSource(file: File): Source {
    Source(MetasOf(file),
        (name: string, first: nat, count: nat, out: seq<Byte>) => ReadFile(file, name, first, count, out))
  }

  /** Tensors of rank one or more have rows and as many bytes as their shape says. */
  ghost predicate AllShaped(file: File) { forall name :: name in file && file[name].shape != [] ==> file[name].Valid() }

  ghost predicate NoScalars(file: File) { forall name :: name in file ==> file[name].shape != [] }

  lemma FileAnswers(file: File, name: string)
    requires name in file && AllShaped(file)
    ensures Answers(FileSource(file), name, file[name])
  {
    if file[name].shape != [] {
      FileSupplies(file, name);
    }
  }

  lemma FileSupplies(file: File, name: string)
    requires name in file && file[name].Valid()
    ensures Supplies(FileSource(file), name, file[name])
  {
    var t, src := file[name], FileSource(file);
    RowsOfTensor(t);
    var ub := t.RowBytes();
    forall first: nat, count: nat, out: seq<Byte> | |out| == count * ub
        && 0 <= first * ub <= first * ub + count * ub <= |t.bytes|
      ensures src.read(name, first, count, out) == Ok(Got(count * ub, t.bytes[first * ub..first * ub + count * ub]))
    {
      var lo, n := first * ub, count * ub;
      assert out[..n] == out && out[n..] == [];
      assert Clip(t.bytes, lo, out).out == t.bytes[lo..lo + n];
    }
  }
}
