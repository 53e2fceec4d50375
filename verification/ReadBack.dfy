/** When an artifact encodes a target against a base, reading it over that base gives the target back. */
module ReadBack {
  import opened Common
  import opened Arith
  import opened Gather
  import opened Runs
  import opened Records
  import opened Frames
  import opened Reader

  /** Every ranged read yields exactly the slice of `bytes` that exists. */
  ghost predicate ServesRange(read: RangeReader, bytes: seq<Byte>) {
    forall off: nat, out :: read(off, out) == Ok(Clip(bytes, off, out))
  }

  // ------------------------------------------------------------- base of a frame

  /** The base with its columns in target order. */
  ghost function Moved(base: seq<Byte>, axis: nat, ub: nat, cols: Columns): (r: seq<Byte>)
    requires |base| == axis * ub && InRow(cols) && (cols.perm != [] ==> ub == |cols.perm| * cols.cub)
    ensures |r| == |base|
  {
    if cols.perm == [] then base else ColumnPermute(base, axis, ub, cols.perm, cols.cub)
  }

  /** Rows [begin, end) in target order; an empty list stands for the identity. */
  ghost function Aligned(moved: seq<Byte>, rows: seq<int>, axis: nat, ub: nat, begin: nat, end: nat): (r: seq<Byte>)
    requires |moved| == axis * ub && begin <= end <= axis && (rows == [] || IsPermutation(rows, axis))
    ensures |r| == (end - begin) * ub
  {
    SliceBounds(axis, ub, begin, end);
    RowsExist(moved, rows, axis, ub, begin, end);
    if rows == [] then moved[begin * ub..end * ub] else PermuteUnits(moved, rows[begin..end], ub)
  }

  lemma SliceBounds(axis: nat, ub: nat, begin: nat, end: nat)
    requires begin <= end <= axis
    ensures 0 <= begin * ub <= end * ub <= axis * ub && end * ub == begin * ub + (end - begin) * ub
  {
    MulLe(0, begin, ub);
    MulLe(begin, end, ub);
    MulLe(end, axis, ub);
    MulAdd(begin, end - begin, ub);
  }

  lemma RowsExist(moved: seq<Byte>, rows: seq<int>, axis: nat, ub: nat, begin: nat, end: nat)
    requires |moved| == axis * ub && begin <= end <= axis && (rows == [] || IsPermutation(rows, axis))
    ensures rows != [] ==> HasRows(moved, ub, rows[begin..end])
  {
    if rows != [] {
      forall i | 0 <= i < end - begin ensures HasRow(moved, ub, rows[begin..end][i]) {
        RowsFit(moved, ub, axis, rows[begin + i]);
      }
    }
  }

  lemma UnitsServed(base: RangeReader, bytes: seq<Byte>, ub: nat)
    requires ServesRange(base, bytes)
    ensures ServesUnits(UnitsOf(base, ub), bytes, ub)
  {
    forall first: int, count: nat | first >= 0 && 0 <= first * ub <= first * ub + count * ub <= |bytes|
      ensures UnitsOf(base, ub)(first, count) == Ok(bytes[first * ub..first * ub + count * ub])
    {
      ReadUnitsIs(base, bytes, ub, first, count);
    }
  }

  lemma ReadUnitsIs(base: RangeReader, bytes: seq<Byte>, ub: nat, first: nat, count: nat)
    requires ServesRange(base, bytes) && 0 <= first * ub <= first * ub + count * ub <= |bytes|
    ensures ReadUnits(base, ub, first, count) == Ok(bytes[first * ub..first * ub + count * ub])
  {
    var lo, n := first * ub, count * ub;
    assert base(lo, Zeros(n)) == Ok(Clip(bytes, lo, Zeros(n)));
    assert Clip(bytes, lo, Zeros(n)).n == n;
    assert Clip(bytes, lo, Zeros(n)).out == bytes[lo..lo + n];
  }

  lemma GatherBaseIs(base: RangeReader, bytes: seq<Byte>, rows: seq<int>, axis: nat, ub: nat, begin: nat, end: nat)
    requires ServesRange(base, bytes) && |bytes| == axis * ub && begin <= end <= axis
        && (rows == [] || IsPermutation(rows, axis))
    ensures GatherBase(base, rows, begin, end - begin, ub) == Ok(Aligned(bytes, rows, axis, ub, begin, end))
  {
    SliceBounds(axis, ub, begin, end);
    if rows == [] {
      ReadUnitsIs(base, bytes, ub, begin, end - begin);
    } else {
      RowsExist(bytes, rows, axis, ub, begin, end);
      UnitsServed(base, bytes, ub);
      assert rows[begin..begin + (end - begin)] == rows[begin..end];
      GatherIsDirect(UnitsOf(base, ub), bytes, rows, begin, end - begin, ub);
    }
  }

  /** Rows first and columns after, as the reader does it, or the other way round. */
  lemma AlignedMoved(base: seq<Byte>, rows: seq<int>, axis: nat, ub: nat, cols: Columns, begin: nat, end: nat)
    requires |base| == axis * ub && begin <= end <= axis && (rows == [] || IsPermutation(rows, axis))
    requires cols.perm != [] && InRow(cols) && ub == |cols.perm| * cols.cub
    ensures ColumnPermute(Aligned(base, rows, axis, ub, begin, end), end - begin, ub, cols.perm, cols.cub)
         == Aligned(Moved(base, axis, ub, cols), rows, axis, ub, begin, end)
  {
    SliceBounds(axis, ub, begin, end);
    if rows == [] {
      ColumnPermuteSlice(base, axis, ub, cols.perm, cols.cub, begin, end - begin);
    } else {
      RowsAndColumnsCommute(base, axis, rows[begin..end], ub, cols.perm, cols.cub);
    }
  }

  ghost predicate PermutedPlan(g: Plan) {
    ValidPlan(g) && (g.rows == [] || IsPermutation(g.rows, g.axis))
  }

  lemma BaseOfFrameIs(g: Plan, f: Frame, base: RangeReader, bytes: seq<Byte>)
    requires PermutedPlan(g) && f.unitBegin <= f.unitEnd <= g.axis && ServesRange(base, bytes)
        && |bytes| == g.axis * g.ub
    ensures BaseOfFrame(g, f,
        base) == Ok(Aligned(Moved(bytes, g.axis, g.ub, g.cols), g.rows, g.axis, g.ub, f.unitBegin, f.unitEnd))
  {
    GatherBaseIs(base, bytes, g.rows, g.axis, g.ub, f.unitBegin, f.unitEnd);
    if g.cols.perm != [] {
      AlignedMoved(bytes, g.rows, g.axis, g.ub, g.cols, f.unitBegin, f.unitEnd);
    }
  }

  // ------------------------------------------------------------- frames

  /** Frames in order from unit `from` to the end of the axis, without gap or overlap. */
  ghost predicate Tiles(frames: seq<Frame>, from: nat, axis: nat) {
    if frames == [] then from == axis else
      frames[0].unitBegin == from && from <= frames[0].unitEnd <= axis && Tiles(frames[1..], frames[0].unitEnd, axis)
  }

  /** Frame f decodes to its own slice of `target`, given the base in target order. */
  ghost predicate FrameEncodes(p: Prims, g: Plan, f: Frame, moved: seq<Byte>, target: seq<Byte>)
    requires PermutedPlan(g) && |moved| == |target| == g.axis * g.ub && f.unitBegin <= f.unitEnd <= g.axis
  {
    SliceBounds(g.axis, g.ub, f.unitBegin, f.unitEnd);
    var size := (f.unitEnd - f.unitBegin) * g.ub;
    var slice := target[f.unitBegin * g.ub..f.unitEnd * g.ub];
    && f.off + f.len <= |g.payload|
    && var resid := p.decompress(g.payload[f.off..f.off + f.len], size);
    && resid.Ok? && |resid.value| == size
    && ApplyResidual(g.t.residual, g.t.transform, g.t.dtype.Size(),
                     Aligned(moved, g.rows, g.axis, g.ub, f.unitBegin, f.unitEnd), resid.value) == Ok(slice)
    && p.digest(slice) == f.digest
  }

  ghost predicate FramesEncode(p: Prims, g: Plan, frames: seq<Frame>, moved: seq<Byte>, target: seq<Byte>)
    requires PermutedPlan(g) && |moved| == |target| == g.axis * g.ub
  {
    forall i :: 0 <= i < |frames| ==>
      frames[i].unitBegin <= frames[i].unitEnd <= g.axis && FrameEncodes(p, g, frames[i], moved, target)
  }

  lemma FrameBytesIs(p: Prims, g: Plan, f: Frame, base: RangeReader, bytes: seq<Byte>, target: seq<Byte>)
    requires PermutedPlan(g) && ServesRange(base, bytes) && |bytes| == |target| == g.axis * g.ub
        && f.unitBegin <= f.unitEnd <= g.axis
    requires FrameEncodes(p, g, f, Moved(bytes, g.axis, g.ub, g.cols), target)
    ensures 0 <= f.unitBegin * g.ub <= f.unitEnd * g.ub <= |target|
    ensures FrameBytes(p, g, f, base) == Ok(target[f.unitBegin * g.ub..f.unitEnd * g.ub])
  {
    hide Aligned, Moved, ServesRange, ApplyResidual, BaseOfFrame;
    SliceBounds(g.axis, g.ub, f.unitBegin, f.unitEnd);
    BaseOfFrameIs(g, f, base, bytes);
  }

  /** How far the frames before byte `end` of the tensor have filled the buffer. */
  ghost function Reached(off: nat, want: nat, end: nat): nat {
    if end <= off then 0 else Min(want, end - off)
  }

  ghost function Filled(target: seq<Byte>, off: nat, out: seq<Byte>, end: nat): (r: Got)
    requires end <= |target|
    ensures |r.out| == |out|
  {
    var n := Reached(off, |out|, end);
    if n == 0 then Got(0, out) else Got(n, target[off..off + n] + out[n..])
  }

  lemma OverwriteNext(a: seq<Byte>, b: seq<Byte>, out: seq<Byte>)
    requires |a| + |b| <= |out|
    ensures Overwrite(a + out[|a|..], |a|, b) == a + b + out[|a| + |b|..]
  {
    var was := a + out[|a|..];
    assert was[..|a|] == a;
    assert was[|a| + |b|..] == out[|a| + |b|..];
  }

  lemma SliceAgain(target: seq<Byte>, begin: nat, end: nat, lo: nat, hi: nat)
    requires begin <= lo <= hi <= end <= |target|
    ensures target[begin..end][lo - begin..hi - begin] == target[lo..hi]
  {
    SubSlice(target, begin, end - begin, lo - begin, hi - lo);
  }

  lemma SliceJoin(target: seq<Byte>, lo: nat, mid: nat, hi: nat)
    requires lo <= mid <= hi <= |target|
    ensures target[lo..mid] + target[mid..hi] == target[lo..hi]
  {}

  lemma FilledPart(target: seq<Byte>, off: nat, out: seq<Byte>, end: nat)
    requires off <= end <= |target| && end <= off + |out|
    ensures Filled(target, off, out, end) == Got(end - off, target[off..end] + out[end - off..])
  {
    if end == off {
      assert target[off..end] + out[0..] == out;
    }
  }

  lemma FilledMore(target: seq<Byte>, off: nat, out: seq<Byte>, end: nat)
    requires off + |out| <= end <= |target|
    ensures Filled(target, off, out, end) == Filled(target, off, out, off + |out|)
  {}

  lemma FillPiece(target: seq<Byte>, off: nat, out: seq<Byte>, lo: nat, hi: nat)
    requires off <= lo <= hi <= |target| && hi <= off + |out|
    ensures Filled(target, off, out, hi).n == Filled(target, off, out, lo).n + (hi - lo)
    ensures Filled(target, off, out, hi).out == Overwrite(Filled(target, off, out, lo).out, lo - off, target[lo..hi])
  {
    hide Filled, Overwrite;
    FilledPart(target, off, out, lo);
    FilledPart(target, off, out, hi);
    var a, b := target[off..lo], target[lo..hi];
    SliceJoin(target, off, lo, hi);
    OverwriteNext(a, b, out);
  }

  /** One more frame in place. */
  lemma FillFrame(target: seq<Byte>, off: nat, out: seq<Byte>, begin: nat, end: nat, lo: nat, hi: nat)
    requires begin <= end <= |target| && end > off && begin < off + |out| && lo == Max(begin, off)
        && hi == Min(end, off + |out|)
    ensures Filled(target, off, out, end).n == Filled(target, off, out, begin).n + (hi - lo)
    ensures Filled(target, off, out, end).out == Overwrite(Filled(target, off, out, begin).out, lo - off,
        target[begin..end][lo - begin..hi - begin])
  {
    hide Filled, Overwrite;
    FillPiece(target, off, out, lo, hi);
    SliceAgain(target, begin, end, lo, hi);
    FilledEarly(target, off, out, begin);
    if end > hi {
      FilledMore(target, off, out, end);
    }
  }

  lemma FilledEarly(target: seq<Byte>, off: nat, out: seq<Byte>, begin: nat)
    requires begin <= |target| && off <= |target|
    ensures begin <= off ==> Filled(target, off, out, begin) == Filled(target, off, out, off)
  {}

  lemma SkipFrame(target: seq<Byte>, off: nat, out: seq<Byte>, begin: nat, end: nat)
    requires begin <= end <= |target| && (end <= off || begin >= off + |out|)
    ensures Filled(target, off, out, end) == Filled(target, off, out, begin)
  {}

  lemma ReadFrameIs(p: Prims, g: Plan, f: Frame, base: RangeReader, bytes: seq<Byte>, target: seq<Byte>, off: nat,
      out: seq<Byte>)
    requires PermutedPlan(g) && ServesRange(base, bytes) && |bytes| == |target| == g.axis * g.ub
        && f.unitBegin <= f.unitEnd <= g.axis
    requires FrameEncodes(p, g, f, Moved(bytes, g.axis, g.ub, g.cols), target)
    ensures 0 <= f.unitBegin * g.ub <= f.unitEnd * g.ub <= |target|
    ensures ReadFrame(p, g, f, base, off,
        Filled(target, off, out, f.unitBegin * g.ub)) == Ok(Filled(target, off, out, f.unitEnd * g.ub))
  {
    hide Aligned, Moved, ServesRange, ApplyResidual, FrameEncodes, FrameBytes, Filled, Overwrite;
    SliceBounds(g.axis, g.ub, f.unitBegin, f.unitEnd);
    FrameBytesIs(p, g, f, base, bytes, target);
    var begin, end := f.unitBegin * g.ub, f.unitEnd * g.ub;
    if end <= off || begin >= off + |out| {
      SkipFrame(target, off, out, begin, end);
    } else {
      FillFrame(target, off, out, begin, end, Max(begin, off), Min(end, off + |out|));
    }
  }

  lemma {:induction false} ReadFramesIs(p: Prims, g: Plan, frames: seq<Frame>, from: nat, base: RangeReader,
      bytes: seq<Byte>, target: seq<Byte>, off: nat, out: seq<Byte>)
    requires PermutedPlan(g) && ServesRange(base, bytes) && |bytes| == |target| == g.axis * g.ub
    requires from <= g.axis && Tiles(frames, from, g.axis)
        && FramesEncode(p, g, frames, Moved(bytes, g.axis, g.ub, g.cols), target)
    ensures 0 <= from * g.ub <= |target|
    ensures ReadFrames(p, g, frames, base, off,
        Filled(target, off, out, from * g.ub)) == Ok(Filled(target, off, out, |target|))
  {
    hide Moved, ServesRange, FrameEncodes, ReadFrame, Filled;
    SliceBounds(g.axis, g.ub, from, g.axis);
    if frames != [] {
      ReadFrameIs(p, g, frames[0], base, bytes, target, off, out);
      ReadFramesIs(p, g, frames[1..], frames[0].unitEnd, base, bytes, target, off, out);
    }
  }

  lemma FilledIsClip(target: seq<Byte>, off: nat, out: seq<Byte>)
    ensures Filled(target, off, out, 0) == Got(0, out) && Filled(target, off, out, |target|) == Clip(target, off, out)
  {}

  // ------------------------------------------------------------- tensors

  /** The artifact turns `base` into `target` for this tensor, read in this context. */
  ghost predicate Encodes(p: Prims, ctx: Ctx, art: Artifact, t: TensorDiff, base: seq<Byte>, target: seq<Byte>) {
    var g := PlanTensor(p, ctx, art, t);
    && g.Ok? && PermutedPlan(g.value)
    && |base| == |target| == g.value.axis * g.value.ub
    && Tiles(t.frames, 0, g.value.axis)
    && FramesEncode(p, g.value, t.frames, Moved(base, g.value.axis, g.value.ub, g.value.cols), target)
  }

  /** Reading an encoded tensor over its base: the target's slice, for every offset and length. */
  lemma ReadTensorIs(p: Prims, ctx: Ctx, art: Artifact, t: TensorDiff, read: RangeReader, base: seq<Byte>,
      target: seq<Byte>, off: nat, out: seq<Byte>)
    requires Encodes(p, ctx, art, t, base, target) && ServesRange(read, base)
    ensures ReadTensor(p, ctx, art, t, read, off, out) == Ok(Clip(target, off, out))
  {
    hide PlanTensor, ServesRange, FramesEncode, Filled, Moved, ReadFrames;
    var g := PlanTensor(p, ctx, art, t).value;
    ReadFramesIs(p, g, t.frames, 0, read, base, target, off, out);
    FilledIsClip(target, off, out);
    assert 0 * g.ub == 0;
  }

  // ------------------------------------------------------------- groups

  /** The group reads back as exactly `bytes` with this many hops to spend. */
  ghost predicate Serves(p: Prims, ctx: Ctx, group: string, bytes: seq<Byte>, hops: nat) {
    forall off: nat, out :: ReadRange(p, ctx, group, off, out, hops) == Ok(Clip(bytes, off, out))
  }

  lemma FullServes(p: Prims, ctx: Ctx, group: string, bytes: seq<Byte>, hops: nat)
    requires group in ctx.manifest.groups && ctx.manifest.groups[group].Full?
    requires ctx.manifest.groups[group].block in ctx.store && ctx.store[ctx.manifest.groups[group].block] == Raw(bytes)
    ensures Serves(p, ctx, group, bytes, hops)
  {}

  /** What a delta entry needs: its artifact, its base manifest, and an encoding of `target` against `base`. */
  ghost predicate DeltaEncodes(p: Prims, ctx: Ctx, group: string, base: seq<Byte>, target: seq<Byte>) {
    && group in ctx.manifest.groups && ctx.manifest.groups[group].Delta?
    && var e := ctx.manifest.groups[group];
    && e.depth <= ctx.maxDepth
    && var art := GetDiff(p, ctx.store, e.diff);
    && art.Ok?
    && var t := FindTensor(art.value.header.tensors, group);
    && t.Some? && Encodes(p, ctx, art.value, t.value, base, target)
    && ManifestFor(p, ctx.store, e.base).Ok?
  }

  /** One hop: a delta over a group that reads back as `base` reads back as `target`. */
  lemma DeltaServes(p: Prims, ctx: Ctx, group: string, base: seq<Byte>, target: seq<Byte>, hops: nat)
    requires DeltaEncodes(p, ctx, group, base, target)
    requires var e := ctx.manifest.groups[group];
      Serves(p, ctx.(manifest := ManifestFor(p, ctx.store, e.base).value), e.baseGroup, base, hops)
    ensures Serves(p, ctx, group, target, hops + 1)
  {
    var e := ctx.manifest.groups[group];
    var art := GetDiff(p, ctx.store, e.diff).value;
    var t := FindTensor(art.header.tensors, group).value;
    var bctx := ctx.(manifest := ManifestFor(p, ctx.store, e.base).value);
    var read := RangeOf(p, bctx, e.baseGroup, hops);
    assert ServesRange(read, base);
    hide Encodes, ReadTensor;
    forall off: nat, out ensures ReadRange(p, ctx, group, off, out, hops + 1) == Ok(Clip(target, off, out)) {
      ReadTensorIs(p, ctx, art, t, read, base, target, off, out);
    }
  }
}
