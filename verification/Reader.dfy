/** The one reconstructor, modules/codec/src/reconstruct.cpp: a ranged read of a tensor walks its delta chain frame by
    frame. `hops` bounds the recursion; Depth shows how much of it a well-formed chain needs. */
module Reader {
  import opened Common
  import opened Arith
  import opened Permutations
  import opened Gather
  import opened Runs
  import opened Records
  import opened StoredPerm
  import opened Frames

  datatype Ctx = Ctx(store: Store, manifest: Manifest, topology: Option<Topology>, maxDepth: nat)

  /** Reads from an offset into a buffer. */
  type RangeReader = (nat, seq<Byte>) -> Result<Got>

  // ------------------------------------------------------------- base bytes of a frame

  function ReadUnits(base: RangeReader, ub: nat, first: int, count: nat): Result<seq<Byte>> {
    if first < 0 then Err(Internal) else
      MulLe(0, first, ub);
      var got :- base(first * ub, Zeros(count * ub));
      if got.n != count * ub || |got.out| != count * ub then Err(MalformedObject) else Ok(got.out)
  }

  function UnitsOf(base: RangeReader, ub: nat): UnitReader {
    (first: int, count: nat) => ReadUnits(base, ub, first, count)
  }

  /** gather_base_bytes; an empty permutation stands for the identity. */
  function GatherBase(base: RangeReader, perm: seq<int>, first: nat, count: nat, ub: nat): (r: Result<seq<Byte>>)
    requires perm == [] || first + count <= |perm|
    ensures r.Ok? ==> |r.value| == count * ub
  {
    if perm == [] then ReadUnits(base, ub, first, count) else
        GatherThroughRuns(UnitsOf(base, ub), perm, first, count, ub)
  }

  // ------------------------------------------------------------- the secondary axis

  function Product(shape: seq<nat>): nat {
    if shape == [] then 1 else shape[0] * Product(shape[1..])
  }

  /** Elements that move together with one index of `dim`. */
  function Trailing(shape: seq<nat>, dim: nat): nat {
    if dim < |shape| then Product(shape[dim + 1..]) else 1
  }

  function SecondaryAxis(axes: seq<AxisBinding>): (r: Option<AxisBinding>)
    ensures r.None? ==> forall i :: 0 <= i < |axes| ==> axes[i].dim == 0
    ensures r.Some? ==>
      exists i :: 0 <= i < |axes| && axes[i] == r.value && r.value.dim != 0
        && forall k :: 0 <= k < i ==> axes[k].dim == 0
  {
    if axes == [] then None else if axes[0].dim != 0 then Some(axes[0]) else SecondaryAxis(axes[1..])
  }

  predicate Owns(axes: seq<AxisBinding>, group: string) {
    exists i :: 0 <= i < |axes| && axes[i].dim == 0 && axes[i].group == group
  }

  /** The first tensor, in hash-map order, whose rows the group permutes. */
  function OwnerOf(topo: Topology, names: seq<string>, group: string): (r: Option<string>)
    ensures r.Some? ==> r.value in names && r.value in topo.tensors && Owns(topo.tensors[r.value], group)
    ensures r.None? ==> forall t :: t in names && t != "" && t in topo.tensors ==> !Owns(topo.tensors[t], group)
  {
    if names == [] then None else
    if names[0] != "" && names[0] in topo.tensors && Owns(topo.tensors[names[0]], group) then Some(names[0]) else
    OwnerOf(topo, names[1..], group)
  }

  predicate IsPinned(topo: Topology, group: string) {
    group in topo.groups && topo.groups[group].pinned
  }

  /** A column permutation in items of cub bytes; an empty one means nothing to do. */
  datatype Columns = Columns(perm: seq<int>, cub: nat)

  predicate InRow(c: Columns) { forall i :: 0 <= i < |c.perm| ==> 0 <= c.perm[i] < |c.perm| }

  const NoColumns := Columns([], 0)

  /** resolve_secondary_permutation. */
  function ResolveSecondary(p: Prims, ctx: Ctx, t: TensorDiff): (r: Result<Columns>)
    ensures r.Ok? ==> InRow(r.value)
  {
    if ctx.topology.None? || t.name !in ctx.topology.value.tensors then Ok(NoColumns) else
      var topo := ctx.topology.value;
      var axis := SecondaryAxis(topo.tensors[t.name]);
      if axis.None? || IsPinned(topo, axis.value.group) then Ok(NoColumns) else
        var owner := OwnerOf(topo, topo.order, axis.value.group);
        if owner.None? then Err(Internal) else
        if owner.value !in ctx.manifest.groups then Err(MalformedObject) else
          OwnerColumns(p, ctx.store, ctx.manifest.groups[owner.value], axis.value, t)
  }

  /** The owner's permutation, expanded to this axis. */
  function OwnerColumns(p: Prims, store: Store, owner: GroupEntry, axis: AxisBinding,
      t: TensorDiff): (r: Result<Columns>)
    ensures r.Ok? ==> InRow(r.value)
  {
    if owner.Full? then Ok(NoColumns) else
      var art :- GetDiff(p, store, owner.diff);
      var perm :- ReadPermutation(art.header.permutation, art.payload);
      if art.header.permutation.Identity? then Ok(NoColumns) else
        ExpandIsPermutation(perm, |perm|, axis.block);
        Ok(Columns(Expand(perm, axis.block), Trailing(t.shape, axis.dim) * t.dtype.Size()))
  }

  // ------------------------------------------------------------- frames

  /** What every frame of one tensor shares. */
  datatype Plan = Plan(payload: seq<Byte>, t: TensorDiff, ub: nat, axis: nat, rows: seq<int>, cols: Columns)

  ghost predicate ValidPlan(g: Plan) {
    && (g.rows == [] || |g.rows| == g.axis)
    && InRow(g.cols) && (g.cols.perm != [] ==> g.ub == |g.cols.perm| * g.cols.cub)
  }

  /** Base bytes of a frame with its columns put in order. */
  function BaseOfFrame(g: Plan, f: Frame, base: RangeReader): (r: Result<seq<Byte>>)
    requires ValidPlan(g) && f.unitBegin <= f.unitEnd <= g.axis
    ensures r.Ok? ==> |r.value| == (f.unitEnd - f.unitBegin) * g.ub
  {
    var n := f.unitEnd - f.unitBegin;
    var rows :- GatherBase(base, g.rows, f.unitBegin, n, g.ub);
    if g.cols.perm == [] then Ok(rows) else Ok(ColumnPermute(rows, n, g.ub, g.cols.perm, g.cols.cub))
  }

  function FrameBytes(p: Prims, g: Plan, f: Frame, base: RangeReader): (r: Result<seq<Byte>>)
    requires ValidPlan(g) && f.unitBegin <= f.unitEnd <= g.axis
    ensures r.Ok? ==> |r.value| == (f.unitEnd - f.unitBegin) * g.ub
  {
    if f.off + f.len > |g.payload| then Err(MalformedObject) else
      var size := (f.unitEnd - f.unitBegin) * g.ub;
      var moved :- BaseOfFrame(g, f, base);
      var resid :- p.decompress(g.payload[f.off..f.off + f.len], size);
      if |resid| != size then Err(MalformedObject) else
        var bytes :- ApplyResidual(g.t.residual, g.t.transform, g.t.dtype.Size(), moved, resid);
        if p.digest(bytes) != f.digest then Err(FrameDigestMismatch) else Ok(bytes)
  }

  function Overwrite(out: seq<Byte>, at: nat, bytes: seq<Byte>): (r: seq<Byte>)
    requires at + |bytes| <= |out|
    ensures |r| == |out|
  {
    out[..at] + bytes + out[at + |bytes|..]
  }

  /** One turn of the frame loop. */
  function ReadFrame(p: Prims, g: Plan, f: Frame, base: RangeReader, off: nat, acc: Got): (r: Result<Got>)
    requires ValidPlan(g)
    ensures r.Ok? ==> |r.value.out| == |acc.out|
  {
    var begin, end, wantEnd := f.unitBegin * g.ub, f.unitEnd * g.ub, off + |acc.out|;
    if end <= off || begin >= wantEnd then Ok(acc) else
    if f.unitBegin > f.unitEnd || f.unitEnd > g.axis then Err(MalformedObject) else
      var bytes :- FrameBytes(p, g, f, base);
      MulAdd(f.unitBegin, f.unitEnd - f.unitBegin, g.ub);
      var lo, hi := Max(begin, off), Min(end, wantEnd);
      Ok(Got(acc.n + (hi - lo), Overwrite(acc.out, lo - off, bytes[lo - begin..hi - begin])))
  }

  function ReadFrames(p: Prims, g: Plan, frames: seq<Frame>, base: RangeReader, off: nat, acc: Got): (r: Result<Got>)
    requires ValidPlan(g)
    ensures r.Ok? ==> |r.value.out| == |acc.out|
  {
    if frames == [] then Ok(acc) else
      var next :- ReadFrame(p, g, frames[0], base, off, acc);
      ReadFrames(p, g, frames[1..], base, off, next)
  }

  /** The checks read_tensor_range makes before its frame loop. */
  function PlanTensor(p: Prims, ctx: Ctx, art: Artifact, t: TensorDiff): (r: Result<Plan>)
    ensures r.Ok? ==> ValidPlan(r.value)
  {
    if t.frames == [] then Err(MalformedObject) else
      var axis := t.frames[|t.frames| - 1].unitEnd;
      var bytes := Product(t.shape) * t.dtype.Size();
      if axis == 0 || bytes % axis != 0 then Err(MalformedObject) else
        var ub := bytes / axis;
        var rows :- ExpandRows(art, axis);
        var cols :- ResolveSecondary(p, ctx, t);
        if cols.perm != [] && ub != |cols.perm| * cols.cub then Err(BlockFactorMismatch) else
          Ok(Plan(art.payload, t, ub, axis, rows, cols))
  }

  /** The frames cover units that share the tensor's bytes out evenly. */
  lemma PlanSize(p: Prims, ctx: Ctx, art: Artifact, t: TensorDiff)
    requires PlanTensor(p, ctx, art, t).Ok?
    ensures var g := PlanTensor(p, ctx, art, t).value;
      && t.frames != [] && g.axis == t.frames[|t.frames| - 1].unitEnd > 0
      && g.axis * g.ub == Product(t.shape) * t.dtype.Size()
  {
    hide ExpandRows, ResolveSecondary, Product;
    var axis, bytes := t.frames[|t.frames| - 1].unitEnd, Product(t.shape) * t.dtype.Size();
    hide PlanTensor;
    EvenShare(bytes, axis);
    UnitOf(p, ctx, art, t, axis, bytes);
  }

  lemma EvenShare(bytes: nat, axis: nat)
    requires axis > 0 && bytes % axis == 0
    ensures axis * (bytes / axis) == bytes
  {}

  lemma UnitOf(p: Prims, ctx: Ctx, art: Artifact, t: TensorDiff, axis: nat, bytes: nat)
    requires PlanTensor(p, ctx, art, t).Ok? && t.frames != [] && axis == t.frames[|t.frames| - 1].unitEnd > 0
        && bytes == Product(t.shape) * t.dtype.Size()
    ensures PlanTensor(p, ctx, art, t).value.ub == bytes / axis && PlanTensor(p, ctx, art, t).value.axis == axis
  {
    hide ExpandRows, ResolveSecondary, Product;
  }

  /** The group permutation at the granularity of this tensor's axis. */
  function ExpandRows(art: Artifact, axis: nat): (r: Result<seq<int>>)
    requires axis > 0
    ensures r.Ok? ==> r.value == [] || (|r.value| == axis && IsPermutation(r.value, axis))
  {
    var ref := art.header.permutation;
    if ref.Identity? then Ok([]) else
      var perm :- ReadPermutation(ref, art.payload);
      if ref.n == 0 || axis % ref.n != 0 then Err(BlockFactorMismatch) else
        ExpandIsPermutation(perm, ref.n, axis / ref.n);
        Ok(Expand(perm, axis / ref.n))
  }

  /** read_tensor_range. */
  function ReadTensor(p: Prims, ctx: Ctx, art: Artifact, t: TensorDiff, base: RangeReader, off: nat,
      out: seq<Byte>): (r: Result<Got>)
    ensures r.Ok? ==> |r.value.out| == |out|
  {
    var g :- PlanTensor(p, ctx, art, t);
    ReadFrames(p, g, t.frames, base, off, Got(0, out))
  }

  // ------------------------------------------------------------- the recursion

  function FindTensor(tensors: seq<TensorDiff>, name: string): (r: Option<TensorDiff>)
    ensures r.Some? ==> r.value.name == name && r.value in tensors
  {
    if tensors == [] then None else if tensors[0].name == name then Some(tensors[0]) else FindTensor(tensors[1..], name)
  }

  /** read_range. */
  function ReadRange(p: Prims, ctx: Ctx, group: string, off: nat, out: seq<Byte>, hops: nat): (r: Result<Got>)
    ensures r.Ok? ==> |r.value.out| == |out|
    ensures r.Ok? ==> group in ctx.manifest.groups && ctx.manifest.groups[group].ChainDepth() <= ctx.maxDepth
    decreases hops, 1
  {
    if group !in ctx.manifest.groups then Err(MalformedObject) else
      var e := ctx.manifest.groups[group];
      if e.Full? then ReadRaw(ctx.store, e.block, off, out) else
      if e.depth > ctx.maxDepth then Err(ChainTooDeep) else
        var art :- GetDiff(p, ctx.store, e.diff);
        var t := FindTensor(art.header.tensors, group);
        if t.None? then Err(MalformedObject) else
          var m :- ManifestFor(p, ctx.store, e.base);
          if hops == 0 then Err(TooManyHops) else
            ReadTensor(p, ctx, art, t.value, RangeOf(p, ctx.(manifest := m), e.baseGroup, hops - 1), off, out)
  }

  /** The reader of one tensor, to pass on. */
  function RangeOf(p: Prims, ctx: Ctx, group: string, hops: nat): RangeReader
    decreases hops, 2
  {
    (off: nat, out: seq<Byte>) => ReadRange(p, ctx, group, off, out, hops)
  }

  // ------------------------------------------------------------- the loops

  method GatherBaseBytes(base: RangeReader, perm: seq<int>, first: nat, count: nat, ub: nat)
      returns (r: Result<seq<Byte>>)
    requires perm == [] || first + count <= |perm|
    ensures r == GatherBase(base, perm, first, count, ub)
  {
    if perm == [] {
      return ReadUnits(base, ub, first, count);
    }
    r := GatherLoop(UnitsOf(base, ub), perm, first, count, ub);
  }

  method ReconstructFrame(p: Prims, g: Plan, f: Frame, base: RangeReader) returns (r: Result<seq<Byte>>)
    requires ValidPlan(g) && f.unitBegin <= f.unitEnd <= g.axis
    ensures r == FrameBytes(p, g, f, base)
  {
    if f.off + f.len > |g.payload| {
      return Err(MalformedObject);
    }
    var n := f.unitEnd - f.unitBegin;
    var rows := GatherBaseBytes(base, g.rows, f.unitBegin, n, g.ub);
    if rows.Err? {
      return rows;
    }
    var moved := rows.value;
    if g.cols.perm != [] {
      var reordered := new Byte[n * g.ub](i requires 0 <= i < |rows.value| => rows.value[i]);
      assert reordered[..] == rows.value;
      PermuteColumnsInPlace(reordered, n, g.ub, g.cols.perm, g.cols.cub);
      moved := reordered[..];
    }
    var resid := p.decompress(g.payload[f.off..f.off + f.len], n * g.ub);
    if resid.Err? {
      return resid;
    }
    if |resid.value| != n * g.ub {
      return Err(MalformedObject);
    }
    var bytes := new Byte[n * g.ub];
    var failed := ApplyResidualInto(g.t.residual, g.t.transform, g.t.dtype.Size(), moved, resid.value, bytes);
    if failed.Some? {
      return Err(failed.value);
    }
    if p.digest(bytes[..]) != f.digest {
      return Err(FrameDigestMismatch);
    }
    return Ok(bytes[..]);
  }

  method ReadOneFrame(p: Prims, g: Plan, f: Frame, base: RangeReader, off: nat, acc: Got) returns (r: Result<Got>)
    requires ValidPlan(g)
    ensures r == ReadFrame(p, g, f, base, off, acc)
  {
    var begin, end, wantEnd := f.unitBegin * g.ub, f.unitEnd * g.ub, off + |acc.out|;
    if end <= off || begin >= wantEnd {
      return Ok(acc);
    }
    if f.unitBegin > f.unitEnd || f.unitEnd > g.axis {
      return Err(MalformedObject);
    }
    var bytes := ReconstructFrame(p, g, f, base);
    if bytes.Err? {
      return Err(bytes.error);
    }
    MulAdd(f.unitBegin, f.unitEnd - f.unitBegin, g.ub);
    var lo, hi := Max(begin, off), Min(end, wantEnd);
    return Ok(Got(acc.n + (hi - lo), Overwrite(acc.out, lo - off, bytes.value[lo - begin..hi - begin])));
  }

  /** The frame loop computes ReadTensor. */
  method ReadTensorRange(p: Prims, ctx: Ctx, art: Artifact, t: TensorDiff, base: RangeReader, off: nat,
      out: seq<Byte>)
    returns (r: Result<Got>)
    ensures r == ReadTensor(p, ctx, art, t, base, off, out)
  {
    var plan := PlanTensor(p, ctx, art, t);
    if plan.Err? {
      return Err(plan.error);
    }
    var g, acc, k := plan.value, Got(0, out), 0;
    assert t.frames[0..] == t.frames;
    ghost var whole := ReadTensor(p, ctx, art, t, base, off, out);
    hide PlanTensor, ReadTensor, ReadFrame, ValidPlan;
    while k < |t.frames|
      invariant 0 <= k <= |t.frames| && ValidPlan(g) && whole == ReadFrames(p, g, t.frames[k..], base, off, acc)
    {
      assert t.frames[k..][0] == t.frames[k] && t.frames[k..][1..] == t.frames[k + 1..];
      var next := ReadOneFrame(p, g, t.frames[k], base, off, acc);
      if next.Err? {
        return next;
      }
      acc := next.value;
      k := k + 1;
    }
    return Ok(acc);
  }
}
