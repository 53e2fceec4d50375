/** A planned manifest reads back: each entry is a raw block, or a delta whose artifact, base and moved columns the
    reader finds again. */
module Planned {
  import opened Common
  import opened Arith
  import opened Permutations
  import opened Gather
  import opened Records
  import opened StoredPerm
  import opened Frames
  import opened Reader
  import opened ReadBack
  import opened Sources
  import opened Encoder
  import opened GroupEncoder
  import opened PlanSpec

  datatype ParentInfo = ParentInfo(commit: Oid, depth: nat)

  /** Everything one planning call is about. */
  datatype Job = Job(topo: Topology, report: Report, file: File, prior: File, parents: map<string, ParentInfo>,
      maxDepth: nat)

  ghost predicate Comparable(j: Job, name: string) {
    && name in j.file && name in j.prior
    && j.file[name].Valid() && j.prior[name].Valid() && j.prior[name].shape == j.file[name].shape
        && j.prior[name].dtype == j.file[name].dtype
  }

  lemma SameSize(j: Job, name: string)
    requires Comparable(j, name)
    ensures |j.prior[name].bytes| == |j.file[name].bytes| == j.file[name].shape[0] * j.file[name].RowBytes()
    ensures j.prior[name].RowBytes() == j.file[name].RowBytes() && j.prior[name].Info() == j.file[name].Info()
  {
    RowsOfTensor(j.file[name]);
  }

  ghost predicate JobFits(j: Job) {
    TopologyFits(j.topo, j.file) && ReportFits(j.topo, j.report)
  }

  /** Base columns as the writer moved them, for every tensor that has a base. */
  ghost function MovedFor(j: Job): map<string, seq<Byte>>
    requires JobFits(j)
  {
    map name | name in j.topo.tensors && Comparable(j, name) ::
      SameSize(j, name); MovedTensorBytes(j.topo, j.report, j.topo.tensors[name], j.file[name], j.prior[name].bytes)
  }

  ghost predicate Candidate(j: Job, group: string) {
    group in j.topo.groups && group in j.report && !NoEvidence(j.topo, j.report, group)
  }

  /** A group stored as a delta: its artifact is in the store and encodes every member. */
  ghost predicate DeltaGroup(p: Prims, store: Store, j: Job, group: string, art: Artifact)
    requires JobFits(j)
  {
    && Candidate(j, group)
    && p.address(DiffBlock(art)) in store && store[p.address(DiffBlock(art))] == DiffBlock(art)
    && ArtifactEncodes(p, art, j.topo, group, GroupPerm(j.topo, j.report, group), j.file, MovedFor(j))
  }

  /** A member's manifest entry: one hop above its parent's. */
  ghost predicate DeltaEntry(p: Prims, j: Job, entries: map<string, GroupEntry>, art: Artifact, name: string) {
    && Comparable(j, name) && name in j.parents && name in entries && j.parents[name].depth < j.maxDepth
    && entries[name] == Delta(j.parents[name].commit, name, p.address(DiffBlock(art)), j.parents[name].depth + 1)
  }

  ghost predicate FullEntry(p: Prims, store: Store, j: Job, entries: map<string, GroupEntry>, name: string)
    requires name in j.file
  {
    && name in entries && entries[name].Full?
    && entries[name].block in store && store[entries[name].block] == Raw(j.file[name].bytes)
  }

  ghost predicate InDelta(j: Job, delta: set<string>, name: string) {
    exists g :: g in delta && Member(j.topo, name, g)
  }

  /** A tensor whose columns moved with another group needs that group's permutation stored too. */
  ghost predicate ColumnsRecoverable(j: Job, delta: set<string>, name: string) {
    name in j.topo.tensors &&
    var a := SecondaryAxis(j.topo.tensors[name]);
    a.Some? && !EffectivelyIdentity(j.topo, j.report, a.value.group) ==> a.value.group in delta
  }

  ghost predicate GroupPlanned(p: Prims, store: Store, j: Job, entries: map<string, GroupEntry>, delta: set<string>,
      group: string, art: Artifact)
    requires JobFits(j)
  {
    && DeltaGroup(p, store, j, group, art)
    && forall name :: Member(j.topo, name, group) ==>
        DeltaEntry(p, j, entries, art, name) && ColumnsRecoverable(j, delta, name)
  }

  /** What plan_commit_groups leaves behind. */
  ghost predicate IsPlanned(p: Prims, store: Store, j: Job, entries: map<string, GroupEntry>, delta: set<string>,
      arts: map<string, Artifact>) {
    && JobFits(j)
    && (forall g :: g in delta ==> g in arts && GroupPlanned(p, store, j, entries, delta, g, arts[g]))
    && (forall name :: name in j.file && !InDelta(j, delta, name) ==> FullEntry(p, store, j, entries, name))
    && (forall name :: name in entries <==> name in j.file)
  }

  lemma PlannedGrows(p: Prims, a: Store, b: Store, j: Job, entries: map<string, GroupEntry>, delta: set<string>,
      arts: map<string, Artifact>)
    requires IsPlanned(p, a, j, entries, delta, arts) && Grows(a, b)
    ensures IsPlanned(p, b, j, entries, delta, arts)
  {
    hide JobFits, ArtifactEncodes, DeltaEntry, ColumnsRecoverable;
    forall g | g in delta ensures GroupPlanned(p, b, j, entries, delta, g, arts[g]) {
      assert GroupPlanned(p, a, j, entries, delta, g, arts[g]);
    }
    forall name | name in j.file && !InDelta(j, delta, name) ensures FullEntry(p, b, j, entries, name) {
      assert FullEntry(p, a, j, entries, name);
    }
  }

  // ------------------------------------------------------------- the reader's side

  /** Same groups and bindings, whatever order the hash map yields them in. */
  ghost predicate SameTopology(a: Topology, b: Topology) {
    a.groups == b.groups && a.tensors == b.tensors && Listed(a) && Listed(b)
  }

  /** The row order the reader expands is the one the writer gathered by. */
  lemma RowsRead(art: Artifact, perm: seq<int>, block: nat, axis: nat)
    requires PermStored(art, perm) && IsPermutation(perm, |perm|) && axis == |perm| * block && axis > 0
    ensures ExpandRows(art, axis) == Ok(if IsIdentity(perm) then [] else Expand(perm, block))
  {
    hide Expand, ReadPermutation, Distinct;
    if !IsIdentity(perm) {
      BlockFactor(|perm|, block, axis);
    }
  }

  lemma BlockFactor(n: nat, block: nat, axis: nat)
    requires axis == n * block && axis > 0
    ensures n > 0 && axis % n == 0 && axis / n == block
  {
    assert n == 0 ==> n * block == 0;
    DivUnique(block, 0, n);
  }

  lemma IdentityExpands(perm: seq<int>, block: nat)
    requires IsIdentity(perm)
    ensures IsIdentity(Expand(perm, block))
  {
    var r := Expand(perm, block);
    forall i | 0 <= i < |r| ensures r[i] == i {
      BlockIndex(|perm|, block, i);
      assert r[i] == ExpandAt(perm, block, i);
    }
  }

  lemma PermutationSize(rows: seq<int>, axis: nat)
    requires IsPermutation(rows, axis)
    ensures |rows| == axis
  {}

  /** Gathering by the identity is not gathering at all. */
  lemma AlignedIdentity(moved: seq<Byte>, rows: seq<int>, axis: nat, ub: nat, begin: nat, end: nat)
    requires |moved| == axis * ub && begin <= end <= axis && rows != [] && IsPermutation(rows, axis) && IsIdentity(rows)
    ensures Aligned(moved, rows, axis, ub, begin, end) == Aligned(moved, [], axis, ub, begin, end)
  {
    hide *;
    var n := end - begin;
    PermutationSize(rows, axis);
    IdentityGather(moved, rows, ub, begin, n);
    AlignedUnfold(moved, rows, axis, ub, begin, n);
    AlignedUnfold(moved, [], axis, ub, begin, n);
  }

  lemma AlignedUnfold(moved: seq<Byte>, rows: seq<int>, axis: nat, ub: nat, begin: nat, n: nat)
    requires |moved| == axis * ub && begin + n <= axis && (rows == [] || IsPermutation(rows, axis))
    ensures rows != [] ==> HasRows(moved, ub, rows[begin..begin + n])
    ensures rows != [] ==>
        Aligned(moved, rows, axis, ub, begin, begin + n) == PermuteUnits(moved, rows[begin..begin + n], ub)
    ensures 0 <= begin * ub <= begin * ub + n * ub <= |moved|
    ensures rows == [] ==> Aligned(moved, rows, axis, ub, begin, begin + n) == moved[begin * ub..begin * ub + n * ub]
  {
    SliceBounds(axis, ub, begin, begin + n);
    RowsExist(moved, rows, axis, ub, begin, begin + n);
    hide HasRows, PermuteUnits;
  }

  lemma FramesIdentity(p: Prims, g: Plan, rows: seq<int>, frames: seq<Frame>, moved: seq<Byte>, target: seq<Byte>)
    requires PermutedPlan(g) && g.rows == [] && |moved| == |target| == g.axis * g.ub
    requires rows != [] && IsPermutation(rows, g.axis) && IsIdentity(rows)
    requires FramesEncode(p, g.(rows := rows), frames, moved, target)
    ensures FramesEncode(p, g, frames, moved, target)
  {
    hide Aligned, ApplyResidual, IsIdentity;
    forall i | 0 <= i < |frames| ensures FrameEncodes(p, g, frames[i], moved, target) {
      assert FrameEncodes(p, g.(rows := rows), frames[i], moved, target);
      AlignedIdentity(moved, rows, g.axis, g.ub, frames[i].unitBegin, frames[i].unitEnd);
    }
  }

  lemma FramesColumns(p: Prims, g: Plan, h: Plan, frames: seq<Frame>, moved: seq<Byte>, target: seq<Byte>)
    requires PermutedPlan(g) && PermutedPlan(h) && |moved| == |target| == g.axis * g.ub
    requires h.payload == g.payload && h.t == g.t && h.ub == g.ub && h.axis == g.axis && h.rows == g.rows
    requires FramesEncode(p, g, frames, moved, target)
    ensures FramesEncode(p, h, frames, moved, target)
  {
    hide Aligned, ApplyResidual;
    forall i | 0 <= i < |frames| ensures FrameEncodes(p, h, frames[i], moved, target) {
      assert FrameEncodes(p, g, frames[i], moved, target);
    }
  }

  lemma {:induction false} LastEnd(frames: seq<Frame>, from: nat, axis: nat)
    requires frames != [] && Tiles(frames, from, axis)
    ensures frames[|frames| - 1].unitEnd == axis
  {
    if |frames| > 1 {
      LastEnd(frames[1..], frames[0].unitEnd, axis);
    }
  }

  /** An artifact entry written for a tensor encodes it, for whatever columns put its base in order. */
  lemma WrittenEncodes(p: Prims, ctx: Ctx, art: Artifact, d: TensorDiff, perm: seq<int>, block: nat, t: Tensor,
      base: seq<Byte>, cols: Columns, moved: seq<Byte>)
    requires PermStored(art, perm) && IsPermutation(perm, |perm|) && t.Valid() && t.shape[0] == |perm| * block
        && |base| == |t.bytes|
    requires TensorWritten(p, art.payload, d, Expand(perm, block), t, moved)
    requires ResolveSecondary(p, ctx, d) == Ok(cols) && (cols.perm != [] ==> t.RowBytes() == |cols.perm| * cols.cub)
    requires |base| == t.shape[0] * t.RowBytes() && moved == Moved(base, t.shape[0], t.RowBytes(), cols)
    ensures Encodes(p, ctx, art, d, base, t.bytes)
  {
    hide Tiles, FrameEncodes, ResolveSecondary, ReadPermutation, Moved, Expand, IsIdentity, PermStored, FramesEncode,
        PermutedPlan, PlanTensor;
    var g := PlanOf(art, d, perm, block, t, cols);
    WrittenPlan(p, ctx, art, d, perm, block, t, cols, moved);
    WrittenTiled(p, art, d, perm, block, t, moved);
    RowsOfTensor(t);
    if IsIdentity(perm) {
      WrittenStraight(p, art, d, perm, block, t, cols, moved);
    } else {
      WrittenMoved(p, art, d, perm, block, t, cols, moved);
    }
  }

  /** The plan the reader makes for a written tensor. */
  ghost function PlanOf(art: Artifact, d: TensorDiff, perm: seq<int>, block: nat, t: Tensor, cols: Columns): Plan
    requires t.Valid()
  {
    Plan(art.payload, d, t.RowBytes(), t.shape[0], if IsIdentity(perm) then [] else Expand(perm, block), cols)
  }

  lemma WrittenTiled(p: Prims, art: Artifact, d: TensorDiff, perm: seq<int>, block: nat, t: Tensor, moved: seq<Byte>)
    requires TensorWritten(p, art.payload, d, Expand(perm, block), t, moved)
    ensures t.Valid() && d.shape == t.shape && d.dtype == t.dtype && d.frames != [] && Tiles(d.frames, 0, t.shape[0])
    ensures FramesEncode(p, FramePlan(art.payload, d, t.RowBytes(), t.shape[0], Expand(perm, block)), d.frames, moved,
        t.bytes)
  {
    hide Tiles, FrameEncodes, Expand;
  }

  lemma WrittenPlan(p: Prims, ctx: Ctx, art: Artifact, d: TensorDiff, perm: seq<int>, block: nat, t: Tensor,
      cols: Columns, moved: seq<Byte>)
    requires PermStored(art, perm) && IsPermutation(perm, |perm|) && t.Valid() && t.shape[0] == |perm| * block
    requires TensorWritten(p, art.payload, d, Expand(perm, block), t, moved)
    requires ResolveSecondary(p, ctx, d) == Ok(cols) && (cols.perm != [] ==> t.RowBytes() == |cols.perm| * cols.cub)
    ensures PlanTensor(p, ctx, art, d) == Ok(PlanOf(art, d, perm, block, t, cols))
    ensures PermutedPlan(PlanOf(art, d, perm, block, t, cols))
  {
    hide Tiles, FramesEncode, ResolveSecondary, Expand, PermStored, ExpandRows, TensorWritten, IsIdentity, PlanTensor,
        Product;
    WrittenTiled(p, art, d, perm, block, t, moved);
    var axis, ub := t.shape[0], t.RowBytes();
    RowsOfTensor(t);
    hide Tensor.RowBytes;
    LastEnd(d.frames, 0, axis);
    RowsRead(art, perm, block, axis);
    ExpandIsPermutation(perm, |perm|, block);
    PlanIs(p, ctx, art, d, axis, ub, if IsIdentity(perm) then [] else Expand(perm, block), cols);
  }

  lemma PlanIs(p: Prims, ctx: Ctx, art: Artifact, d: TensorDiff, axis: nat, ub: nat, rows: seq<int>, cols: Columns)
    requires d.frames != [] && d.frames[|d.frames| - 1].unitEnd == axis && axis > 0
    requires Product(d.shape) * d.dtype.Size() == axis * ub && ExpandRows(art, axis) == Ok(rows)
    requires ResolveSecondary(p, ctx, d) == Ok(cols) && (cols.perm != [] ==> ub == |cols.perm| * cols.cub)
    ensures PlanTensor(p, ctx, art, d) == Ok(Plan(art.payload, d, ub, axis, rows, cols))
    ensures ValidPlan(Plan(art.payload, d, ub, axis, rows, cols))
  {
    hide ExpandRows, ResolveSecondary, Product;
    assert ub * axis + 0 == axis * ub;
    DivUnique(ub, 0, axis);
  }

  lemma WrittenMoved(p: Prims, art: Artifact, d: TensorDiff, perm: seq<int>, block: nat, t: Tensor, cols: Columns,
      moved: seq<Byte>)
    requires TensorWritten(p, art.payload, d, Expand(perm, block), t, moved)
    requires |moved| == |t.bytes| == t.shape[0] * t.RowBytes() && PermutedPlan(PlanOf(art, d, perm, block, t, cols))
    requires !IsIdentity(perm)
    ensures FramesEncode(p, PlanOf(art, d, perm, block, t, cols), d.frames, moved, t.bytes)
  {
    hide FramesEncode, Expand, TensorWritten, IsIdentity;
    WrittenTiled(p, art, d, perm, block, t, moved);
    FramesColumns(p, FramePlan(art.payload, d, t.RowBytes(), t.shape[0], Expand(perm, block)),
                  PlanOf(art, d, perm, block, t, cols), d.frames, moved, t.bytes);
  }

  lemma WrittenStraight(p: Prims, art: Artifact, d: TensorDiff, perm: seq<int>, block: nat, t: Tensor, cols: Columns,
      moved: seq<Byte>)
    requires TensorWritten(p, art.payload, d, Expand(perm, block), t, moved)
    requires |moved| == |t.bytes| == t.shape[0] * t.RowBytes() && PermutedPlan(PlanOf(art, d, perm, block, t, cols))
    requires IsIdentity(perm) && IsPermutation(perm, |perm|) && t.shape[0] == |perm| * block
    ensures FramesEncode(p, PlanOf(art, d, perm, block, t, cols), d.frames, moved, t.bytes)
  {
    hide FramesEncode, Expand, TensorWritten, IsIdentity;
    WrittenTiled(p, art, d, perm, block, t, moved);
    ExpandIsPermutation(perm, |perm|, block);
    IdentityExpands(perm, block);
    var g := FramePlan(art.payload, d, t.RowBytes(), t.shape[0], []);
    FramesIdentity(p, g, Expand(perm, block), d.frames, moved, t.bytes);
    FramesColumns(p, g, PlanOf(art, d, perm, block, t, cols), d.frames, moved, t.bytes);
  }
}
