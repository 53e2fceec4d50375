/** The chain of column adapters the planner puts in front of the base, one per member tensor that needs it
    (modules/store/src/commit_planner.cpp). */
module Adapt {
  import opened Common
  import opened Records
  import opened Reader
  import opened ReadBack
  import opened Sources
  import opened ColumnSources
  import opened PlanSpec
  import opened Planned

  /** The source still yields the tensor as the parent has it. */
  ghost predicate BaseYields(src: Source, j: Job, name: string) {
    name in j.topo.tensors && Comparable(j, name) && Yields(src, name, j.file[name].RowBytes(), j.prior[name].bytes)
  }

  /** The source yields the tensor with its columns moved. */
  ghost predicate MovedYields(src: Source, j: Job, name: string)
    requires JobFits(j)
  {
    name in j.topo.tensors && Comparable(j, name) && Yields(src, name, j.file[name].RowBytes(), MovedFor(j)[name])
  }

  lemma MovedForIs(j: Job, name: string)
    requires JobFits(j) && name in j.topo.tensors && Comparable(j, name)
    ensures |j.prior[name].bytes| == j.file[name].shape[0] * j.file[name].RowBytes()
    ensures var w := WriterColumns(j.topo, j.report, j.topo.tensors[name], j.file[name].shape, j.file[name].dtype);
      && InRow(w) && (w.perm != [] ==> j.file[name].RowBytes() == |w.perm| * w.cub)
      && MovedFor(j)[name] == Moved(j.prior[name].bytes, j.file[name].shape[0], j.file[name].RowBytes(), w)
  {
    hide Moved, WriterColumns;
    SameSize(j, name);
    WriterColumnsFit(j.topo, j.report, j.topo.tensors[name], j.file[name]);
  }

  lemma NoAdapter(src: Source, j: Job, name: string)
    requires JobFits(j) && BaseYields(src, j, name)
    requires
      var s := SecondaryAxis(j.topo.tensors[name]);
      s.None? || EffectivelyIdentity(j.topo, j.report, s.value.group)
    ensures MovedYields(src, j, name)
  {
    hide Yields;
    MovedForIs(j, name);
  }

  ghost function ColumnsOf(j: Job, name: string): Columns
    requires name in j.topo.tensors && name in j.file
  {
    WriterColumns(j.topo, j.report, j.topo.tensors[name], j.file[name].shape, j.file[name].dtype)
  }

  /** Wrapping the source for one tensor moves that tensor and no other. */
  lemma OneAdapter(src: Source, j: Job, name: string)
    requires JobFits(j) && BaseYields(src, j, name)
    requires
      var s := SecondaryAxis(j.topo.tensors[name]);
      s.Some? && !EffectivelyIdentity(j.topo, j.report, s.value.group)
    ensures MovedYields(ColumnSource(src, name, ColumnsOf(j, name).perm, ColumnsOf(j, name).cub), j, name)
  {
    var t, w := j.file[name], ColumnsOf(j, name);
    MovedForIs(j, name);
    WriterColumnsFit(j.topo, j.report, j.topo.tensors[name], t);
    hide Yields, Moved, WriterColumns;
    MovedTensor(src, name, w, t.shape[0], t.RowBytes(), j.prior[name].bytes);
  }

  lemma OtherMembers(src: Source, j: Job, tensor: string, q: seq<int>, cub: nat, name: string)
    requires JobFits(j) && name != tensor
    ensures BaseYields(src, j, name) ==> BaseYields(ColumnSource(src, tensor, q, cub), j, name)
    ensures MovedYields(src, j, name) ==> MovedYields(ColumnSource(src, tensor, q, cub), j, name)
  {
    hide Yields;
    if BaseYields(src, j, name) {
      OtherTensors(src, tensor, q, cub, name, j.file[name].RowBytes(), j.prior[name].bytes);
    }
    if MovedYields(src, j, name) {
      OtherTensors(src, tensor, q, cub, name, j.file[name].RowBytes(), MovedFor(j)[name]);
    }
  }

  ghost predicate Adapted(src: Source, j: Job, members: seq<string>, k: nat)
    requires JobFits(j) && k <= |members|
  {
    && (forall i :: 0 <= i < k ==> MovedYields(src, j, members[i]))
    && (forall i :: k <= i < |members| ==> BaseYields(src, j, members[i]))
  }

  lemma AdaptStep(src: Source, j: Job, members: seq<string>, k: nat)
    requires JobFits(j) && k < |members| && Distinct(members) && Adapted(src, j, members, k)
    requires members[k] in j.topo.tensors && members[k] in j.file
    requires
      var s := SecondaryAxis(j.topo.tensors[members[k]]);
      s.Some? && !EffectivelyIdentity(j.topo, j.report, s.value.group)
    ensures Adapted(ColumnSource(src, members[k], ColumnsOf(j, members[k]).perm, ColumnsOf(j, members[k]).cub), j,
        members, k + 1)
  {
    hide JobFits, BaseYields, MovedYields, ColumnsOf;
    var w := ColumnsOf(j, members[k]);
    OneAdapter(src, j, members[k]);
    forall i | 0 <= i < |members| && i != k
      ensures BaseYields(src, j, members[i]) ==> BaseYields(ColumnSource(src, members[k], w.perm, w.cub), j, members[i])
      ensures MovedYields(src, j, members[i]) ==>
          MovedYields(ColumnSource(src, members[k], w.perm, w.cub), j, members[i])
    {
      assert members[i] != members[k];
      OtherMembers(src, j, members[k], w.perm, w.cub, members[i]);
    }
  }

  lemma YieldsNames(src: Source, j: Job, name: string)
    requires BaseYields(src, j, name)
    ensures name in j.topo.tensors && name in j.file
  {}

  /** Every member has a parent version of the same shape, the base yields it, and the target declares it. */
  ghost predicate MembersBased(base: Source, target: Source, j: Job, members: seq<string>) {
    && JobFits(j) && Distinct(members)
    && forall i :: 0 <= i < |members| ==> BaseYields(base, j, members[i]) && DeclaredAs(target, j, members[i])
  }

  ghost predicate DeclaredAs(target: Source, j: Job, name: string) {
    name in j.file && name in target.metas && target.metas[name] == j.file[name].Info()
  }

  /** One turn of the adapter loop. */
  function AdaptOne(src: Source, target: Source, topo: Topology, report: Report, name: string): Result<Source>
    requires name in topo.tensors
  {
    var s := SecondaryAxis(topo.tensors[name]);
    if s.None? || EffectivelyIdentity(topo, report, s.value.group) then Ok(src) else
    if name !in target.metas then Err(TensorNotInBufferLayout) else
      var w := WriterColumns(topo, report, topo.tensors[name], target.metas[name].shape, target.metas[name].dtype);
      Ok(ColumnSource(src, name, w.perm, w.cub))
  }

  lemma AdaptedOne(base: Source, target: Source, src: Source, j: Job, members: seq<string>, k: nat)
    requires MembersBased(base, target, j, members) && k < |members| && Adapted(src, j, members, k)
    ensures members[k] in j.topo.tensors
    ensures AdaptOne(src, target, j.topo, j.report, members[k]).Ok?
    ensures Adapted(AdaptOne(src, target, j.topo, j.report, members[k]).value, j, members, k + 1)
  {
    hide BaseYields, MovedYields, JobFits, WriterColumns, SecondaryAxis;
    var name := members[k];
    assert BaseYields(src, j, name) && DeclaredAs(target, j, name);
    YieldsNames(src, j, name);
    var s := SecondaryAxis(j.topo.tensors[name]);
    if s.None? || EffectivelyIdentity(j.topo, j.report, s.value.group) {
      NoAdapter(src, j, name);
    } else {
      AdaptStep(src, j, members, k);
    }
  }

  /** An adapter makes nothing readable that was not. */
  ghost predicate StillBlind(base: Source, src: Source) {
    forall name :: Blind(base, name) ==> Blind(src, name)
  }

  lemma AdaptedBlind(base: Source, src: Source, target: Source, topo: Topology, report: Report, name: string)
    requires StillBlind(base, src) && name in topo.tensors && AdaptOne(src, target, topo, report, name).Ok?
    ensures StillBlind(base, AdaptOne(src, target, topo, report, name).value)
  {
    hide SecondaryAxis, EffectivelyIdentity, WriterColumns;
    var next := AdaptOne(src, target, topo, report, name).value;
    forall x | Blind(base, x) ensures Blind(next, x) {
      assert Blind(src, x);
    }
  }

  /** The adapter loop. */
  method AdaptBase(base: Source, target: Source, topo: Topology, report: Report, members: seq<string>, ghost j: Job)
      returns (r: Result<Source>)
    requires forall i :: 0 <= i < |members| ==> members[i] in topo.tensors
    ensures (MembersBased(base, target, j, members) && j.topo == topo && j.report == report) ==>
      r.Ok? && forall i :: 0 <= i < |members| ==> MovedYields(r.value, j, members[i])
    ensures r.Ok? ==> StillBlind(base, r.value)
  {
    ghost var good := MembersBased(base, target, j, members) && j.topo == topo && j.report == report;
    var src, k := base, 0;
    assert good ==> Adapted(src, j, members, 0);
    assert StillBlind(base, src);
    hide BaseYields, MovedYields, JobFits, AdaptOne, StillBlind;
    while k < |members|
      invariant 0 <= k <= |members| && StillBlind(base, src) && (good ==> Adapted(src, j, members, k))
    {
      if good {
        AdaptedOne(base, target, src, j, members, k);
      }
      var next := AdaptOne(src, target, topo, report, members[k]);
      if next.Err? {
        return next;
      }
      AdaptedBlind(base, src, target, topo, report, members[k]);
      src := next.value;
      k := k + 1;
    }
    return Ok(src);
  }
}
