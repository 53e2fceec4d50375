/** What the commit planner knows about groups (modules/store/src/commit_planner.cpp) and what it demands of topology
    and match report. */
module PlanSpec {
  import opened Common
  import opened Permutations
  import opened Gather
  import opened Records
  import opened Reader
  import opened ReadBack
  import opened Sources
  import opened GroupEncoder

  /** The aligner's verdict on one group; an empty permutation means identity. */
  datatype GroupMatch = GroupMatch(permutation: seq<int>, identity: bool, alignable: bool)
  type Report = map<string, GroupMatch>

  // ------------------------------------------------------------- lookups

  predicate EffectivelyIdentity(topo: Topology, report: Report, group: string) {
    IsPinned(topo, group) || group !in report || report[group].identity || !report[group].alignable
  }

  predicate NoEvidence(topo: Topology, report: Report, group: string) {
    IsPinned(topo, group) || group !in report || !report[group].alignable
  }

  function Materialize(gm: GroupMatch, size: nat): seq<int> {
    if gm.permutation != [] then gm.permutation else seq(size, i => i)
  }

  /** tensors_owning_group. */
  function MembersOf(topo: Topology, group: string): seq<string> { MembersBefore(topo, group, |topo.order|) }

  lemma MembersAreMembers(topo: Topology, group: string, t: string)
    ensures t in MembersOf(topo, group) <==> Member(topo, t, group)
  {
    assert topo.order[..|topo.order|] == topo.order;
  }

  /** The aligner found a permutation of the group that moves something, and the topology allows it. */
  predicate Moves(topo: Topology, report: Report, group: string) {
    && !(group in topo.groups && topo.groups[group].pinned)
    && group in report && report[group].alignable && !report[group].identity
  }

  /** A tensor with these axes has columns bound to the group, which moves. */
  predicate ColumnsMoveWith(topo: Topology, report: Report, axes: seq<AxisBinding>, group: string) {
    Moves(topo, report, group) && exists i :: 0 <= i < |axes| && axes[i].dim != 0 && axes[i].group == group
  }

  /** The groups that move a tensor's columns. */
  function AxisDependencies(topo: Topology, report: Report, axes: seq<AxisBinding>): (r: seq<string>)
    ensures forall g :: g in r <==> ColumnsMoveWith(topo, report, axes, g)
  {
    if axes == [] then [] else
      var n := |axes| - 1;
      var rest := AxisDependencies(topo, report, axes[..n]);
      assert forall g :: ColumnsMoveWith(topo, report, axes, g) <==>
          ColumnsMoveWith(topo, report, axes[..n], g)
              || (axes[n].dim != 0 && axes[n].group == g && Moves(topo, report, g));
      if axes[n].dim != 0 && !EffectivelyIdentity(topo, report, axes[n].group) then rest + [axes[n].group] else rest
  }

  /** secondary_dependencies. */
  function Dependencies(topo: Topology, report: Report, members: seq<string>): (r: seq<string>)
    ensures forall g :: g in r <==>
        exists t :: t in members && t in topo.tensors && ColumnsMoveWith(topo, report, topo.tensors[t], g)
  {
    if members == [] then [] else
      var n := |members| - 1;
      var rest := Dependencies(topo, report, members[..n]);
      if members[n] in topo.tensors then rest + AxisDependencies(topo, report, topo.tensors[members[n]]) else rest
  }

  /** The column permutation the writer applies to a tensor of the base. */
  function WriterColumns(topo: Topology, report: Report, axes: seq<AxisBinding>, shape: seq<nat>,
      dtype: DType): Columns {
    var axis := SecondaryAxis(axes);
    if axis.None? || EffectivelyIdentity(topo, report, axis.value.group) then NoColumns else
      Columns(Expand(report[axis.value.group].permutation, axis.value.block),
          Trailing(shape, axis.value.dim) * dtype.Size())
  }

  // ------------------------------------------------------------- what the planner relies on

  predicate AxisFits(topo: Topology, axis: AxisBinding, shape: seq<nat>) {
    axis.dim < |shape| && axis.group in topo.groups && shape[axis.dim] == topo.groups[axis.group].size * axis.block
  }

  /** Rows are bound once, the first column binding is axis 1, and a moved column group has an owner. */
  ghost predicate AxesFit(topo: Topology, axes: seq<AxisBinding>, shape: seq<nat>) {
    && (forall i :: 0 <= i < |axes| ==> AxisFits(topo, axes[i], shape))
    && (forall i, j :: 0 <= i < |axes| && 0 <= j < |axes| && axes[i].dim == 0 && axes[j].dim == 0 ==>
        axes[i] == axes[j])
    && var s := SecondaryAxis(axes);
       s.Some? ==>
         && s.value.dim == 1
         && (!IsPinned(topo, s.value.group) ==> exists t :: t in topo.tensors && Owns(topo.tensors[t], s.value.group))
  }

  ghost predicate Listed(topo: Topology) {
    Distinct(topo.order) && (forall t :: t in topo.order <==> t in topo.tensors) && "" !in topo.tensors
  }

  /** Topology::validate against a checkpoint, and the bindings the codec supports. */
  ghost predicate TopologyFits(topo: Topology, file: File) {
    && Listed(topo)
    && (forall g :: g in topo.groups ==> 1 <= topo.groups[g].size <= 0x1_0000_0000)
    && (forall t :: t in topo.tensors ==> t in file && file[t].Valid() && AxesFit(topo, topo.tensors[t], file[t].shape))
  }

  ghost predicate ReportFits(topo: Topology, report: Report) {
    forall g :: g in report && g in topo.groups && !NoEvidence(topo, report, g) ==>
      && (report[g].identity <==> report[g].permutation == [])
      && (report[g].permutation != [] ==> IsPermutation(report[g].permutation, topo.groups[g].size))
  }

  ghost function GroupPerm(topo: Topology, report: Report, group: string): (perm: seq<int>)
    requires group in report && group in topo.groups && !NoEvidence(topo, report, group) && ReportFits(topo, report)
    ensures IsPermutation(perm, topo.groups[group].size)
    ensures report[group].identity ==> IsIdentity(perm)
    ensures !report[group].identity ==> perm == report[group].permutation
  {
    Materialize(report[group], topo.groups[group].size)
  }

  /** A group whose storage is worth trying: the topology lets it move, the aligner could match it, and some tensor
      has its rows in it. Whether the match moves anything plays no part. */
  ghost predicate Eligible(topo: Topology, report: Report, group: string) {
    && group in topo.groups && !topo.groups[group].pinned
    && group in report && report[group].alignable
    && exists t, i :: t in topo.tensors && 0 <= i < |topo.tensors[t]| && topo.tensors[t][i].dim == 0
        && topo.tensors[t][i].group == group
  }

  lemma EligibleIs(topo: Topology, report: Report, group: string)
    requires Listed(topo) && group in topo.groups
    ensures Eligible(topo, report, group) <==> !NoEvidence(topo, report, group) && MembersOf(topo, group) != []
  {
    if Eligible(topo, report, group) {
      var t, i :| t in topo.tensors && 0 <= i < |topo.tensors[t]| && topo.tensors[t][i].dim == 0
        && topo.tensors[t][i].group == group;
      MembersAreMembers(topo, group, t);
    } else if MembersOf(topo, group) != [] {
      MembersAreMembers(topo, group, MembersOf(topo, group)[0]);
    }
  }

  // ------------------------------------------------------------- columns

  lemma {:induction false} SecondaryIsBound(axes: seq<AxisBinding>) returns (i: nat)
    requires SecondaryAxis(axes).Some?
    ensures i < |axes| && axes[i] == SecondaryAxis(axes).value
  {
    i :| i < |axes| && axes[i] == SecondaryAxis(axes).value;
  }

  /** A row is exactly one column permutation wide. */
  lemma RowIsColumns(topo: Topology, axes: seq<AxisBinding>, t: Tensor)
    requires t.Valid() && AxesFit(topo, axes, t.shape) && SecondaryAxis(axes).Some?
    ensures var a := SecondaryAxis(axes).value;
      && a.group in topo.groups && a.dim == 1
      && t.RowBytes() == (topo.groups[a.group].size * a.block) * (Trailing(t.shape, 1) * t.dtype.Size())
  {
    var i := SecondaryIsBound(axes);
    assert AxisFits(topo, axes[i], t.shape);
    var tail := t.shape[1..];
    assert tail[0] == t.shape[1] && tail[1..] == t.shape[2..];
    var x, y, w := t.shape[1], Product(t.shape[2..]), t.dtype.Size();
    assert Product(tail) == x * y;
    assert x * y * w == x * (y * w);
  }

  lemma WriterColumnsFit(topo: Topology, report: Report, axes: seq<AxisBinding>, t: Tensor)
    requires t.Valid() && AxesFit(topo, axes, t.shape) && ReportFits(topo, report)
    ensures var c := WriterColumns(topo, report, axes, t.shape, t.dtype);
      && InRow(c)
      && (SecondaryAxis(axes).Some? && !EffectivelyIdentity(topo, report, SecondaryAxis(axes).value.group) ==>
          t.RowBytes() == |c.perm| * c.cub)
      && (c.perm != [] ==> t.RowBytes() == |c.perm| * c.cub)
  {
    var s := SecondaryAxis(axes);
    if s.Some? && !EffectivelyIdentity(topo, report, s.value.group) {
      RowIsColumns(topo, axes, t);
      var perm := report[s.value.group].permutation;
      ExpandIsPermutation(perm, |perm|, s.value.block);
    }
  }

  /** A base tensor with its columns in target order, as the writer hands it to the encoder. */
  ghost function MovedTensorBytes(topo: Topology, report: Report, axes: seq<AxisBinding>, t: Tensor,
      base: seq<Byte>): (r: seq<Byte>)
    requires t.Valid() && AxesFit(topo, axes, t.shape) && ReportFits(topo, report) && |base| == |t.bytes|
    ensures |r| == |base|
  {
    RowsOfTensor(t);
    WriterColumnsFit(topo, report, axes, t);
    Moved(base, t.shape[0], t.RowBytes(), WriterColumns(topo, report, axes, t.shape, t.dtype))
  }
}
