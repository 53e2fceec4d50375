/** Reading a planned commit: the reader finds the permutations the writer used, its own and the columns'. */
module PlannedReads {
  import opened Common
  import opened Permutations
  import opened Gather
  import opened Records
  import opened Reader
  import opened ReadBack
  import opened Sources
  import opened Encoder
  import opened GroupEncoder
  import opened PlanSpec
  import opened Planned

  /** The context a reader of the planned manifest has. */
  ghost predicate Reading(p: Prims, ctx: Ctx, j: Job, entries: map<string, GroupEntry>, delta: set<string>,
      arts: map<string, Artifact>) {
    && IsPlanned(p, ctx.store, j, entries, delta, arts) && Addressed(p, ctx.store)
    && ctx.manifest.groups == entries && ctx.maxDepth == j.maxDepth
    && ctx.topology.Some? && SameTopology(j.topo, ctx.topology.value)
  }

  lemma RowGroupIsUnique(j: Job, name: string, a: string, b: string)
    requires JobFits(j) && Member(j.topo, name, a) && Member(j.topo, name, b)
    ensures a == b
  {
    var axes := j.topo.tensors[name];
    var i :| 0 <= i < |axes| && axes[i].dim == 0 && axes[i].group == a;
    var k :| 0 <= k < |axes| && axes[k].dim == 0 && axes[k].group == b;
    assert AxesFit(j.topo, axes, j.file[name].shape);
    assert axes[i] == axes[k];
  }

  /** The owner of an unpinned secondary group is a tensor of the manifest. */
  lemma OwnerFound(j: Job, topo: Topology, name: string)
    requires JobFits(j) && SameTopology(j.topo, topo) && name in j.topo.tensors
    requires SecondaryAxis(j.topo.tensors[name]).Some?
        && !IsPinned(j.topo, SecondaryAxis(j.topo.tensors[name]).value.group)
    ensures var g := SecondaryAxis(j.topo.tensors[name]).value.group;
      var o := OwnerOf(topo, topo.order, g);
      o.Some? && Member(j.topo, o.value, g) && o.value in j.file
  {
    var axes := j.topo.tensors[name];
    var g := SecondaryAxis(axes).value.group;
    assert AxesFit(j.topo, axes, j.file[name].shape);
    var t :| t in j.topo.tensors && Owns(j.topo.tensors[t], g);
    assert t in topo.order && t != "";
  }

  /** An owner stored as a delta carries the group's permutation; one stored full has none to carry. */
  lemma OwnerEntry(p: Prims, ctx: Ctx, j: Job, entries: map<string, GroupEntry>, delta: set<string>,
      arts: map<string, Artifact>, o: string, g: string)
    requires Reading(p, ctx, j, entries, delta, arts) && Member(j.topo, o, g) && o in j.file
    ensures o in entries
    ensures g !in delta ==> entries[o].Full?
    ensures g in delta ==>
        Candidate(j, g) && g in arts && entries[o].Delta? && GetDiff(p, ctx.store, entries[o].diff) == Ok(arts[g])
    ensures g in delta ==> PermStored(arts[g], GroupPerm(j.topo, j.report, g))
  {
    hide JobFits, MemberWritten, Member;
    if g in delta {
      assert GroupPlanned(p, ctx.store, j, entries, delta, g, arts[g]);
      assert DeltaEntry(p, j, entries, arts[g], o);
    } else {
      if InDelta(j, delta, o) {
        var h :| h in delta && Member(j.topo, o, h);
        RowGroupIsUnique(j, o, g, h);
      }
      assert FullEntry(p, ctx.store, j, entries, o);
    }
  }

  /** What the reader resolves for the owner's permutation. */
  lemma OwnerColumnsAre(p: Prims, store: Store, owner: GroupEntry, axis: AxisBinding, t: TensorDiff, art: Artifact,
      perm: seq<int>)
    requires owner.Delta? && GetDiff(p, store, owner.diff) == Ok(art) && PermStored(art, perm)
    ensures OwnerColumns(p, store, owner, axis, t) ==
      Ok(if IsIdentity(perm) then NoColumns else
          Columns(Expand(perm, axis.block), Trailing(t.shape, axis.dim) * t.dtype.Size()))
  {
    hide Expand;
  }

  /** The reader's columns move a base exactly as the writer's did. */
  ghost predicate SameMove(t: Tensor, base: seq<Byte>, a: Columns, b: Columns)
    requires t.Valid() && |base| == t.shape[0] * t.RowBytes()
  {
    && InRow(a) && InRow(b)
    && (a.perm != [] ==> t.RowBytes() == |a.perm| * a.cub) && (b.perm != [] ==> t.RowBytes() == |b.perm| * b.cub)
    && Moved(base, t.shape[0], t.RowBytes(), a) == Moved(base, t.shape[0], t.RowBytes(), b)
  }

  lemma IdentityMoves(t: Tensor, base: seq<Byte>, c: Columns)
    requires t.Valid() && |base| == t.shape[0] * t.RowBytes() && InRow(c) && t.RowBytes() == |c.perm| * c.cub
        && IsIdentity(c.perm)
    ensures SameMove(t, base, NoColumns, c)
  {
    if c.perm != [] {
      IdentityColumns(base, t.shape[0], t.RowBytes(), c.perm, c.cub);
    }
  }

  lemma SecondaryResolved(p: Prims, ctx: Ctx, j: Job, entries: map<string, GroupEntry>, delta: set<string>,
      arts: map<string, Artifact>, name: string, d: TensorDiff)
    returns (cols: Columns)
    requires Reading(p, ctx, j, entries, delta, arts) && name in j.topo.tensors && ColumnsRecoverable(j, delta, name)
        && Comparable(j, name)
    requires d.name == name && d.shape == j.file[name].shape && d.dtype == j.file[name].dtype
    ensures ResolveSecondary(p, ctx, d) == Ok(cols)
    ensures |j.prior[name].bytes| == j.file[name].shape[0] * j.file[name].RowBytes()
    ensures SameMove(j.file[name], j.prior[name].bytes, cols,
        WriterColumns(j.topo, j.report, j.topo.tensors[name], j.file[name].shape, j.file[name].dtype))
  {
    hide *;
    SameSizeOf(j, name);
    var t, base, axes := j.file[name], j.prior[name].bytes, j.topo.tensors[name];
    ReadingFits(p, ctx, j, entries, delta, arts);
    FitsAt(j, name);
    var w := WriterColumns(j.topo, j.report, axes, t.shape, t.dtype);
    WriterColumnsFit(j.topo, j.report, axes, t);
    var s := SecondaryAxis(axes);
    if s.None? || IsPinned(j.topo, s.value.group) {
      cols := NoColumns;
      NothingToMove(p, ctx, j, t, base, d);
    } else {
      OwnerFound(j, ctx.topology.value, name);
      var a := s.value;
      var o := OwnerOf(ctx.topology.value, ctx.topology.value.order, a.group).value;
      OwnerEntry(p, ctx, j, entries, delta, arts, o, a.group);
      ResolveIs(p, ctx, j, d, a, o);
      cols := MoveWithOwner(p, ctx, j, delta, name, a, entries[o], if a.group in delta then Some(arts[a.group]) else
          None, t, base, d);
    }
  }

  lemma SameSizeOf(j: Job, name: string)
    requires Comparable(j, name)
    ensures name in j.file && name in j.prior && j.file[name].Valid() && |j.file[name].shape| >= 1
    ensures |j.prior[name].bytes| == j.file[name].shape[0] * j.file[name].RowBytes() == |j.file[name].bytes|
  {
    SameSize(j, name);
  }

  lemma ReadingFits(p: Prims, ctx: Ctx, j: Job, entries: map<string, GroupEntry>, delta: set<string>,
      arts: map<string, Artifact>)
    requires Reading(p, ctx, j, entries, delta, arts)
    ensures JobFits(j) && ReportFits(j.topo, j.report) && ctx.topology.Some?
        && SameTopology(j.topo, ctx.topology.value) && ctx.manifest.groups == entries
    ensures ctx.maxDepth == j.maxDepth
  {}

  lemma FitsAt(j: Job, name: string)
    requires JobFits(j) && name in j.topo.tensors
    ensures name in j.file && j.file[name].Valid() && AxesFit(j.topo, j.topo.tensors[name], j.file[name].shape)
  {}

  lemma NothingToMove(p: Prims, ctx: Ctx, j: Job, t: Tensor, base: seq<Byte>, d: TensorDiff)
    requires ctx.topology.Some? && SameTopology(j.topo, ctx.topology.value) && d.name in j.topo.tensors
    requires var s := SecondaryAxis(j.topo.tensors[d.name]); s.None? || IsPinned(j.topo, s.value.group)
    requires t.Valid() && |base| == t.shape[0] * t.RowBytes()
    ensures ResolveSecondary(p, ctx, d) == Ok(NoColumns)
    ensures SameMove(t, base, NoColumns, WriterColumns(j.topo, j.report, j.topo.tensors[d.name], t.shape, t.dtype))
  {}

  lemma ResolveIs(p: Prims, ctx: Ctx, j: Job, d: TensorDiff, a: AxisBinding, o: string)
    requires ctx.topology.Some? && SameTopology(j.topo, ctx.topology.value) && d.name in j.topo.tensors
    requires SecondaryAxis(j.topo.tensors[d.name]) == Some(a) && !IsPinned(j.topo, a.group)
    requires OwnerOf(ctx.topology.value, ctx.topology.value.order, a.group) == Some(o) && o in ctx.manifest.groups
    ensures ResolveSecondary(p, ctx, d) == OwnerColumns(p, ctx.store, ctx.manifest.groups[o], a, d)
  {
    hide OwnerOf, SecondaryAxis;
  }

  lemma MoveWithOwner(p: Prims, ctx: Ctx, j: Job, delta: set<string>, name: string, a: AxisBinding, owner: GroupEntry,
      art: Option<Artifact>, t: Tensor, base: seq<Byte>, d: TensorDiff)
    returns (cols: Columns)
    requires name in j.topo.tensors && SecondaryAxis(j.topo.tensors[name]) == Some(a) && !IsPinned(j.topo, a.group)
        && ReportFits(j.topo, j.report)
    requires ColumnsRecoverable(j, delta, name) && (art.Some? <==> a.group in delta)
    requires art.None? ==> owner.Full?
    requires art.Some? ==> Candidate(j, a.group) && owner.Delta? && GetDiff(p, ctx.store, owner.diff) == Ok(art.value)
    requires art.Some? ==> PermStored(art.value, GroupPerm(j.topo, j.report, a.group))
    requires t.Valid() && |base| == t.shape[0] * t.RowBytes() && d.shape == t.shape && d.dtype == t.dtype
    requires var w := WriterColumns(j.topo, j.report, j.topo.tensors[name], t.shape, t.dtype);
      InRow(w) && (!EffectivelyIdentity(j.topo, j.report, a.group) ==> t.RowBytes() == |w.perm| * w.cub)
    ensures OwnerColumns(p, ctx.store, owner, a, d) == Ok(cols)
    ensures SameMove(t, base, cols, WriterColumns(j.topo, j.report, j.topo.tensors[name], t.shape, t.dtype))
  {
    var w := WriterColumns(j.topo, j.report, j.topo.tensors[name], t.shape, t.dtype);
    if art.None? {
      cols := NoColumns;
    } else {
      var perm := GroupPerm(j.topo, j.report, a.group);
      OwnerColumnsAre(p, ctx.store, owner, a, d, art.value, perm);
      hide Moved, Expand, OwnerColumns, PermStored, GetDiff, SecondaryAxis;
      if IsIdentity(perm) {
        cols := NoColumns;
        if !EffectivelyIdentity(j.topo, j.report, a.group) {
          IdentityExpands(perm, a.block);
          IdentityMoves(t, base, w);
        }
      } else {
        cols := w;
      }
    }
  }

  /** One planned entry reads back, given that its base does. */
  lemma EntryServes(p: Prims, ctx: Ctx, j: Job, entries: map<string, GroupEntry>, delta: set<string>,
      arts: map<string, Artifact>, name: string, g: string)
    requires Reading(p, ctx, j, entries, delta, arts) && g in delta && Member(j.topo, name, g)
    requires ManifestFor(p, ctx.store, j.parents[name].commit).Ok?
    ensures Comparable(j, name) && DeltaEncodes(p, ctx, name, j.prior[name].bytes, j.file[name].bytes)
  {
    hide *;
    MemberIs(p, ctx, j, entries, delta, arts, name, g);
    SameSizeOf(j, name);
    ReadingFits(p, ctx, j, entries, delta, arts);
    FitsAt(j, name);
    OwnerEntry(p, ctx, j, entries, delta, arts, name, g);
    var art := arts[g];
    var d := FindTensor(art.header.tensors, name).value;
    var cols := SecondaryResolved(p, ctx, j, entries, delta, arts, name, d);
    var t, base := j.file[name], j.prior[name].bytes;
    MovedIs(j, name);
    MoveSame(t, base, cols, WriterColumns(j.topo, j.report, j.topo.tensors[name], t.shape, t.dtype));
    var perm := GroupPerm(j.topo, j.report, g);
    var block := RowBinding(j.topo.tensors[name], g).value.block;
    BlockIs(j, name, g);
    WrittenEncodes(p, ctx, art, d, perm, block, t, base, cols, MovedFor(j)[name]);
    EntryEncodes(p, ctx, j, entries, art, name, d);
  }

  lemma MemberIs(p: Prims, ctx: Ctx, j: Job, entries: map<string, GroupEntry>, delta: set<string>,
      arts: map<string, Artifact>, name: string, g: string)
    requires Reading(p, ctx, j, entries, delta, arts) && g in delta && Member(j.topo, name, g)
    ensures g in arts && Comparable(j, name) && DeltaEntry(p, j, entries, arts[g], name)
        && ColumnsRecoverable(j, delta, name)
    ensures name in j.topo.tensors && name in j.file && name in MovedFor(j)
        && RowBinding(j.topo.tensors[name], g).Some? && Candidate(j, g)
    ensures g in j.report && g in j.topo.groups && !NoEvidence(j.topo, j.report, g)
    ensures var d := FindTensor(arts[g].header.tensors, name);
      && d.Some? && d.value.shape == j.file[name].shape && d.value.dtype == j.file[name].dtype
      && TensorWritten(p, arts[g].payload, d.value,
          Expand(GroupPerm(j.topo, j.report, g), RowBinding(j.topo.tensors[name], g).value.block), j.file[name],
          MovedFor(j)[name])
  {
    assert GroupPlanned(p, ctx.store, j, entries, delta, g, arts[g]);
    assert MemberWritten(p, arts[g], j.topo, g, GroupPerm(j.topo, j.report, g), j.file, MovedFor(j), name);
    hide JobFits, MovedFor, Written, GroupPerm, DeltaEntry, ColumnsRecoverable;
  }

  lemma MovedIs(j: Job, name: string)
    requires JobFits(j) && name in j.topo.tensors && Comparable(j, name)
    ensures name in MovedFor(j)
    ensures |j.prior[name].bytes| == j.file[name].shape[0] * j.file[name].RowBytes()
    ensures var w := WriterColumns(j.topo, j.report, j.topo.tensors[name], j.file[name].shape, j.file[name].dtype);
      InRow(w) && (w.perm != [] ==> j.file[name].RowBytes() == |w.perm| * w.cub) &&
      MovedFor(j)[name] == Moved(j.prior[name].bytes, j.file[name].shape[0], j.file[name].RowBytes(), w)
  {
    hide Moved, WriterColumns;
    SameSize(j, name);
    WriterColumnsFit(j.topo, j.report, j.topo.tensors[name], j.file[name]);
  }

  lemma MoveSame(t: Tensor, base: seq<Byte>, a: Columns, b: Columns)
    requires t.Valid() && |base| == t.shape[0] * t.RowBytes() && SameMove(t, base, a, b)
    ensures InRow(a) && InRow(b) && (a.perm != [] ==> t.RowBytes() == |a.perm| * a.cub)
        && (b.perm != [] ==> t.RowBytes() == |b.perm| * b.cub)
    ensures Moved(base, t.shape[0], t.RowBytes(), a) == Moved(base, t.shape[0], t.RowBytes(), b)
  {}

  lemma BlockIs(j: Job, name: string, g: string)
    requires JobFits(j) && Member(j.topo, name, g) && Candidate(j, g)
    ensures RowBinding(j.topo.tensors[name], g).Some? && name in j.file && |j.file[name].shape| >= 1
    ensures IsPermutation(GroupPerm(j.topo, j.report, g), |GroupPerm(j.topo, j.report, g)|)
    ensures j.file[name].shape[0] == |GroupPerm(j.topo, j.report, g)| * RowBinding(j.topo.tensors[name], g).value.block
  {
    var axes := j.topo.tensors[name];
    var b := RowBinding(axes, g).value;
    var i :| 0 <= i < |axes| && axes[i] == b;
    assert AxesFit(j.topo, axes, j.file[name].shape);
    assert AxisFits(j.topo, axes[i], j.file[name].shape);
  }

  lemma EntryEncodes(p: Prims, ctx: Ctx, j: Job, entries: map<string, GroupEntry>, art: Artifact, name: string,
      d: TensorDiff)
    requires DeltaEntry(p, j, entries, art, name) && ctx.manifest.groups == entries && ctx.maxDepth == j.maxDepth
    requires GetDiff(p, ctx.store, entries[name].diff) == Ok(art) && FindTensor(art.header.tensors, name) == Some(d)
    requires ManifestFor(p, ctx.store, j.parents[name].commit).Ok?
    requires Encodes(p, ctx, art, d, j.prior[name].bytes, j.file[name].bytes)
    ensures DeltaEncodes(p, ctx, name, j.prior[name].bytes, j.file[name].bytes)
  {
    hide Encodes, FindTensor;
  }
}
