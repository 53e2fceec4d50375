/** The writing phase of plan_commit_groups, and the planner as a whole (modules/store/src/commit_planner.cpp). */
module PlanWrite {
  import opened Common
  import opened Records
  import opened Sources
  import opened Encoder
  import opened GroupEncoder
  import opened PlanSpec
  import opened Planned
  import opened PlannedReads
  import opened Downgrade
  import opened Planner

  // ------------------------------------------------------------- deltas

  function DeltaOf(parents: map<string, ParentInfo>, t: string, diff: Oid): GroupEntry
    requires t in parents
  {
    Delta(parents[t].commit, t, diff, parents[t].depth + 1)
  }

  /** The members now have their entries, the other entries are as before. */
  ghost predicate Added(members: seq<string>, parents: map<string, ParentInfo>, diff: Oid,
      before: map<string, GroupEntry>, after: map<string, GroupEntry>) {
    && (forall t :: t in after <==> t in before || t in members)
    && (forall t :: t in members ==> t in parents && after[t] == DeltaOf(parents, t, diff))
    && (forall t :: t in before && t !in members ==> after[t] == before[t])
  }

  method AddMembers(members: seq<string>, parents: map<string, ParentInfo>, diff: Oid,
      before: map<string, GroupEntry>)
    returns (r: Result<map<string, GroupEntry>>)
    ensures r.Err? ==> exists i :: 0 <= i < |members| && members[i] !in parents
    ensures r.Ok? ==> Added(members, parents, diff, before, r.value)
  {
    var entries, k := before, 0;
    while k < |members|
      invariant 0 <= k <= |members| && forall t :: t in entries <==> t in before || t in members[..k]
      invariant forall t :: t in members[..k] ==> t in parents && entries[t] == DeltaOf(parents, t, diff)
      invariant forall t :: t in before && t !in members[..k] ==> entries[t] == before[t]
    {
      var t := members[k];
      if t !in parents {
        return Err(Internal);
      }
      assert members[..k + 1] == members[..k] + [t];
      entries := entries[t := DeltaOf(parents, t, diff)];
      k := k + 1;
    }
    assert members[..k] == members;
    return Ok(entries);
  }

  ghost predicate Stored(p: Prims, store: Store, art: Artifact) {
    p.address(DiffBlock(art)) in store && store[p.address(DiffBlock(art))] == DiffBlock(art)
  }

  /** The artifact is in the store and every member of the group has its entry. */
  ghost predicate GroupStored(p: Prims, store: Store, j: Job, entries: map<string, GroupEntry>, g: string,
      art: Artifact) {
    Stored(p, store, art) && forall t :: Member(j.topo, t, g) ==> DeltaEntry(p, j, entries, art, t)
  }

  /** The first k groups that stay deltas are written, and nothing else has an entry. */
  ghost predicate DeltasWritten(p: Prims, store: Store, j: Job, plans: map<string, GroupPlan>, names: seq<string>,
      delta: set<string>, entries: map<string, GroupEntry>, k: nat)
    requires k <= |names| && forall g :: g in names ==> g in plans
  {
    && (forall i :: 0 <= i < k && names[i] in delta ==>
        GroupStored(p, store, j, entries, names[i], plans[names[i]].encoded.artifact))
    && OnlyMembers(j, names, delta, entries, k)
  }

  ghost predicate OnlyMembers(j: Job, names: seq<string>, delta: set<string>, entries: map<string, GroupEntry>,
      k: nat)
    requires k <= |names|
  {
    forall t :: t in entries ==> exists i :: 0 <= i < k && names[i] in delta && Member(j.topo, t, names[i])
  }

  lemma MoreMembers(p: Prims, j: Job, names: seq<string>, delta: set<string>, members: seq<string>, art: Artifact,
      before: map<string, GroupEntry>, after: map<string, GroupEntry>, k: nat)
    requires k < |names| && names[k] in delta && OnlyMembers(j, names, delta, before, k)
        && Added(members, j.parents, p.address(DiffBlock(art)), before, after)
    requires forall t :: t in members ==> Member(j.topo, t, names[k])
    ensures OnlyMembers(j, names, delta, after, k + 1)
  {
    hide Member;
    forall t | t in after ensures exists i :: 0 <= i < k + 1 && names[i] in delta && Member(j.topo, t, names[i]) {
      if t in members {
        assert Member(j.topo, t, names[k]);
      } else {
        assert t in before;
      }
    }
  }

  lemma MembersComparable(p: Prims, j: Job, plans: map<string, GroupPlan>, names: seq<string>, g: string)
    requires JobFits(j) && PlansGood(p, j, plans, names) && g in names && plans[g].decision.StoreDelta?
    ensures plans[g].members == MembersOf(j.topo, g)
    ensures forall t :: t in plans[g].members <==> Member(j.topo, t, g)
    ensures forall t :: Member(j.topo, t, g) ==> Comparable(j, t) && t in j.parents && j.parents[t].depth < j.maxDepth
  {
    assert PlanGood(p, j, g, plans[g]);
    hide MembersOf, ArtifactEncodes;
    forall t ensures t in plans[g].members <==> Member(j.topo, t, g) { MembersAreMembers(j.topo, g, t); }
  }

  /** Writing one more group leaves the entries of the others alone: no tensor has two row groups. */
  lemma GroupKept(p: Prims, a: Store, b: Store, j: Job, members: seq<string>, art: Artifact,
      before: map<string, GroupEntry>, after: map<string, GroupEntry>, g: string, h: string, other: Artifact)
    requires JobFits(j) && GroupStored(p, a, j, before, h, other) && Grows(a, b)
        && Added(members, j.parents, p.address(DiffBlock(art)), before, after)
    requires g != h && forall t :: t in members ==> Member(j.topo, t, g)
    ensures GroupStored(p, b, j, after, h, other)
  {
    hide JobFits, Comparable, Member;
    forall t | Member(j.topo, t, h) ensures DeltaEntry(p, j, after, other, t) {
      if t in members {
        RowGroupIsUnique(j, t, g, h);
      }
      assert DeltaEntry(p, j, before, other, t);
    }
  }

  lemma GroupNew(p: Prims, store: Store, j: Job, members: seq<string>, art: Artifact, before: map<string, GroupEntry>,
      after: map<string, GroupEntry>, g: string)
    requires Stored(p, store, art) && Added(members, j.parents, p.address(DiffBlock(art)), before, after)
    requires forall t :: Member(j.topo, t, g) ==>
        t in members && Comparable(j, t) && t in j.parents && j.parents[t].depth < j.maxDepth
    ensures GroupStored(p, store, j, after, g, art)
  {
    hide Comparable, Member;
  }

  lemma DeltaStep(p: Prims, a: Store, b: Store, j: Job, plans: map<string, GroupPlan>, names: seq<string>,
      delta: set<string>, before: map<string, GroupEntry>, after: map<string, GroupEntry>, k: nat)
    requires JobFits(j) && PlansGood(p, j, plans, names) && k < |names| && names[k] in delta
        && plans[names[k]].decision.StoreDelta?
    requires DeltasWritten(p, a, j, plans, names, delta, before, k) && Grows(a, b)
        && Stored(p, b, plans[names[k]].encoded.artifact)
    requires Added(plans[names[k]].members, j.parents, p.address(DiffBlock(plans[names[k]].encoded.artifact)), before,
        after)
    ensures DeltasWritten(p, b, j, plans, names, delta, after, k + 1)
  {
    hide PlansGood, JobFits, Comparable, Member, GroupStored, Stored, Grows, Added, OnlyMembers, MembersOf;
    DistinctNames(p, j, plans, names);
    var g := names[k];
    MembersComparable(p, j, plans, names, g);
    var art, members := plans[g].encoded.artifact, plans[g].members;
    MoreMembers(p, j, names, delta, members, art, before, after, k);
    GroupNew(p, b, j, members, art, before, after, g);
    forall i | 0 <= i < k && names[i] in delta
      ensures GroupStored(p, b, j, after, names[i], plans[names[i]].encoded.artifact)
    {
      GroupKept(p, a, b, j, members, art, before, after, g, names[i], plans[names[i]].encoded.artifact);
    }
  }

  lemma DistinctNames(p: Prims, j: Job, plans: map<string, GroupPlan>, names: seq<string>)
    requires JobFits(j) && PlansGood(p, j, plans, names)
    ensures Distinct(names) && forall g :: g in names <==> g in plans
  {}

  ghost predicate DeltasGood(p: Prims, j: Job, plans: map<string, GroupPlan>, names: seq<string>, delta: set<string>,
      parents: map<string, ParentInfo>) {
    JobFits(j) && PlansGood(p, j, plans, names) && delta <= DecidedDelta(plans) && j.parents == parents
  }

  method StoreDelta(p: Prims, blocks: Blocks, plans: map<string, GroupPlan>, names: seq<string>,
      ghost delta: set<string>, parents: map<string, ParentInfo>, entries: map<string, GroupEntry>, k: nat,
      ghost j: Job)
    returns (r: Result<map<string, GroupEntry>>)
    requires (forall g :: g in names ==> g in plans) && k < |names| && names[k] in delta
    modifies blocks
    ensures (Lawful(p) && Addressed(p, old(blocks.objects))) ==>
        Addressed(p, blocks.objects) && Grows(old(blocks.objects), blocks.objects)
    ensures (Lawful(p) && Addressed(p, old(blocks.objects)) && DeltasGood(p, j, plans, names, delta, parents)
             && DeltasWritten(p, old(blocks.objects), j, plans, names, delta, entries, k)) ==>
      r.Ok? && DeltasWritten(p, blocks.objects, j, plans, names, delta, r.value, k + 1)
  {
    hide *;
    var plan := plans[names[k]];
    ghost var was := blocks.objects;
    var diff := blocks.Write(p, DiffBlock(plan.encoded.artifact));
    r := AddMembers(plan.members, parents, diff, entries);
    if Lawful(p) && Addressed(p, was) && DeltasGood(p, j, plans, names, delta, parents)
        && DeltasWritten(p, was, j, plans, names, delta, entries, k) {
      PutStored(p, was, plan.encoded.artifact);
      StoreStep(p, was, blocks.objects, j, plans, names, delta, parents, entries, r, k);
    }
  }

  lemma PutStored(p: Prims, store: Store, art: Artifact)
    ensures Stored(p, Put(p, store, DiffBlock(art)), art)
  {}

  lemma StoreStep(p: Prims, a: Store, b: Store, j: Job, plans: map<string, GroupPlan>, names: seq<string>,
      delta: set<string>, parents: map<string, ParentInfo>, before: map<string, GroupEntry>,
      r: Result<map<string, GroupEntry>>, k: nat)
    requires (forall g :: g in names ==> g in plans) && k < |names| && names[k] in delta
    requires DeltasGood(p, j, plans, names, delta, parents) && DeltasWritten(p, a, j, plans, names, delta, before, k)
    requires Grows(a, b) && Stored(p, b, plans[names[k]].encoded.artifact)
    requires r.Err? ==> exists i :: 0 <= i < |plans[names[k]].members| && plans[names[k]].members[i] !in parents
    requires r.Ok? ==> Added(plans[names[k]].members, parents, p.address(DiffBlock(plans[names[k]].encoded.artifact)),
        before, r.value)
    ensures r.Ok? && DeltasWritten(p, b, j, plans, names, delta, r.value, k + 1)
  {
    hide JobFits, PlansGood, DeltasWritten, Stored, Grows, Member, MembersOf, Comparable, Added;
    MembersComparable(p, j, plans, names, names[k]);
    if r.Ok? {
      DeltaStep(p, a, b, j, plans, names, delta, before, r.value, k);
    }
  }

  lemma NoDeltasYet(p: Prims, store: Store, j: Job, plans: map<string, GroupPlan>, names: seq<string>,
      delta: set<string>)
    requires forall g :: g in names ==> g in plans
    ensures DeltasWritten(p, store, j, plans, names, delta, map[], 0) && Grows(store, store)
  {}

  method StoreDeltas(p: Prims, blocks: Blocks, plans: map<string, GroupPlan>, names: seq<string>, delta: set<string>,
      parents: map<string, ParentInfo>, ghost j: Job)
    returns (r: Result<map<string, GroupEntry>>)
    requires forall g :: g in names ==> g in plans
    modifies blocks
    ensures (Lawful(p) && Addressed(p, old(blocks.objects))) ==>
        Addressed(p, blocks.objects) && Grows(old(blocks.objects), blocks.objects)
    ensures (Lawful(p) && Addressed(p, old(blocks.objects)) && DeltasGood(p, j, plans, names, delta, parents)) ==>
      r.Ok? && DeltasWritten(p, blocks.objects, j, plans, names, delta, r.value, |names|)
  {
    hide *;
    ghost var sound := Lawful(p) && Addressed(p, old(blocks.objects));
    ghost var good := sound && DeltasGood(p, j, plans, names, delta, parents);
    var entries: map<string, GroupEntry>, k := map[], 0;
    ghost var start := blocks.objects;
    NoDeltasYet(p, start, j, plans, names, delta);
    while k < |names|
      invariant 0 <= k <= |names|
          && (sound ==> Addressed(p, blocks.objects) && Grows(old(blocks.objects), blocks.objects))
      invariant good ==> DeltasWritten(p, blocks.objects, j, plans, names, delta, entries, k)
    {
      if names[k] in delta {
        ghost var was := blocks.objects;
        var next := StoreDelta(p, blocks, plans, names, delta, parents, entries, k, j);
        if sound {
          GrowsOn(start, was, blocks.objects);
        }
        if next.Err? {
          return next;
        }
        entries := next.value;
      } else if good {
        SkipGroup(p, blocks.objects, j, plans, names, delta, entries, k);
      }
      k := k + 1;
    }
    return Ok(entries);
  }

  lemma SkipGroup(p: Prims, store: Store, j: Job, plans: map<string, GroupPlan>, names: seq<string>,
      delta: set<string>, entries: map<string, GroupEntry>, k: nat)
    requires (forall g :: g in names ==> g in plans) && k < |names| && names[k] !in delta
    requires DeltasWritten(p, store, j, plans, names, delta, entries, k)
    ensures DeltasWritten(p, store, j, plans, names, delta, entries, k + 1)
  {
    hide Member, DeltaEntry;
  }

  // ------------------------------------------------------------- full blocks

  datatype LayoutEntry = LayoutEntry(tensor: string, nbytes: nat)

  /** The buffer layout names every tensor of the file, with its size. */
  ghost predicate LaysOut(layout: seq<LayoutEntry>, file: File) {
    && (forall i :: 0 <= i < |layout| ==>
        layout[i].tensor in file && layout[i].nbytes == |file[layout[i].tensor].bytes|)
    && (forall t :: t in file ==> exists i :: 0 <= i < |layout| && layout[i].tensor == t)
  }

  method ReadTensorWhole(target: Source, e: LayoutEntry, ghost t: Tensor) returns (r: Result<seq<Byte>>)
    ensures Answers(target, e.tensor, t) && e.nbytes == |t.bytes| ==> if t.shape == [] then r.Err? else r == Ok(t.bytes)
    ensures r.Ok? ==>
      exists units: nat :: target.read(e.tensor, 0, units, Zeros(e.nbytes)) == Ok(Got(e.nbytes, r.value))
  {
    if e.tensor !in target.metas {
      return Err(TensorNotInBufferLayout);
    }
    var meta := target.metas[e.tensor];
    var units := if meta.shape == [] then 1 else meta.shape[0];
    if Supplies(target, e.tensor, t) && e.nbytes == |t.bytes| {
      RowsOfTensor(t);
      assert target.read(e.tensor, 0, units,
          Zeros(e.nbytes)) == Ok(Got(e.nbytes, t.bytes[0 * t.RowBytes()..0 * t.RowBytes() + units * t.RowBytes()]));
      assert t.bytes[0..e.nbytes] == t.bytes;
    }
    var got := target.read(e.tensor, 0, units, Zeros(e.nbytes));
    if got.Err? {
      return Err(got.error);
    }
    if got.value.n != e.nbytes {
      return Err(Internal);
    }
    return Ok(got.value.out);
  }

  /** Tensors without a delta entry among the first k of the layout are stored whole. */
  ghost predicate FullsWritten(p: Prims, store: Store, j: Job, deltas: map<string, GroupEntry>,
      layout: seq<LayoutEntry>, entries: map<string, GroupEntry>, k: nat)
    requires k <= |layout|
  {
    && (forall t :: t in deltas ==> t in entries && entries[t] == deltas[t])
    && (forall t :: t in entries && t !in deltas ==> t in j.file && FullEntry(p, store, j, entries, t))
    && (forall i :: 0 <= i < k ==> layout[i].tensor in entries)
  }

  lemma FullStep(p: Prims, a: Store, b: Store, j: Job, deltas: map<string, GroupEntry>, layout: seq<LayoutEntry>,
      entries: map<string, GroupEntry>, k: nat, block: Oid)
    requires k < |layout| && FullsWritten(p, a, j, deltas, layout, entries, k) && Grows(a, b)
        && layout[k].tensor !in entries
    requires layout[k].tensor in j.file && block in b && b[block] == Raw(j.file[layout[k].tensor].bytes)
    ensures FullsWritten(p, b, j, deltas, layout, entries[layout[k].tensor := Full(block)], k + 1)
  {}

  lemma LaidOut(layout: seq<LayoutEntry>, file: File, k: nat)
    requires LaysOut(layout, file) && k < |layout|
    ensures layout[k].tensor in file && layout[k].nbytes == |file[layout[k].tensor].bytes|
  {}

  lemma RawStored(p: Prims, store: Store, bytes: seq<Byte>)
    ensures p.address(Raw(bytes)) in Put(p, store, Raw(bytes))
        && Put(p, store, Raw(bytes))[p.address(Raw(bytes))] == Raw(bytes)
  {}

  lemma FullSkip(p: Prims, store: Store, j: Job, deltas: map<string, GroupEntry>, layout: seq<LayoutEntry>,
      entries: map<string, GroupEntry>, k: nat)
    requires k < |layout| && FullsWritten(p, store, j, deltas, layout, entries, k) && layout[k].tensor in entries
    ensures FullsWritten(p, store, j, deltas, layout, entries, k + 1)
  {}

  ghost function ScalarsIn(file: File): set<string> { set t | t in file && file[t].shape == [] }

  /** No scalar has been stored. */
  ghost predicate ScalarsOnlyIn(file: File, deltas: map<string, GroupEntry>, entries: map<string, GroupEntry>) {
    forall t :: t in ScalarsIn(file) && t in entries ==> t in deltas
  }

  lemma ScalarStops(p: Prims, store: Store, j: Job, deltas: map<string, GroupEntry>, layout: seq<LayoutEntry>,
      entries: map<string, GroupEntry>, k: nat)
    requires k < |layout| && FullsWritten(p, store, j, deltas, layout, entries, k) && layout[k].tensor !in entries
    requires layout[k].tensor in j.file && j.file[layout[k].tensor].shape == []
    ensures !(ScalarsIn(j.file) <= deltas.Keys)
  {
    assert layout[k].tensor in ScalarsIn(j.file);
  }

  lemma NotScalar(file: File, name: string, deltas: map<string, GroupEntry>, entries: map<string, GroupEntry>,
      block: Oid)
    requires name in file && file[name].shape != [] && ScalarsOnlyIn(file, deltas, entries)
    ensures ScalarsOnlyIn(file, deltas, entries[name := Full(block)])
  {}

  lemma AllScalarsIn(p: Prims, store: Store, j: Job, deltas: map<string, GroupEntry>, layout: seq<LayoutEntry>,
      entries: map<string, GroupEntry>)
    requires LaysOut(layout, j.file) && FullsWritten(p, store, j, deltas, layout, entries, |layout|)
        && ScalarsOnlyIn(j.file, deltas, entries)
    ensures ScalarsIn(j.file) <= deltas.Keys
  {
    forall t | t in ScalarsIn(j.file) ensures t in deltas {
      var i :| 0 <= i < |layout| && layout[i].tensor == t;
      assert layout[i].tensor in entries;
    }
  }

  lemma NoFullsYet(p: Prims, store: Store, j: Job, deltas: map<string, GroupEntry>, layout: seq<LayoutEntry>)
    ensures FullsWritten(p, store, j, deltas, layout, deltas, 0) && ScalarsOnlyIn(j.file, deltas, deltas)
        && Grows(store, store)
  {}

  method StoreFulls(p: Prims, blocks: Blocks, target: Source, layout: seq<LayoutEntry>,
      deltas: map<string, GroupEntry>, ghost j: Job)
    returns (r: Result<map<string, GroupEntry>>)
    modifies blocks
    ensures (Lawful(p) && Addressed(p, old(blocks.objects))) ==>
        Addressed(p, blocks.objects) && Grows(old(blocks.objects), blocks.objects)
    ensures (Lawful(p) && Addressed(p, old(blocks.objects)) && LaysOut(layout, j.file) && forall t :: t in j.file ==>
        Answers(target, t, j.file[t])) ==>
      (r.Ok? ==> FullsWritten(p, blocks.objects, j, deltas, layout, r.value, |layout|))
          && (r.Ok? <==> ScalarsIn(j.file) <= deltas.Keys)
  {
    hide *;
    ghost var sound := Lawful(p) && Addressed(p, old(blocks.objects));
    ghost var good := sound && LaysOut(layout, j.file) && forall t :: t in j.file ==> Answers(target, t, j.file[t]);
    var entries, k := deltas, 0;
    ghost var start := blocks.objects;
    NoFullsYet(p, start, j, deltas, layout);
    while k < |layout|
      invariant 0 <= k <= |layout|
          && (sound ==> Addressed(p, blocks.objects) && Grows(old(blocks.objects), blocks.objects))
      invariant good ==> FullsWritten(p, blocks.objects, j, deltas, layout, entries, k)
      invariant good ==> ScalarsOnlyIn(j.file, deltas, entries)
    {
      var e := layout[k];
      if good {
        LaidOut(layout, j.file, k);
      }
      if e.tensor in entries {
        if good {
          FullSkip(p, blocks.objects, j, deltas, layout, entries, k);
        }
      } else {
        ghost var t := if e.tensor in j.file then j.file[e.tensor] else Tensor([], F16, []);
        var bytes := ReadTensorWhole(target, e, t);
        if bytes.Err? {
          if good {
            ScalarStops(p, blocks.objects, j, deltas, layout, entries, k);
          }
          return Err(bytes.error);
        }
        ghost var was := blocks.objects;
        var block := blocks.Write(p, Raw(bytes.value));
        if sound {
          GrowsOn(start, was, blocks.objects);
        }
        if good {
          RawStored(p, was, bytes.value);
          FullStep(p, was, blocks.objects, j, deltas, layout, entries, k, block);
          NotScalar(j.file, e.tensor, deltas, entries, block);
        }
        entries := entries[e.tensor := Full(block)];
      }
      k := k + 1;
    }
    if good {
      AllScalarsIn(p, blocks.objects, j, deltas, layout, entries);
    }
    return Ok(entries);
  }

  // ------------------------------------------------------------- the planner

  ghost function ArtsOf(plans: map<string, GroupPlan>, delta: set<string>): map<string, Artifact> {
    map g | g in delta && g in plans :: plans[g].encoded.artifact
  }

  lemma StoredGrows(p: Prims, a: Store, b: Store, art: Artifact)
    requires Stored(p, a, art) && Grows(a, b)
    ensures Stored(p, b, art)
  {}

  lemma EntryKept(p: Prims, b: Store, j: Job, deltas: map<string, GroupEntry>, layout: seq<LayoutEntry>,
      entries: map<string, GroupEntry>, g: string, art: Artifact, store: Store)
    requires GroupStored(p, store, j, deltas, g, art) && FullsWritten(p, b, j, deltas, layout, entries, |layout|)
    ensures forall t :: Member(j.topo, t, g) ==> DeltaEntry(p, j, entries, art, t)
  {
    hide Member, Comparable;
    forall t | Member(j.topo, t, g) ensures DeltaEntry(p, j, entries, art, t) {
      assert DeltaEntry(p, j, deltas, art, t);
    }
  }

  lemma GroupIsDelta(p: Prims, store: Store, j: Job, plans: map<string, GroupPlan>, names: seq<string>, g: string)
    requires JobFits(j) && PlansGood(p, j, plans, names) && g in plans && plans[g].decision.StoreDelta?
        && Stored(p, store, plans[g].encoded.artifact)
    ensures DeltaGroup(p, store, j, g, plans[g].encoded.artifact)
  {
    assert PlanGood(p, j, g, plans[g]);
    hide JobFits, ArtifactEncodes, Candidate, MembersOf, MovedFor;
  }

  lemma GreatestWithin(plans: map<string, GroupPlan>, names: seq<string>, delta: set<string>, g: string)
    requires IsGreatest(names, DepsOf(plans), DecidedDelta(plans), delta) && g in delta
    ensures g in plans && plans[g].decision.StoreDelta?
  {}

  lemma WrittenGroup(p: Prims, store: Store, j: Job, plans: map<string, GroupPlan>, names: seq<string>,
      delta: set<string>, deltas: map<string, GroupEntry>, g: string)
    requires (forall h :: h in names <==> h in plans) && g in delta && g in plans
        && DeltasWritten(p, store, j, plans, names, delta, deltas, |names|)
    ensures GroupStored(p, store, j, deltas, g, plans[g].encoded.artifact)
        && Stored(p, store, plans[g].encoded.artifact)
  {
    hide DeltaEntry, Member, OnlyMembers;
    assert g in names;
    var i :| 0 <= i < |names| && names[i] == g;
    assert GroupStored(p, store, j, deltas, names[i], plans[names[i]].encoded.artifact);
  }

  lemma PlannedGroup(p: Prims, a: Store, b: Store, j: Job, plans: map<string, GroupPlan>, names: seq<string>,
      delta: set<string>, deltas: map<string, GroupEntry>, layout: seq<LayoutEntry>, entries: map<string, GroupEntry>,
      g: string)
    requires JobFits(j) && PlansGood(p, j, plans, names)
        && (forall h :: h in j.topo.groups && Candidate(j, h) && MembersOf(j.topo, h) != [] ==> h in plans)
    requires IsGreatest(names, DepsOf(plans), DecidedDelta(plans), delta) && g in delta
    requires (forall h :: h in names <==> h in plans)
    requires DeltasWritten(p, a, j, plans, names, delta, deltas, |names|) && Grows(a, b)
        && FullsWritten(p, b, j, deltas, layout, entries, |layout|)
    ensures g in plans && GroupPlanned(p, b, j, entries, delta, g, plans[g].encoded.artifact)
  {
    hide JobFits, PlansGood, Candidate, MembersOf, FullsWritten, Member, DeltaEntry, DeltaGroup, ColumnsRecoverable,
        Grows, DeltasWritten, IsGreatest, DepsOf, DecidedDelta;
    GreatestWithin(plans, names, delta, g);
    var art := plans[g].encoded.artifact;
    WrittenGroup(p, a, j, plans, names, delta, deltas, g);
    StoredGrows(p, a, b, art);
    GroupIsDelta(p, b, j, plans, names, g);
    EntryKept(p, b, j, deltas, layout, entries, g, art, a);
    forall name | Member(j.topo, name, g) ensures ColumnsRecoverable(j, delta, name) {
      DowngradeRecovers(p, j, plans, names, delta, g, name);
    }
  }

  lemma PlanFinish(p: Prims, a: Store, b: Store, j: Job, plans: map<string, GroupPlan>, names: seq<string>,
      delta: set<string>, deltas: map<string, GroupEntry>, layout: seq<LayoutEntry>, entries: map<string, GroupEntry>)
    requires JobFits(j) && PlansGood(p, j, plans, names)
        && (forall h :: h in j.topo.groups && Candidate(j, h) && MembersOf(j.topo, h) != [] ==> h in plans)
    requires IsGreatest(names, DepsOf(plans), DecidedDelta(plans), delta) && LaysOut(layout, j.file)
    requires DeltasWritten(p, a, j, plans, names, delta, deltas, |names|) && Grows(a, b)
        && FullsWritten(p, b, j, deltas, layout, entries, |layout|)
    ensures IsPlanned(p, b, j, entries, delta, ArtsOf(plans, delta))
  {
    DistinctNames(p, j, plans, names);
    NamesAre(p, j, plans, names);
    hide *;
    forall g | g in delta
      ensures g in ArtsOf(plans, delta) && GroupPlanned(p, b, j, entries, delta, g, ArtsOf(plans, delta)[g])
    {
      PlannedGroup(p, a, b, j, plans, names, delta, deltas, layout, entries, g);
      ArtOf(plans, delta, g);
    }
    DeltasAreMembers(p, a, j, plans, names, delta, deltas);
    FullsAreEntries(p, b, j, deltas, layout, entries, delta);
    PlannedIntro(p, b, j, entries, delta, ArtsOf(plans, delta));
  }

  lemma NamesAre(p: Prims, j: Job, plans: map<string, GroupPlan>, names: seq<string>)
    requires JobFits(j) && PlansGood(p, j, plans, names)
    ensures forall g :: g in names <==> g in plans
  {
    hide JobFits, PlanGood;
  }

  lemma ArtOf(plans: map<string, GroupPlan>, delta: set<string>, g: string)
    requires g in delta && g in plans
    ensures g in ArtsOf(plans, delta) && ArtsOf(plans, delta)[g] == plans[g].encoded.artifact
  {}

  lemma PlannedIntro(p: Prims, store: Store, j: Job, entries: map<string, GroupEntry>, delta: set<string>,
      arts: map<string, Artifact>)
    requires JobFits(j) && forall g :: g in delta ==> g in arts && GroupPlanned(p, store, j, entries, delta, g, arts[g])
    requires forall name :: name in j.file && !InDelta(j, delta, name) ==> FullEntry(p, store, j, entries, name)
    requires forall name :: name in entries <==> name in j.file
    ensures IsPlanned(p, store, j, entries, delta, arts)
  {
    hide JobFits, GroupPlanned, FullEntry, InDelta;
  }

  lemma DeltasAreMembers(p: Prims, store: Store, j: Job, plans: map<string, GroupPlan>, names: seq<string>,
      delta: set<string>, deltas: map<string, GroupEntry>)
    requires JobFits(j) && (forall g :: g in names ==> g in plans)
    requires DeltasWritten(p, store, j, plans, names, delta, deltas, |names|)
    ensures forall t :: t in deltas ==> InDelta(j, delta, t) && t in j.file
  {
    assert OnlyMembers(j, names, delta, deltas, |names|);
    hide DeltasWritten, OnlyMembers, JobFits;
    forall t | t in deltas ensures InDelta(j, delta, t) && t in j.file { DeltaMember(j, names, delta, deltas, t); }
  }

  lemma FullsAreEntries(p: Prims, store: Store, j: Job, deltas: map<string, GroupEntry>, layout: seq<LayoutEntry>,
      entries: map<string, GroupEntry>, delta: set<string>)
    requires LaysOut(layout, j.file) && FullsWritten(p, store, j, deltas, layout, entries, |layout|)
    requires forall t :: t in deltas ==> InDelta(j, delta, t) && t in j.file
    ensures forall t :: t in j.file && !InDelta(j, delta, t) ==> FullEntry(p, store, j, entries, t)
    ensures forall t :: t in entries <==> t in j.file
  {
    hide FullEntry, InDelta;
    forall t | t in j.file ensures t in entries {
      var i :| 0 <= i < |layout| && layout[i].tensor == t;
    }
  }

  /** A delta is never of a scalar, because the topology lists none. */
  lemma DeltasHoldNoScalar(p: Prims, store: Store, j: Job, plans: map<string, GroupPlan>, names: seq<string>,
      delta: set<string>, deltas: map<string, GroupEntry>)
    requires JobFits(j) && (forall g :: g in names ==> g in plans)
        && DeltasWritten(p, store, j, plans, names, delta, deltas, |names|)
    ensures NoScalars(j.file) <==> ScalarsIn(j.file) <= deltas.Keys
  {
    assert OnlyMembers(j, names, delta, deltas, |names|);
    hide DeltasWritten, OnlyMembers, JobFits;
    forall t | t in deltas ensures t !in ScalarsIn(j.file) {
      DeltaMember(j, names, delta, deltas, t);
      var g :| g in delta && Member(j.topo, t, g);
      MemberHasRows(j, t, g);
    }
    if ScalarsIn(j.file) <= deltas.Keys {
      forall t | t in j.file ensures j.file[t].shape != [] {
        assert t !in ScalarsIn(j.file);
      }
    }
  }

  lemma MemberHasRows(j: Job, t: string, g: string)
    requires JobFits(j) && Member(j.topo, t, g)
    ensures t in j.file && j.file[t].shape != []
  {}

  lemma DeltaMember(j: Job, names: seq<string>, delta: set<string>, deltas: map<string, GroupEntry>, t: string)
    requires JobFits(j) && OnlyMembers(j, names, delta, deltas, |names|) && t in deltas
    ensures InDelta(j, delta, t) && t in j.file
  {
    hide JobFits, Member;
    var i :| 0 <= i < |names| && names[i] in delta && Member(j.topo, t, names[i]);
    MemberInFile(j, t, names[i]);
  }

  lemma MemberInFile(j: Job, t: string, g: string)
    requires JobFits(j) && Member(j.topo, t, g)
    ensures t in j.file
  {}

  /** plan_commit_groups: on success every tensor has an entry that reads back, and the deltas are the greatest set
      whose column permutations stay recoverable. */
  method PlanCommitGroups(p: Prims, base: Source, target: Source, topo: Topology, report: Report,
      parents: map<string, ParentInfo>, blocks: Blocks, cfg: Config, opts: EncodeOptions, groups: seq<string>,
      layout: seq<LayoutEntry>, ghost j: Job)
    returns (r: Result<map<string, GroupEntry>>, ghost delta: set<string>, ghost arts: map<string, Artifact>,
        ghost plans: map<string, GroupPlan>)
    requires Listed(topo) && ReportIsNatural(report) && Distinct(groups) && forall g :: g in groups <==>
        g in topo.groups
    modifies blocks
    ensures (Lawful(p) && Addressed(p, old(blocks.objects))) ==>
        Addressed(p, blocks.objects) && Grows(old(blocks.objects), blocks.objects)
    ensures (Ready(p, base, target, j) && SameJob(j, topo, report, parents, cfg) && Addressed(p, old(blocks.objects))
        && LaysOut(layout, j.file)) ==>
      && (AllBased(j) && NoScalars(j.file) ==> r.Ok?)
      && (r.Ok? ==>
          NoScalars(j.file) && IsPlanned(p, blocks.objects, j, r.value, delta, arts) && PlansSized(j, plans))
    ensures SomeBlind(base, topo, report, groups) && !opts.residual.Plain? ==> r.Err?
    ensures r.Ok? ==> ChoosesDeltas(p, target, topo, report, parents, cfg, opts, groups, plans, delta)
    ensures r.Ok? ==> arts == ArtsOf(plans, delta)
  {
    delta, arts, plans := {}, map[], map[];
    ghost var good := Ready(p, base, target, j) && SameJob(j, topo, report, parents, cfg)
        && Addressed(p, old(blocks.objects)) && LaysOut(layout, j.file);
    assert good ==> Lawful(p) && JobFits(j) && forall t :: t in j.file ==> Answers(target, t, j.file[t]);
    var planned := PlanGroups(p, base, target, topo, report, parents, cfg, opts, groups, j);
    if planned.Err? {
      return Err(planned.error), delta, arts, plans;
    }
    var all, names := planned.value.0, planned.value.1;
    plans := all;
    hide Ready, JobFits, Answers, NoScalars, Lawful, Addressed, PlansGood, IsPlanned, DeltasWritten, FullsWritten,
        AllDecided, SomeBlind, Tried, PlansSized;
    var stay := DowngradeAll(names, DepsOf(all), DecidedDelta(all));
    ChoiceIs(p, target, topo, report, parents, cfg, opts, groups, all, names, stay);
    hide ChoosesDeltas;
    if good {
      AllConsidered(j, all, groups);
      PlansAreSized(p, j, all, names);
    }
    r := WriteObjects(p, blocks, target, all, names, stay, parents, layout, j);
    delta, arts := stay, ArtsOf(all, stay);
  }

  /** Phase C: the artifacts of the deltas, then a raw block for every other tensor. */
  method WriteObjects(p: Prims, blocks: Blocks, target: Source, plans: map<string, GroupPlan>, names: seq<string>,
      delta: set<string>, parents: map<string, ParentInfo>, layout: seq<LayoutEntry>, ghost j: Job)
    returns (r: Result<map<string, GroupEntry>>)
    requires (forall g :: g in names <==> g in plans) && IsGreatest(names, DepsOf(plans), DecidedDelta(plans), delta)
    modifies blocks
    ensures (Lawful(p) && Addressed(p, old(blocks.objects))) ==>
        Addressed(p, blocks.objects) && Grows(old(blocks.objects), blocks.objects)
    ensures (Lawful(p) && Addressed(p, old(blocks.objects)) && LaysOut(layout, j.file)
        && (forall t :: t in j.file ==> Answers(target, t, j.file[t]))
             && JobFits(j) && PlansGood(p, j, plans, names) && j.parents == parents
             && (forall h :: h in j.topo.groups && Candidate(j, h) && MembersOf(j.topo, h) != [] ==> h in plans)) ==>
      (r.Ok? <==> NoScalars(j.file))
          && (r.Ok? ==> IsPlanned(p, blocks.objects, j, r.value, delta, ArtsOf(plans, delta)))
  {
    hide JobFits, Answers, Lawful, Addressed, PlansGood, IsPlanned, DeltasWritten, FullsWritten, Candidate, MembersOf,
        LaysOut, Grows;
    ghost var start := blocks.objects;
    ghost var sound := Lawful(p) && Addressed(p, start);
    ghost var good := sound && LaysOut(layout, j.file) && (forall t :: t in j.file ==> Answers(target, t, j.file[t]))
      && JobFits(j) && PlansGood(p, j, plans, names) && j.parents == parents
      && (forall h :: h in j.topo.groups && Candidate(j, h) && MembersOf(j.topo, h) != [] ==> h in plans);
    var deltas := StoreDeltas(p, blocks, plans, names, delta, parents, j);
    ghost var mid := blocks.objects;
    if deltas.Err? {
      return deltas;
    }
    r := StoreFulls(p, blocks, target, layout, deltas.value, j);
    if sound {
      GrowsOn(start, mid, blocks.objects);
    }
    if good {
      DeltasHoldNoScalar(p, mid, j, plans, names, delta, deltas.value);
    }
    if good && r.Ok? {
      PlanFinish(p, mid, blocks.objects, j, plans, names, delta, deltas.value, layout, r.value);
    }
  }

  /** Every candidate with members was tried. */
  lemma AllConsidered(j: Job, plans: map<string, GroupPlan>, groups: seq<string>)
    requires JobFits(j) && Tried(j.topo, j.report, groups, plans) && forall g :: g in groups <==> g in j.topo.groups
    ensures forall h :: h in j.topo.groups && Candidate(j, h) && MembersOf(j.topo, h) != [] ==> h in plans
  {
    hide MembersOf, Eligible;
    forall h | h in j.topo.groups && Candidate(j, h) && MembersOf(j.topo, h) != [] ensures h in plans {
      EligibleIs(j.topo, j.report, h);
    }
  }

  /** A group with a base is measured against its members' bytes. */
  ghost predicate PlansSized(j: Job, plans: map<string, GroupPlan>) {
    forall g :: g in plans && HasBase(j, g) ==> plans[g].encoded.fullBytes == BytesOf(j.file, MembersOf(j.topo, g))
  }

  lemma PlansAreSized(p: Prims, j: Job, plans: map<string, GroupPlan>, names: seq<string>)
    requires JobFits(j) && PlansGood(p, j, plans, names)
    ensures PlansSized(j, plans)
  {
    hide JobFits, MembersOf, BytesOf, ArtifactEncodes, HasBase;
    forall g | g in plans && HasBase(j, g)
      ensures plans[g].encoded.fullBytes == BytesOf(j.file, MembersOf(j.topo, g))
    {
      assert PlanGood(p, j, g, plans[g]);
    }
  }

  /** The plans are of the groups worth trying, each decision is the policy's, and the deltas are the greatest set of
      accepted groups whose dependencies among the planned groups are in the set. */
  ghost predicate ChoosesDeltas(p: Prims, target: Source, topo: Topology, report: Report,
      parents: map<string, ParentInfo>, cfg: Config, opts: EncodeOptions, groups: seq<string>,
      plans: map<string, GroupPlan>, delta: set<string>) {
    && Tried(topo, report, groups, plans) && AllDecided(p, target, topo, report, parents, cfg, opts, plans)
    && exists names :: (forall g :: g in names <==> g in plans)
        && IsGreatest(names, DepsOf(plans), DecidedDelta(plans), delta)
  }

  lemma ChoiceIs(p: Prims, target: Source, topo: Topology, report: Report, parents: map<string, ParentInfo>,
      cfg: Config, opts: EncodeOptions, groups: seq<string>, plans: map<string, GroupPlan>, names: seq<string>,
      delta: set<string>)
    requires Tried(topo, report, groups, plans) && AllDecided(p, target, topo, report, parents, cfg, opts, plans)
    requires forall g :: g in names <==> g in plans
    requires IsGreatest(names, DepsOf(plans), DecidedDelta(plans), delta)
    ensures ChoosesDeltas(p, target, topo, report, parents, cfg, opts, groups, plans, delta)
  {
    hide Tried, AllDecided, IsGreatest;
  }

  // ------------------------------------------------------------- which groups become deltas

  /** What a successful planning call leaves behind. */
  ghost predicate FollowsPolicy(p: Prims, store: Store, target: Source, j: Job, cfg: Config, opts: EncodeOptions,
      groups: seq<string>, entries: map<string, GroupEntry>, delta: set<string>, plans: map<string, GroupPlan>) {
    && ChoosesDeltas(p, target, j.topo, j.report, j.parents, cfg, opts, groups, plans, delta)
    && PlansSized(j, plans) && IsPlanned(p, store, j, entries, delta, ArtsOf(plans, delta))
  }

  /** The group has a parent, no parent of it is at the depth limit, and its artifact is small enough. */
  ghost predicate PaysOff(p: Prims, j: Job, cfg: Config, group: string, art: Artifact) {
    && (exists t :: Member(j.topo, t, group) && t in j.parents)
    && (forall t :: Member(j.topo, t, group) && t in j.parents ==> j.parents[t].depth < cfg.maxChainDepth)
    && (8 + p.headerSize(art.header) + |art.payload|) as real
        <= cfg.alpha * BytesOf(j.file, MembersOf(j.topo, group)) as real
  }

  /** Every group that moves columns of a member, and was itself worth trying, is stored as a delta. */
  ghost predicate ColumnsKept(j: Job, groups: seq<string>, delta: set<string>, group: string) {
    forall t, h ::
      (Member(j.topo, t, group) && ColumnsMoveWith(j.topo, j.report, j.topo.tensors[t], h)
       && h in groups && Eligible(j.topo, j.report, h)) ==>
      h in delta
  }

  /** A tensor's entry is one hop above its parent over this artifact, or a block of its own. */
  ghost predicate StoredAs(p: Prims, j: Job, entries: map<string, GroupEntry>, t: string, asDelta: bool,
      art: Artifact) {
    && t in entries
    && if asDelta then t in j.parents && entries[t] == DeltaOf(j.parents, t, p.address(DiffBlock(art)))
       else entries[t].Full?
  }

  lemma PolicyParts(p: Prims, store: Store, target: Source, j: Job, cfg: Config, opts: EncodeOptions,
      groups: seq<string>, entries: map<string, GroupEntry>, delta: set<string>, plans: map<string, GroupPlan>,
      g: string)
    requires FollowsPolicy(p, store, target, j, cfg, opts, groups, entries, delta, plans)
    requires g in groups && Eligible(j.topo, j.report, g)
    ensures g in plans && Decided(p, j.topo, j.report, j.parents, cfg, g, plans[g])
    ensures HasBase(j, g) ==> plans[g].encoded.fullBytes == BytesOf(j.file, MembersOf(j.topo, g))
  {
    hide Decided, HasBase, IsPlanned, Eligible, IsGreatest, BytesOf, MembersOf;
  }

  /** The policy's verdict on one group, in terms of its members. */
  lemma VerdictIs(p: Prims, j: Job, cfg: Config, g: string, plan: GroupPlan)
    requires Decided(p, j.topo, j.report, j.parents, cfg, g, plan) && j.report[g].alignable
    requires HasBase(j, g) ==> plan.encoded.fullBytes == BytesOf(j.file, MembersOf(j.topo, g))
    ensures plan.decision.StoreDelta? <==> PaysOff(p, j, cfg, g, plan.encoded.artifact)
  {
    hide MembersOf, BytesOf, Dependencies, Member;
    var members := MembersOf(j.topo, g);
    forall t ensures t in members <==> Member(j.topo, t, g) { MembersAreMembers(j.topo, g, t); }
    var depth: nat :| IsDeepest(j.parents, members, depth)
        && plan.decision == DecisionAt(p, j.report[g].alignable, j.parents, cfg, plan, depth);
    assert AnyBase(j.parents, members) <==> HasBase(j, g);
  }

  /** The greatest closed set holds a group iff the policy accepts it and the set holds its dependencies. */
  lemma InGreatest(names: seq<string>, deps: map<string, seq<string>>, initial: set<string>, s: set<string>,
      g: string)
    requires IsGreatest(names, deps, initial, s) && g in deps
    ensures g in s <==> g in initial && forall dep :: dep in deps[g] && dep in names ==> dep in s
  {
    if g in initial && forall dep :: dep in deps[g] && dep in names ==> dep in s {
      assert IsClosed(names, deps, s + {g});
    }
  }

  /** A group worth trying becomes a delta exactly when it pays off and the groups that move its members' columns are
      deltas too; every member's entry says so. */
  lemma StoredAsDelta(p: Prims, store: Store, target: Source, j: Job, cfg: Config, opts: EncodeOptions,
      groups: seq<string>, entries: map<string, GroupEntry>, delta: set<string>, plans: map<string, GroupPlan>,
      g: string)
    requires FollowsPolicy(p, store, target, j, cfg, opts, groups, entries, delta, plans)
    requires g in groups && Eligible(j.topo, j.report, g)
    ensures g in plans
    ensures g in delta <==> PaysOff(p, j, cfg, g, plans[g].encoded.artifact) && ColumnsKept(j, groups, delta, g)
    ensures forall t :: Member(j.topo, t, g) ==>
        StoredAs(p, j, entries, t, g in delta, plans[g].encoded.artifact)
  {
    PolicyParts(p, store, target, j, cfg, opts, groups, entries, delta, plans, g);
    VerdictIs(p, j, cfg, g, plans[g]);
    DependenciesKept(p, target, j, cfg, opts, groups, plans, delta, g);
    MembersStored(p, store, j, plans, entries, delta, g);
  }

  lemma DependenciesKept(p: Prims, target: Source, j: Job, cfg: Config, opts: EncodeOptions, groups: seq<string>,
      plans: map<string, GroupPlan>, delta: set<string>, g: string)
    requires ChoosesDeltas(p, target, j.topo, j.report, j.parents, cfg, opts, groups, plans, delta) && g in plans
    ensures g in delta <==> plans[g].decision.StoreDelta? && ColumnsKept(j, groups, delta, g)
  {
    hide IsGreatest, ArtifactAsked, Eligible, ColumnsMoveWith, MembersOf, Member, IsDeepest, DecisionAt;
    var names :| (forall g :: g in names <==> g in plans)
        && IsGreatest(names, DepsOf(plans), DecidedDelta(plans), delta);
    InGreatest(names, DepsOf(plans), DecidedDelta(plans), delta, g);
    assert Decided(p, j.topo, j.report, j.parents, cfg, g, plans[g]);
    forall t ensures t in plans[g].members <==> Member(j.topo, t, g) { MembersAreMembers(j.topo, g, t); }
    MembersHaveAxes(j, g);
  }

  lemma MembersHaveAxes(j: Job, g: string)
    ensures forall t :: Member(j.topo, t, g) ==> t in j.topo.tensors
  {}

  lemma MembersStored(p: Prims, store: Store, j: Job, plans: map<string, GroupPlan>, entries: map<string, GroupEntry>,
      delta: set<string>, g: string)
    requires IsPlanned(p, store, j, entries, delta, ArtsOf(plans, delta)) && g in plans
    ensures forall t :: Member(j.topo, t, g) ==>
        StoredAs(p, j, entries, t, g in delta, plans[g].encoded.artifact)
  {
    hide JobFits, Member, DeltaGroup, ColumnsRecoverable, Comparable;
    forall t | Member(j.topo, t, g)
      ensures StoredAs(p, j, entries, t, g in delta, plans[g].encoded.artifact)
    {
      if g in delta {
        assert GroupPlanned(p, store, j, entries, delta, g, ArtsOf(plans, delta)[g]);
        assert DeltaEntry(p, j, entries, plans[g].encoded.artifact, t);
      } else {
        MemberInFile(j, t, g);
        OtherGroup(j, delta, t, g);
        assert FullEntry(p, store, j, entries, t);
      }
    }
  }

  lemma OtherGroup(j: Job, delta: set<string>, t: string, g: string)
    requires JobFits(j) && Member(j.topo, t, g) && g !in delta
    ensures !InDelta(j, delta, t)
  {
    hide JobFits, Member;
    if InDelta(j, delta, t) {
      var h :| h in delta && Member(j.topo, t, h);
      RowGroupIsUnique(j, t, g, h);
    }
  }
}
