/** plan_commit_groups (modules/store/src/commit_planner.cpp): encode every group with evidence, downgrade what could
    not be read back, write the survivors as deltas and everything else in full. */
module Planner {
  import opened Common
  import opened Records
  import opened Reader
  import opened Sources
  import opened Encoder
  import opened GroupEncoder
  import opened PlanSpec
  import opened Planned
  import opened Adapt
  import opened Downgrade
  import opened Depth

  // ------------------------------------------------------------- the block store

  /** Content-addressed: writing bytes that are already there does nothing. */
  class Blocks {
    var objects: Store

    constructor ()
      ensures objects == map[]
    {
      objects := map[];
    }

    method Write(p: Prims, x: Object) returns (oid: Oid)
      modifies this
      ensures oid == p.address(x)
      ensures (Lawful(p) && Addressed(p, old(objects))) ==>
          objects == Put(p, old(objects), x) && Addressed(p, objects) && Grows(old(objects), objects)
    {
      oid := p.address(x);
      if oid !in objects {
        objects := objects[oid := x];
      }
    }
  }

  // ------------------------------------------------------------- what the plan rests on

  datatype Config = Config(maxChainDepth: nat, alpha: real)

  datatype GroupPlan = GroupPlan(members: seq<string>, encoded: Encoded, decision: Decision, deps: seq<string>)

  /** The tensors of one group are all in the parent with the same shape, or none is. */
  ghost predicate AllOrNone(j: Job, group: string) {
    || (forall name :: Member(j.topo, name, group) ==> Comparable(j, name) && name in j.parents)
    || (forall name :: Member(j.topo, name, group) ==> name !in j.parents)
  }

  /** Topology, report and parent fit together, and the sources hold what they should. */
  ghost predicate Ready(p: Prims, base: Source, target: Source, j: Job) {
    && Lawful(p) && JobFits(j)
    && (forall name :: name in j.file ==> Answers(target, name, j.file[name]))
    && (forall name :: name in j.parents ==>
        name in j.prior && (j.prior[name].Valid() ==> Supplies(base, name, j.prior[name])))
    && (forall g :: Candidate(j, g) ==> AllOrNone(j, g))
  }

  // ------------------------------------------------------------- phase A

  /** The depth of the deepest parent of these tensors, zero if none has a parent. */
  ghost predicate IsDeepest(parents: map<string, ParentInfo>, members: seq<string>, depth: nat) {
    && (forall t :: t in members && t in parents ==> parents[t].depth <= depth)
    && (depth == 0 || exists t :: t in members && t in parents && parents[t].depth == depth)
  }

  ghost predicate AnyBase(parents: map<string, ParentInfo>, members: seq<string>) {
    exists t :: t in members && t in parents
  }

  /** Does some member have a parent, and how deep is the deepest. */
  method BaseDepth(parents: map<string, ParentInfo>, members: seq<string>) returns (hasBase: bool, depth: nat)
    ensures hasBase <==> AnyBase(parents, members)
    ensures IsDeepest(parents, members, depth)
  {
    hasBase, depth := false, 0;
    var k := 0;
    while k < |members|
      invariant 0 <= k <= |members| && (hasBase <==> AnyBase(parents, members[..k]))
      invariant IsDeepest(parents, members[..k], depth)
    {
      assert members[..k + 1] == members[..k] + [members[k]];
      if members[k] in parents {
        hasBase, depth := true, Max(depth, parents[members[k]].depth);
      }
      k := k + 1;
    }
    assert members[..k] == members;
  }

  /** The artifact names the group and lists its members in order, each as the options ask. */
  ghost predicate ArtifactAsked(target: Source, topo: Topology, opts: EncodeOptions, group: string, art: Artifact) {
    && art.header.group == group && NamesOf(art.header.tensors) == MembersOf(topo, group)
    && forall i :: 0 <= i < |art.header.tensors| ==> CutRight(target, opts, art.header.tensors[i])
  }

  /** The snapshot policy was asked about the members' parents, the artifact's size and the size it stands for, and
      the dependencies are the groups that move the members' columns. */
  ghost predicate Decided(p: Prims, topo: Topology, report: Report, parents: map<string, ParentInfo>, cfg: Config,
      group: string, plan: GroupPlan) {
    && group in report && plan.members == MembersOf(topo, group)
    && plan.deps == Dependencies(topo, report, plan.members)
    && exists depth: nat :: IsDeepest(parents, plan.members, depth)
        && plan.decision == DecisionAt(p, report[group].alignable, parents, cfg, plan, depth)
  }

  ghost function DecisionAt(p: Prims, alignable: bool, parents: map<string, ParentInfo>, cfg: Config, plan: GroupPlan,
      depth: nat): Decision
  {
    var art := plan.encoded.artifact;
    Decide(SnapshotInputs(AnyBase(parents, plan.members), alignable, depth,
        8 + p.headerSize(art.header) + |art.payload|, plan.encoded.fullBytes), cfg.maxChainDepth, cfg.alpha)
  }

  /** A plan for one group: with a base its artifact encodes every member, and when it says delta each is one hop
      above its parent. */
  ghost predicate PlanGood(p: Prims, j: Job, group: string, plan: GroupPlan)
    requires JobFits(j)
  {
    && Candidate(j, group) && plan.members == MembersOf(j.topo, group) && plan.members != []
    && plan.deps == Dependencies(j.topo, j.report, plan.members)
    && (HasBase(j, group) ==> plan.encoded.fullBytes == BytesOf(j.file, plan.members))
    && (plan.decision.StoreDelta? ==>
        && ArtifactEncodes(p, plan.encoded.artifact, j.topo, group, GroupPerm(j.topo, j.report, group), j.file,
            MovedFor(j))
        && forall name :: Member(j.topo, name, group) ==>
            Comparable(j, name) && name in j.parents && j.parents[name].depth < j.maxDepth)
  }

  ghost predicate HasBase(j: Job, group: string) {
    exists name :: Member(j.topo, name, group) && name in j.parents
  }

  /** The members of a group that has a base. */
  lemma MembersBasedAre(p: Prims, base: Source, target: Source, j: Job, group: string)
    requires Ready(p, base, target, j) && Candidate(j, group) && HasBase(j, group)
    ensures MembersBased(base, target, j, MembersOf(j.topo, group))
  {
    hide Yields, Candidate, BaseYields, DeclaredAs, JobFits, Supplies, Comparable;
    var members := MembersOf(j.topo, group);
    forall i | 0 <= i < |members| ensures BaseYields(base, j, members[i]) && DeclaredAs(target, j, members[i]) {
      var name := members[i];
      MembersAreMembers(j.topo, group, name);
      assert Member(j.topo, name, group);
      InBoth(j, name);
      MemberBased(base, target, j, name);
    }
    ListedOrder(j);
  }

  lemma InBoth(j: Job, name: string)
    requires Comparable(j, name)
    ensures name in j.file && name in j.prior
  {}

  lemma ListedOrder(j: Job)
    requires JobFits(j)
    ensures Listed(j.topo)
  {}

  lemma MemberBased(base: Source, target: Source, j: Job, name: string)
    requires Comparable(j, name) && name in j.topo.tensors && Answers(target, name, j.file[name])
    requires j.prior[name].Valid() ==> Supplies(base, name, j.prior[name])
    ensures BaseYields(base, j, name) && DeclaredAs(target, j, name)
  {
    hide Yields;
    SameSize(j, name);
  }

  /** With the adapters in place the encoder has all it needs. */
  lemma EncoderReady(p: Prims, base: Source, src: Source, target: Source, j: Job, group: string)
    requires Ready(p, base, target, j) && Candidate(j, group)
    requires forall i :: 0 <= i < |MembersOf(j.topo, group)| ==> MovedYields(src, j, MembersOf(j.topo, group)[i])
    ensures GroupSound(p, src, target, j.topo, group, GroupPerm(j.topo, j.report, group), j.file, MovedFor(j))
  {
    hide Yields, RowBinding, MovedFor;
    var perm, members := GroupPerm(j.topo, j.report, group), MembersOf(j.topo, group);
    forall name | Member(j.topo, name, group)
      ensures MemberSound(src, target, j.topo, group, perm, j.file, MovedFor(j), name)
    {
      MembersAreMembers(j.topo, group, name);
      var i :| 0 <= i < |members| && members[i] == name;
      assert MovedYields(src, j, members[i]);
      MemberReady(j, group, name);
    }
  }

  lemma MemberReady(j: Job, group: string, name: string)
    requires JobFits(j) && Member(j.topo, name, group) && Candidate(j, group) && Comparable(j, name)
    ensures name in MovedFor(j) && |MovedFor(j)[name]| == |j.file[name].bytes|
    ensures |j.file[name].shape| >= 1
        && j.file[name].shape[0] == |GroupPerm(j.topo, j.report, group)| * RowBinding(j.topo.tensors[name],
        group).value.block
  {
    SameSize(j, name);
    var axes := j.topo.tensors[name];
    var b := RowBinding(axes, group).value;
    var i :| 0 <= i < |axes| && axes[i] == b;
    assert AxesFit(j.topo, axes, j.file[name].shape);
    assert AxisFits(j.topo, axes[i], j.file[name].shape);
  }

  /** Adapters, then one artifact for the group. */
  method EncodeFor(p: Prims, base: Source, target: Source, topo: Topology, report: Report, opts: EncodeOptions,
      group: string, members: seq<string>, ghost j: Job)
    returns (r: Result<Encoded>)
    requires Listed(topo) && group in topo.groups && group in report && members == MembersOf(topo, group)
    requires forall i :: 0 <= i < |report[group].permutation| ==> report[group].permutation[i] >= 0
    ensures (Ready(p, base, target, j) && Candidate(j, group) && j.topo == topo && j.report == report
        && HasBase(j, group)) ==>
      r.Ok? && ArtifactEncodes(p, r.value.artifact, j.topo, group, GroupPerm(j.topo, j.report, group), j.file,
          MovedFor(j)) && r.value.fullBytes == BytesOf(j.file, members)
    ensures BlindMember(base, topo, group) && !opts.residual.Plain? ==> r.Err?
    ensures r.Ok? ==> ArtifactAsked(target, topo, opts, group, r.value.artifact)
  {
    ghost var based := Ready(p, base, target, j) && Candidate(j, group) && j.topo == topo && j.report == report
        && HasBase(j, group);
    forall i | 0 <= i < |members| ensures members[i] in topo.tensors { MembersAreMembers(topo, group, members[i]); }
    if based {
      MembersBasedAre(p, base, target, j, group);
    }
    var src := AdaptBase(base, target, topo, report, members, j);
    if src.Err? {
      return Err(src.error);
    }
    var perm := Materialize(report[group], topo.groups[group].size);
    if based {
      EncoderReady(p, base, src.value, target, j, group);
    }
    BlindStays(base, src.value, topo, group);
    hide GroupSound, ArtifactEncodes, Ready, MovedYields, JobFits, BlindMember, CutRight, NamesOf, MembersBefore,
        BytesOf, HasBase;
    r := EncodeGroup(p, src.value, target, topo, group, perm, opts, j.file, if based then MovedFor(j) else map[]);
  }

  lemma BlindStays(base: Source, src: Source, topo: Topology, group: string)
    requires StillBlind(base, src)
    ensures BlindMember(base, topo, group) ==> BlindMember(src, topo, group)
  {
    hide Blind, Member;
  }

  /** Phase A for one group with evidence. */
  method PlanGroup(p: Prims, base: Source, target: Source, topo: Topology, report: Report,
      parents: map<string, ParentInfo>, cfg: Config, opts: EncodeOptions, group: string, ghost j: Job)
    returns (r: Result<GroupPlan>)
    requires Listed(topo) && group in topo.groups && group in report && MembersOf(topo, group) != []
    requires forall i :: 0 <= i < |report[group].permutation| ==> report[group].permutation[i] >= 0
    ensures r.Ok? ==> Decided(p, topo, report, parents, cfg, group, r.value)
    ensures r.Ok? ==> ArtifactAsked(target, topo, opts, group, r.value.encoded.artifact)
    ensures (Ready(p, base, target, j) && Candidate(j, group) && j.topo == topo && j.report == report
        && j.parents == parents && j.maxDepth == cfg.maxChainDepth) ==>
      (HasBase(j, group) ==> r.Ok?) && (r.Ok? ==> PlanGood(p, j, group, r.value))
    ensures BlindMember(base, topo, group) && !opts.residual.Plain? ==> r.Err?
  {
    hide ArtifactEncodes, Ready, JobFits, MembersOf, HasBase, Listed, GroupPerm, MovedFor, PlanGood, Candidate,
        BlindMember, ArtifactAsked, Dependencies, BytesOf;
    var members := MembersOf(topo, group);
    var encoded := EncodeFor(p, base, target, topo, report, opts, group, members, j);
    if encoded.Err? {
      return Err(encoded.error);
    }
    var hasBase, depth := BaseDepth(parents, members);
    var art := encoded.value.artifact;
    var x := SnapshotInputs(hasBase, report[group].alignable, depth, 8 + p.headerSize(art.header) + |art.payload|,
        encoded.value.fullBytes);
    var plan := GroupPlan(members, encoded.value, Decide(x, cfg.maxChainDepth, cfg.alpha),
        Dependencies(topo, report, members));
    if Ready(p, base, target, j) && Candidate(j, group) && j.topo == topo && j.report == report && j.parents == parents
        && j.maxDepth == cfg.maxChainDepth {
      DecisionIsSafe(p, base, target, j, group, plan, hasBase, depth);
    }
    assert plan.decision == DecisionAt(p, report[group].alignable, parents, cfg, plan, depth);
    return Ok(plan);
  }

  lemma ReadyAllOrNone(p: Prims, base: Source, target: Source, j: Job, group: string)
    requires Ready(p, base, target, j) && Candidate(j, group)
    ensures JobFits(j) && AllOrNone(j, group)
  {
    hide JobFits, Supplies, Answers, Candidate;
  }

  lemma DecisionIsSafe(p: Prims, base: Source, target: Source, j: Job, group: string, plan: GroupPlan, hasBase: bool,
      depth: nat)
    requires Ready(p, base, target, j) && Candidate(j, group)
    requires plan.members == MembersOf(j.topo, group) && plan.members != []
        && plan.deps == Dependencies(j.topo, j.report, plan.members)
    requires hasBase <==> AnyBase(j.parents, plan.members)
    requires forall t :: t in plan.members && t in j.parents ==> j.parents[t].depth <= depth
    requires plan.decision.StoreDelta? ==> hasBase && depth < j.maxDepth
    requires HasBase(j, group) ==>
        ArtifactEncodes(p, plan.encoded.artifact, j.topo, group, GroupPerm(j.topo, j.report, group), j.file,
        MovedFor(j)) && plan.encoded.fullBytes == BytesOf(j.file, plan.members)
    ensures PlanGood(p, j, group, plan)
  {
    ReadyAllOrNone(p, base, target, j, group);
    hide JobFits, ArtifactEncodes, Dependencies, Candidate, Ready, MembersOf, AllOrNone, HasBase, Comparable, BytesOf;
    if plan.decision.StoreDelta? {
      AllBelow(j, group, plan.members, depth);
    }
  }

  /** With one member in the parent, all of them are, each within the depth of the deepest. */
  lemma AllBelow(j: Job, group: string, members: seq<string>, depth: nat)
    requires AllOrNone(j, group) && members == MembersOf(j.topo, group)
    requires AnyBase(j.parents, members)
    requires forall t :: t in members && t in j.parents ==> j.parents[t].depth <= depth
    ensures HasBase(j, group)
    ensures forall name :: Member(j.topo, name, group) ==>
      Comparable(j, name) && name in j.parents && j.parents[name].depth <= depth
  {
    hide Comparable, MembersOf, Member;
    var t :| t in members && t in j.parents;
    MembersAreMembers(j.topo, group, t);
    forall name | Member(j.topo, name, group)
      ensures Comparable(j, name) && name in j.parents && j.parents[name].depth <= depth
    {
      MembersAreMembers(j.topo, group, name);
    }
  }

  // ------------------------------------------------------------- phases A and B

  ghost predicate PlansGood(p: Prims, j: Job, plans: map<string, GroupPlan>, names: seq<string>)
    requires JobFits(j)
  {
    && Distinct(names) && (forall g :: g in names <==> g in plans)
    && forall g :: g in plans ==> PlanGood(p, j, g, plans[g])
  }

  /** The visited groups that were worth trying have a plan, and no others. */
  ghost predicate Tried(topo: Topology, report: Report, visited: seq<string>, plans: map<string, GroupPlan>) {
    forall g :: g in plans <==> g in visited && Eligible(topo, report, g)
  }

  /** Every plan follows the policy, over an artifact that is as the options ask. */
  ghost predicate AllDecided(p: Prims, target: Source, topo: Topology, report: Report,
      parents: map<string, ParentInfo>, cfg: Config, opts: EncodeOptions, plans: map<string, GroupPlan>) {
    forall g :: g in plans ==>
      && Decided(p, topo, report, parents, cfg, g, plans[g])
      && ArtifactAsked(target, topo, opts, g, plans[g].encoded.artifact)
  }

  ghost predicate ReportIsNatural(report: Report) {
    forall g, i :: g in report && 0 <= i < |report[g].permutation| ==> report[g].permutation[i] >= 0
  }

  ghost predicate SameJob(j: Job, topo: Topology, report: Report, parents: map<string, ParentInfo>, cfg: Config) {
    j.topo == topo && j.report == report && j.parents == parents && j.maxDepth == cfg.maxChainDepth
  }

  ghost predicate AllBased(j: Job) {
    forall g :: Candidate(j, g) && MembersOf(j.topo, g) != [] ==> HasBase(j, g)
  }

  lemma AddPlan(p: Prims, j: Job, plans: map<string, GroupPlan>, names: seq<string>, g: string, plan: GroupPlan)
    requires JobFits(j) && PlansGood(p, j, plans, names) && g !in names && PlanGood(p, j, g, plan)
    ensures PlansGood(p, j, plans[g := plan], names + [g])
  {
    hide JobFits, PlanGood;
  }

  lemma TryMore(topo: Topology, report: Report, seen: seq<string>, plans: map<string, GroupPlan>, g: string,
      plan: GroupPlan)
    requires Tried(topo, report, seen, plans) && Eligible(topo, report, g)
    ensures Tried(topo, report, seen + [g], plans[g := plan])
  {
    hide Eligible;
  }

  lemma SkipOne(topo: Topology, report: Report, seen: seq<string>, plans: map<string, GroupPlan>, g: string)
    requires Tried(topo, report, seen, plans) && !Eligible(topo, report, g)
    ensures Tried(topo, report, seen + [g], plans)
  {
    hide Eligible;
  }

  /** A group with evidence has a tensor that cannot be read from the base. */
  ghost predicate SomeBlind(base: Source, topo: Topology, report: Report, groups: seq<string>) {
    exists g :: g in groups && !NoEvidence(topo, report, g) && BlindMember(base, topo, g)
  }

  lemma NoneBlind(base: Source, topo: Topology, report: Report)
    ensures !SomeBlind(base, topo, report, [])
  {}

  lemma NextSeen(base: Source, topo: Topology, report: Report, groups: seq<string>, g: string)
    requires NoEvidence(topo, report, g) || MembersOf(topo, g) == [] || !BlindMember(base, topo, g)
    ensures !SomeBlind(base, topo, report, groups) ==> !SomeBlind(base, topo, report, groups + [g])
    ensures MembersOf(topo, g) == [] ==> !BlindMember(base, topo, g)
  {
    hide NoEvidence, Member, Blind, MembersOf;
    if MembersOf(topo, g) == [] {
      forall name ensures !Member(topo, name, g) {
        MembersAreMembers(topo, g, name);
      }
    }
  }

  /** Phase A over all groups, in the hash map's order. */
  method PlanGroups(p: Prims, base: Source, target: Source, topo: Topology, report: Report,
      parents: map<string, ParentInfo>, cfg: Config, opts: EncodeOptions, groups: seq<string>, ghost j: Job)
    returns (r: Result<(map<string, GroupPlan>, seq<string>)>)
    requires Listed(topo) && ReportIsNatural(report) && Distinct(groups) && forall g :: g in groups ==> g in topo.groups
    ensures r.Ok? ==> forall g :: g in r.value.1 <==> g in r.value.0
    ensures r.Ok? ==> Tried(topo, report, groups, r.value.0)
    ensures r.Ok? ==> AllDecided(p, target, topo, report, parents, cfg, opts, r.value.0)
    ensures (Ready(p, base, target, j) && SameJob(j, topo, report, parents, cfg)) ==>
      (AllBased(j) ==> r.Ok?) && (r.Ok? ==> PlansGood(p, j, r.value.0, r.value.1))
    ensures SomeBlind(base, topo, report, groups) && !opts.residual.Plain? ==> r.Err?
  {
    hide *;
    ghost var good := Ready(p, base, target, j) && SameJob(j, topo, report, parents, cfg);
    var plans: map<string, GroupPlan>, names: seq<string>, k := map[], [], 0;
    NoPlans(p, base, target, topo, report, parents, cfg, opts, j, groups);
    while k < |groups|
      invariant 0 <= k <= |groups|
      invariant Visited(p, base, target, topo, report, parents, cfg, opts, j, good, groups[..k], plans, names)
    {
      var g := groups[k];
      GroupFacts(topo, report, groups, g, k);
      if !NoEvidence(topo, report, g) && MembersOf(topo, g) != [] {
        if good {
          BasedGroup(p, base, target, topo, report, parents, cfg, j, g);
        }
        var plan := PlanGroup(p, base, target, topo, report, parents, cfg, opts, g, j);
        if plan.Err? {
          return Err(plan.error);
        }
        VisitPlanned(p, base, target, topo, report, parents, cfg, opts, j, good, groups[..k], plans, names, g,
                     plan.value);
        plans, names := plans[g := plan.value], names + [g];
      } else {
        VisitSkipped(p, base, target, topo, report, parents, cfg, opts, j, good, groups[..k], plans, names, g);
      }
      k := k + 1;
    }
    AllVisited(p, base, target, topo, report, parents, cfg, opts, j, good, groups, plans, names);
    return Ok((plans, names));
  }

  /** What is known once these groups were visited. */
  ghost predicate Visited(p: Prims, base: Source, target: Source, topo: Topology, report: Report,
      parents: map<string, ParentInfo>, cfg: Config, opts: EncodeOptions, j: Job, good: bool, seen: seq<string>,
      plans: map<string, GroupPlan>, names: seq<string>)
  {
    && (forall g :: g in names ==> g in seen) && (forall g :: g in names <==> g in plans)
    && Tried(topo, report, seen, plans) && AllDecided(p, target, topo, report, parents, cfg, opts, plans)
    && (good ==> JobFits(j) && PlansGood(p, j, plans, names))
    && (!opts.residual.Plain? ==> !SomeBlind(base, topo, report, seen))
  }

  lemma NoPlans(p: Prims, base: Source, target: Source, topo: Topology, report: Report,
      parents: map<string, ParentInfo>, cfg: Config, opts: EncodeOptions, j: Job, groups: seq<string>)
    ensures Visited(p, base, target, topo, report, parents, cfg, opts, j,
                    Ready(p, base, target, j) && SameJob(j, topo, report, parents, cfg), groups[..0], map[], [])
  {
    hide JobFits, Decided, PlanGood, Supplies, Answers, Candidate, Eligible;
    NoneBlind(base, topo, report);
    assert groups[..0] == [];
  }

  lemma GroupFacts(topo: Topology, report: Report, groups: seq<string>, g: string, k: nat)
    requires Listed(topo) && ReportIsNatural(report) && Distinct(groups)
    requires forall x :: x in groups ==> x in topo.groups
    requires k < |groups| && g == groups[k]
    ensures g in groups && g in topo.groups && g !in groups[..k] && groups[..k + 1] == groups[..k] + [g]
    ensures Eligible(topo, report, g) <==> !NoEvidence(topo, report, g) && MembersOf(topo, g) != []
    ensures !NoEvidence(topo, report, g) ==>
      g in report && forall i :: 0 <= i < |report[g].permutation| ==> report[g].permutation[i] >= 0
  {
    EligibleIs(topo, report, g);
    hide Listed, Eligible, MembersOf;
  }

  lemma BasedGroup(p: Prims, base: Source, target: Source, topo: Topology, report: Report,
      parents: map<string, ParentInfo>, cfg: Config, j: Job, g: string)
    requires SameJob(j, topo, report, parents, cfg) && g in report && g in topo.groups && !NoEvidence(topo, report, g)
    requires MembersOf(topo, g) != []
    ensures Candidate(j, g) && (AllBased(j) ==> HasBase(j, g))
    ensures j.topo == topo && j.report == report && j.parents == parents && j.maxDepth == cfg.maxChainDepth
  {
    hide HasBase, MembersOf;
  }

  lemma VisitPlanned(p: Prims, base: Source, target: Source, topo: Topology, report: Report,
      parents: map<string, ParentInfo>, cfg: Config, opts: EncodeOptions, j: Job, good: bool, seen: seq<string>,
      plans: map<string, GroupPlan>, names: seq<string>, g: string, plan: GroupPlan)
    requires Visited(p, base, target, topo, report, parents, cfg, opts, j, good, seen, plans, names) && g !in seen
    requires good ==> JobFits(j) ==> PlanGood(p, j, g, plan)
    requires Eligible(topo, report, g) && Decided(p, topo, report, parents, cfg, g, plan)
        && ArtifactAsked(target, topo, opts, g, plan.encoded.artifact)
    requires !opts.residual.Plain? ==> !BlindMember(base, topo, g)
    ensures Visited(p, base, target, topo, report, parents, cfg, opts, j, good, seen + [g], plans[g := plan],
        names + [g])
  {
    hide JobFits, PlanGood, Decided, PlansGood, ArtifactAsked, Eligible, SomeBlind, BlindMember;
    if good {
      AddPlan(p, j, plans, names, g, plan);
    }
    TryMore(topo, report, seen, plans, g, plan);
    if !opts.residual.Plain? {
      NextSeen(base, topo, report, seen, g);
    }
  }

  lemma VisitSkipped(p: Prims, base: Source, target: Source, topo: Topology, report: Report,
      parents: map<string, ParentInfo>, cfg: Config, opts: EncodeOptions, j: Job, good: bool, seen: seq<string>,
      plans: map<string, GroupPlan>, names: seq<string>, g: string)
    requires Visited(p, base, target, topo, report, parents, cfg, opts, j, good, seen, plans, names)
    requires NoEvidence(topo, report, g) || MembersOf(topo, g) == []
    requires !Eligible(topo, report, g)
    ensures Visited(p, base, target, topo, report, parents, cfg, opts, j, good, seen + [g], plans, names)
  {
    hide JobFits, PlanGood, Decided, PlansGood, ArtifactAsked, Eligible, SomeBlind, BlindMember, MembersOf;
    SkipOne(topo, report, seen, plans, g);
    NextSeen(base, topo, report, seen, g);
  }

  lemma AllVisited(p: Prims, base: Source, target: Source, topo: Topology, report: Report,
      parents: map<string, ParentInfo>, cfg: Config, opts: EncodeOptions, j: Job, good: bool, groups: seq<string>,
      plans: map<string, GroupPlan>, names: seq<string>)
    requires Visited(p, base, target, topo, report, parents, cfg, opts, j, good, groups[..|groups|], plans, names)
    ensures forall g :: g in names <==> g in plans
    ensures Tried(topo, report, groups, plans) && AllDecided(p, target, topo, report, parents, cfg, opts, plans)
    ensures good ==> JobFits(j) && PlansGood(p, j, plans, names)
    ensures !opts.residual.Plain? ==> !SomeBlind(base, topo, report, groups)
  {
    hide JobFits, PlanGood, Decided, PlansGood, ArtifactAsked, Eligible, SomeBlind;
    assert groups[..|groups|] == groups;
  }

  function DepsOf(plans: map<string, GroupPlan>): map<string, seq<string>> {
    map g | g in plans :: plans[g].deps
  }

  function DecidedDelta(plans: map<string, GroupPlan>): set<string> {
    set g | g in plans && plans[g].decision.StoreDelta?
  }

  /** After the downgrade, a delta's moved columns belong to groups that are deltas too. */
  lemma DowngradeRecovers(p: Prims, j: Job, plans: map<string, GroupPlan>, names: seq<string>, delta: set<string>,
      g: string, name: string)
    requires JobFits(j) && PlansGood(p, j, plans, names)
    requires forall h :: h in j.topo.groups && Candidate(j, h) && MembersOf(j.topo, h) != [] ==> h in plans
    requires IsGreatest(names, DepsOf(plans), DecidedDelta(plans), delta) && g in delta && Member(j.topo, name, g)
    ensures ColumnsRecoverable(j, delta, name)
  {
    hide MembersOf;
    var s := SecondaryAxis(j.topo.tensors[name]);
    if s.Some? && !EffectivelyIdentity(j.topo, j.report, s.value.group) {
      var h, axes := s.value.group, j.topo.tensors[name];
      assert PlanGood(p, j, g, plans[g]);
      MembersAreMembers(j.topo, g, name);
      var i := SecondaryIsBound(axes);
      assert axes[i].group in plans[g].deps;
      SecondaryIsCandidate(j, name);
      assert h in DepsOf(plans)[g] && h in names;
    }
  }

  lemma SecondaryIsCandidate(j: Job, name: string)
    requires JobFits(j) && name in j.topo.tensors && SecondaryAxis(j.topo.tensors[name]).Some?
    requires !EffectivelyIdentity(j.topo, j.report, SecondaryAxis(j.topo.tensors[name]).value.group)
    ensures var h := SecondaryAxis(j.topo.tensors[name]).value.group;
      h in j.topo.groups && Candidate(j, h) && MembersOf(j.topo, h) != []
  {
    var axes := j.topo.tensors[name];
    var h := SecondaryAxis(axes).value.group;
    assert AxesFit(j.topo, axes, j.file[name].shape);
    var i := SecondaryIsBound(axes);
    assert AxisFits(j.topo, axes[i], j.file[name].shape);
    var t :| t in j.topo.tensors && Owns(j.topo.tensors[t], h);
    MembersAreMembers(j.topo, h, t);
    assert t in MembersOf(j.topo, h);
  }
}
