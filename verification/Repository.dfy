/** A repository under any sequence of commits. */
module Repository {
  import opened Common
  import opened Records
  import opened Reader
  import opened ReadBack
  import opened Sources
  import opened Encoder
  import opened GroupEncoder
  import opened PlanSpec
  import opened Planned
  import opened Depth
  import opened Planner
  import opened PlanWrite
  import opened History
  import opened Manifests
  import opened StFiles

  /** Every delta of this commit is one hop above an entry of an earlier one. */
  ghost predicate Rooted(p: Prims, store: Store, commit: Oid, earlier: seq<Oid>) {
    && ManifestFor(p, store, commit).Ok?
    && var m := ManifestFor(p, store, commit).value;
       forall name :: name in m.groups && m.groups[name].Delta? ==>
         m.groups[name].base in earlier && EntryDepthMatches(p, store, m.groups[name])
  }

  lemma RootedGrows(p: Prims, a: Store, b: Store, commit: Oid, earlier: seq<Oid>)
    requires Grows(a, b) && Rooted(p, a, commit, earlier)
    ensures Rooted(p, b, commit, earlier)
  {
    ManifestGrows(p, a, b, commit);
    hide ManifestFor, Grows;
    var m := ManifestFor(p, a, commit).value;
    forall name | name in m.groups && m.groups[name].Delta? ensures EntryDepthMatches(p, b, m.groups[name]) {
      ManifestGrows(p, a, b, m.groups[name].base);
    }
  }

  lemma NewRooted(p: Prims, store: Store, topo: Topology, j: Job, parent: Option<Oid>, commit: Oid,
      delta: set<string>, arts: map<string, Artifact>, earlier: seq<Oid>)
    requires HasGround(p, store, topo, j, parent) && ManifestFor(p, store, commit).Ok?
        && (parent.Some? ==> parent.value in earlier)
    requires IsPlanned(p, store, j, ManifestFor(p, store, commit).value.groups, delta, arts)
    ensures Rooted(p, store, commit, earlier)
  {
    hide ManifestFor, JobFits, Readable, SelfContained, DeltaGroup;
    var m := ManifestFor(p, store, commit).value;
    forall name | name in m.groups && m.groups[name].Delta?
      ensures m.groups[name].base in earlier && EntryDepthMatches(p, store, m.groups[name])
    {
      FullOutside(p, store, j, m.groups, delta, arts);
      var g :| g in delta && Member(j.topo, name, g);
      assert GroupPlanned(p, store, j, m.groups, delta, g, arts[g]);
      assert DeltaEntry(p, j, m.groups, arts[g], name);
    }
  }

  lemma FullOutside(p: Prims, store: Store, j: Job, entries: map<string, GroupEntry>, delta: set<string>,
      arts: map<string, Artifact>)
    requires IsPlanned(p, store, j, entries, delta, arts)
    ensures forall name :: name in entries && !InDelta(j, delta, name) ==> entries[name].Full?
  {
    forall name | name in entries && !InDelta(j, delta, name) ensures entries[name].Full? {
      assert FullEntry(p, store, j, entries, name);
    }
  }

  function LayoutOf(entries: seq<StEntry>): (r: seq<LayoutEntry>)
    ensures |r| == |entries| && forall i :: 0 <= i < |entries| ==>
        r[i] == LayoutEntry(entries[i].tensor, entries[i].nbytes)
  {
    seq(|entries|, i requires 0 <= i < |entries| => LayoutEntry(entries[i].tensor, entries[i].nbytes))
  }

  function ParentsOf(parent: Oid, m: Manifest): map<string, ParentInfo> {
    map name | name in m.groups :: ParentInfo(parent, m.groups[name].ChainDepth())
  }

  /** What a commit call is given: the opened checkpoint, its topology and the match report against the parent. */
  datatype Request = Request(disk: seq<Byte>, extent: nat, entries: seq<StEntry>, file: File, topo: Topology,
      groups: seq<string>, report: Report, opts: EncodeOptions, align: bool, topologyBytes: seq<Byte>, stamp: nat)

  ghost function JobOn(req: Request, prior: File, parents: map<string, ParentInfo>, maxDepth: nat): Job {
    Job(req.topo, req.report, req.file, prior, parents, maxDepth)
  }

  /** The checkpoint, its topology and the match report belong together. */
  ghost predicate Consistent(p: Prims, topo: Topology, req: Request) {
    && SameTopology(topo, req.topo)
    && TopologyFits(req.topo, req.file) && ReportFits(req.topo, req.report) && ReportIsNatural(req.report)
    && Distinct(req.groups) && (forall g :: g in req.groups <==> g in req.topo.groups)
    && AllShaped(req.file) && Opened(req.disk, req.extent, req.entries, req.file)
    && Parses(p, topo, req.disk[..req.extent], req.topologyBytes, req.file)
  }

  ghost function InputIn(req: Request): Input { Input(req.disk, req.topologyBytes, req.stamp) }

  ghost predicate HasEvidence(req: Request, g: string) {
    g in req.topo.groups && g in req.report && !NoEvidence(req.topo, req.report, g)
  }

  /** Every tensor of the group is in the parent, unchanged in shape and type. */
  ghost predicate WholeIn(req: Request, prior: File, g: string) {
    forall name :: Member(req.topo, name, g) ==>
      name in req.file && name in prior && prior[name].shape == req.file[name].shape
          && prior[name].dtype == req.file[name].dtype
  }

  ghost predicate AbsentFrom(req: Request, prior: File, g: string) {
    forall name :: Member(req.topo, name, g) ==> name !in prior
  }

  /** A group with evidence is in the parent as a whole, or not at all. */
  ghost predicate Compatible(req: Request, prior: File) {
    forall g :: HasEvidence(req, g) ==> WholeIn(req, prior, g) || AbsentFrom(req, prior, g)
  }

  /** Every group with evidence has its base in the parent. */
  ghost predicate AllInParent(req: Request, prior: File) {
    forall g :: HasEvidence(req, g) ==> WholeIn(req, prior, g)
  }

  lemma CandidateWhole(req: Request, prior: File, tip: Oid, m: Manifest, j: Job, g: string)
    requires j == JobOn(req, prior, ParentsOf(tip, m), j.maxDepth) && Compatible(req, prior) && Candidate(j, g)
    requires (forall name :: name in m.groups <==> name in prior) && AllShaped(prior)
        && TopologyFits(req.topo, req.file)
    ensures AllOrNone(j, g)
    ensures AllInParent(req, prior) && MembersOf(j.topo, g) != [] ==> HasBase(j, g)
  {
    hide NoEvidence, MembersOf, Candidate, Comparable;
    EvidenceIs(req, j, g);
    forall name | Member(j.topo, name, g) && WholeIn(req, prior, g) ensures Comparable(j, name) {
      WholeIsComparable(req, prior, j, g, name);
    }
    hide Member, TopologyFits, AllShaped;
    if AllInParent(req, prior) && MembersOf(j.topo, g) != [] {
      var t := MembersOf(j.topo, g)[0];
      MembersAreMembers(j.topo, g, t);
      assert Member(j.topo, t, g) && t in j.parents;
    }
  }

  lemma WholeIsComparable(req: Request, prior: File, j: Job, g: string, name: string)
    requires j.topo == req.topo && j.file == req.file && j.prior == prior && WholeIn(req, prior, g)
        && Member(req.topo, name, g)
    requires AllShaped(prior) && TopologyFits(req.topo, req.file)
    ensures Comparable(j, name)
  {
    assert req.file[name].Valid();
  }

  lemma EvidenceIs(req: Request, j: Job, g: string)
    requires j.topo == req.topo && j.report == req.report && Candidate(j, g)
    ensures HasEvidence(req, g)
  {}

  lemma OpenedLaysOut(disk: seq<Byte>, extent: nat, entries: seq<StEntry>, file: File)
    requires Opened(disk, extent, entries, file)
    ensures LaysOut(LayoutOf(entries), file)
  {
    var layout := LayoutOf(entries);
    forall i | 0 <= i < |layout|
      ensures layout[i].tensor in file && layout[i].nbytes == |file[layout[i].tensor].bytes|
    {
      EntryOf(disk, extent, entries, file, i);
    }
    forall t | t in file ensures exists i :: 0 <= i < |layout| && layout[i].tensor == t {
      var i :| 0 <= i < |entries| && entries[i].tensor == t;
      assert layout[i].tensor == t;
    }
  }

  // ------------------------------------------------------------- entries

  /** What both ways of storing the tensors end with. */
  ghost predicate EntriesReady(p: Prims, store: Store, topo: Topology, j: Job, parent: Option<Oid>,
      entries: map<string, GroupEntry>, delta: set<string>, arts: map<string, Artifact>) {
    IsPlanned(p, store, j, entries, delta, arts) && HasGround(p, store, topo, j, parent)
  }

  lemma TipSupplies(p: Prims, store: Store, topo: Topology, maxDepth: nat, tip: Oid, prior: File, m: Manifest,
      t: Topology, name: string)
    requires Represents(p, store, topo, maxDepth, tip, prior) && ManifestFor(p, store, tip) == Ok(m)
        && SameTopology(topo, t) && name in prior && prior[name].Valid()
    ensures Supplies(CommitSource(p, Ctx(store, m, Some(t), maxDepth), MetasOf(prior), maxDepth), name, prior[name])
  {
    hide Serves, SelfContained, ManifestFor, SameTopology;
    assert Readable(p, store, topo, maxDepth, m, name, prior[name].bytes);
    CommitSupplies(p, Ctx(store, m, Some(t), maxDepth), MetasOf(prior), maxDepth, name, prior[name]);
  }

  lemma TipReady(p: Prims, store: Store, topo: Topology, cfg: Config, req: Request, tip: Oid, prior: File,
      m: Manifest, t: Topology, base: Source, j: Job)
    requires Lawful(p) && Consistent(p, topo, req) && Compatible(req, prior) && ManifestFor(p, store, tip) == Ok(m)
    requires Represents(p, store, topo, cfg.maxChainDepth, tip, prior)
    requires SameTopology(topo, t)
    requires base == CommitSource(p, Ctx(store, m, Some(t), cfg.maxChainDepth), MetasOf(prior), cfg.maxChainDepth)
    requires j == JobOn(req, prior, ParentsOf(tip, m), cfg.maxChainDepth)
    ensures Ready(p, base, FileSource(req.file), j) && HasGround(p, store, topo, j, Some(tip))
    ensures AllInParent(req, prior) ==> AllBased(j)
  {
    hide Lawful, Supplies, Answers, TopologyFits, ReportFits, Readable, SelfContained, ManifestFor, SameTopology,
        Candidate, Opened, AllShaped, AllOrNone, AllInParent, Compatible, HasBase, MembersOf;
    forall name | name in j.file
        ensures Answers(FileSource(req.file), name, j.file[name]) { FileAnswers(req.file, name); }
    forall name | name in j.parents && prior[name].Valid() ensures Supplies(base, name, prior[name]) {
      TipSupplies(p, store, topo, cfg.maxChainDepth, tip, prior, m, t, name);
    }
    forall g | Candidate(j, g)
      ensures AllOrNone(j, g) && (AllInParent(req, prior) && MembersOf(j.topo, g) != [] ==> HasBase(j, g))
    {
      CandidateWhole(req, prior, tip, m, j, g);
    }
  }

  /** A group with evidence that the parent does not have cannot be read from it. */
  lemma AbsentIsBlind(p: Prims, metas: map<string, Meta>, ctx: Ctx, hops: nat, topo: Topology, req: Request,
      prior: File)
    requires Consistent(p, topo, req) && Compatible(req, prior) && metas == MetasOf(prior) && !AllInParent(req, prior)
    ensures SomeBlind(CommitSource(p, ctx, metas, hops), req.topo, req.report, req.groups)
  {
    hide Opened, TopologyFits, ReportFits, SameTopology, NoEvidence, Parses;
    var g :| HasEvidence(req, g) && !WholeIn(req, prior, g);
    assert AbsentFrom(req, prior, g);
    var name :| Member(req.topo, name, g) && name !in prior;
    assert Blind(CommitSource(p, ctx, metas, hops), name);
    assert g in req.groups && BlindMember(CommitSource(p, ctx, metas, hops), req.topo, g);
  }

  /** The parts of a consistent request that the methods pass on. */
  lemma ConsistentParts(p: Prims, topo: Topology, req: Request)
    requires Consistent(p, topo, req)
    ensures Listed(req.topo) && ReportIsNatural(req.report) && Distinct(req.groups)
    ensures forall g :: g in req.groups <==> g in req.topo.groups
    ensures AllShaped(req.file) && Opened(req.disk, req.extent, req.entries, req.file) && req.extent <= |req.disk|
    ensures Parses(p, topo, req.disk[..req.extent], req.topologyBytes, req.file)
  {
    hide TopologyFits, ReportFits, Contiguous, Holds, ReportIsNatural, AllShaped, Parses;
  }

  lemma JobIs(req: Request, prior: File, parents: map<string, ParentInfo>, cfg: Config)
    ensures SameJob(JobOn(req, prior, parents, cfg.maxChainDepth), req.topo, req.report, parents, cfg)
    ensures JobOn(req, prior, parents, cfg.maxChainDepth).file == req.file
    ensures JobOn(req, prior, parents, cfg.maxChainDepth).maxDepth == cfg.maxChainDepth
  {}

  lemma EntriesAreReady(p: Prims, store: Store, topo: Topology, j: Job, parent: Option<Oid>,
      entries: map<string, GroupEntry>, delta: set<string>, arts: map<string, Artifact>)
    requires IsPlanned(p, store, j, entries, delta, arts) && HasGround(p, store, topo, j, parent)
    ensures EntriesReady(p, store, topo, j, parent, entries, delta, arts)
  {
    hide IsPlanned, HasGround;
  }

  /** Storage decided against the branch tip. */
  method PlanOnTip(p: Prims, blocks: Blocks, ghost topo: Topology, cfg: Config, req: Request, tip: Oid,
      ghost prior: File, ghost input: Input)
    returns (r: Result<map<string, GroupEntry>>, ghost j: Job, ghost delta: set<string>,
        ghost arts: map<string, Artifact>)
    requires Lawful(p) && Addressed(p, blocks.objects) && Consistent(p, topo, req) && Compatible(req, prior)
    requires Represents(p, blocks.objects, topo, cfg.maxChainDepth, tip, prior)
    requires LaidDown(p, blocks.objects, topo, tip, input, prior)
    modifies blocks
    ensures Addressed(p, blocks.objects) && Grows(old(blocks.objects), blocks.objects) && j.file == req.file
        && j.maxDepth == cfg.maxChainDepth
    ensures r.Ok? ==> EntriesReady(p, blocks.objects, topo, j, Some(tip), r.value, delta, arts)
    ensures r.Ok? ==> OnPolicy(p, blocks.objects, cfg, req, tip, prior, r.value)
    ensures AllInParent(req, prior) && NoScalars(req.file) ==> r.Ok?
    ensures r.Ok? ==> NoScalars(req.file) && (req.opts.residual.Plain? || AllInParent(req, prior))
  {
    hide *;
    j := JobOn(req, prior, map[], cfg.maxChainDepth);
    delta, arts := {}, map[];
    JobIs(req, prior, map[], cfg);
    ConsistentParts(p, topo, req);
    RepresentsManifest(p, blocks.objects, topo, cfg.maxChainDepth, tip, prior);
    ghost var start := blocks.objects;
    var m := ManifestFor(p, blocks.objects, tip).value;
    var header := GetHeader(p, blocks.objects, m.headerBlock);
    if header.Err? {
      r := Err(header.error);
      TopologyLoads(p, blocks.objects, topo, tip, input, prior);
      return;
    }
    var metas := p.shapes(header.value);
    if metas.None? {
      r := Err(NotSafetensors);
      TopologyLoads(p, blocks.objects, topo, tip, input, prior);
      return;
    }
    TopologyLoads(p, blocks.objects, topo, tip, input, prior);
    var ctx := Ctx(blocks.objects, m, TopologyFor(p, blocks.objects, tip), cfg.maxChainDepth);
    var base := CommitSource(p, ctx, metas.value, cfg.maxChainDepth);
    var parents := ParentsOf(tip, m);
    j := JobOn(req, prior, parents, cfg.maxChainDepth);
    JobIs(req, prior, parents, cfg);
    TipReady(p, blocks.objects, topo, cfg, req, tip, prior, m, ctx.topology.value, base, j);
    if !AllInParent(req, prior) {
      AbsentIsBlind(p, metas.value, ctx, cfg.maxChainDepth, topo, req, prior);
    }
    OpenedLaysOut(req.disk, req.extent, req.entries, req.file);
    ghost var plans;
    r, delta, arts, plans := PlanCommitGroups(p, base, FileSource(req.file), req.topo, req.report, parents, blocks,
        cfg, req.opts, req.groups, LayoutOf(req.entries), j);
    if r.Ok? {
      GroundGrows(p, start, blocks.objects, topo, j, Some(tip));
      EntriesAreReady(p, blocks.objects, topo, j, Some(tip), r.value, delta, arts);
      ManifestGrows(p, start, blocks.objects, tip);
      PolicyIs(p, blocks.objects, cfg, req, tip, prior, m, r.value, delta, arts, plans);
    }
  }

  /** The entries are those the snapshot policy chooses over the tip, for some plans of the groups. */
  ghost predicate OnPolicy(p: Prims, store: Store, cfg: Config, req: Request, tip: Oid, prior: File,
      entries: map<string, GroupEntry>) {
    ManifestFor(p, store, tip).Ok? && exists delta, plans :: PolicyOver(p, store, cfg, req, tip, prior,
        ManifestFor(p, store, tip).value, entries, delta, plans)
  }

  ghost predicate PolicyOver(p: Prims, store: Store, cfg: Config, req: Request, tip: Oid, prior: File, m: Manifest,
      entries: map<string, GroupEntry>, delta: set<string>, plans: map<string, GroupPlan>) {
    FollowsPolicy(p, store, FileSource(req.file), JobOn(req, prior, ParentsOf(tip, m), cfg.maxChainDepth), cfg,
        req.opts, req.groups, entries, delta, plans)
  }

  lemma PolicyIs(p: Prims, store: Store, cfg: Config, req: Request, tip: Oid, prior: File, m: Manifest,
      entries: map<string, GroupEntry>, delta: set<string>, arts: map<string, Artifact>,
      plans: map<string, GroupPlan>)
    requires ManifestFor(p, store, tip) == Ok(m) && arts == ArtsOf(plans, delta)
    requires var j := JobOn(req, prior, ParentsOf(tip, m), cfg.maxChainDepth);
      && IsPlanned(p, store, j, entries, delta, arts) && PlansSized(j, plans)
      && ChoosesDeltas(p, FileSource(req.file), req.topo, req.report, j.parents, cfg, req.opts, req.groups, plans,
          delta)
    ensures OnPolicy(p, store, cfg, req, tip, prior, entries)
  {
    hide ManifestFor, IsPlanned, PlansSized, ChoosesDeltas, ParentsOf, ArtsOf;
    assert PolicyOver(p, store, cfg, req, tip, prior, m, entries, delta, plans);
  }

  lemma PolicyGrows(p: Prims, a: Store, b: Store, cfg: Config, req: Request, tip: Oid, prior: File,
      entries: map<string, GroupEntry>)
    requires OnPolicy(p, a, cfg, req, tip, prior, entries) && Grows(a, b)
    ensures OnPolicy(p, b, cfg, req, tip, prior, entries)
  {
    hide ManifestFor, IsPlanned, PlansSized, ChoosesDeltas, ParentsOf, Grows, ArtsOf;
    var m := ManifestFor(p, a, tip).value;
    var delta, plans :| PolicyOver(p, a, cfg, req, tip, prior, m, entries, delta, plans);
    ManifestGrows(p, a, b, tip);
    PlannedGrows(p, a, b, JobOn(req, prior, ParentsOf(tip, m), cfg.maxChainDepth), entries, delta,
                 ArtsOf(plans, delta));
    assert PolicyOver(p, b, cfg, req, tip, prior, m, entries, delta, plans);
  }

  /** Every tensor has a block of its own. */
  ghost predicate AllFull(entries: map<string, GroupEntry>) { forall t :: t in entries ==> entries[t].Full? }

  /** How the tensors of a request are stored: as the policy has it over the tip, or all in full when there is no tip
      to align with. */
  ghost predicate StoredRight(p: Prims, store: Store, cfg: Config, req: Request, history: seq<Oid>, files: seq<File>,
      entries: map<string, GroupEntry>) {
    if req.align && history != [] && files != [] then
      OnPolicy(p, store, cfg, req, history[|history| - 1], files[|files| - 1], entries)
    else AllFull(entries)
  }

  lemma StoredRightIs(p: Prims, store: Store, cfg: Config, req: Request, history: seq<Oid>, files: seq<File>,
      entries: map<string, GroupEntry>)
    requires |history| == |files|
    requires if req.align && history != [] then
        OnPolicy(p, store, cfg, req, history[|history| - 1], files[|files| - 1], entries) else AllFull(entries)
    ensures StoredRight(p, store, cfg, req, history, files, entries)
  {}

  lemma StoredRightGrows(p: Prims, a: Store, b: Store, cfg: Config, req: Request, history: seq<Oid>, files: seq<File>,
      entries: map<string, GroupEntry>)
    requires StoredRight(p, a, cfg, req, history, files, entries) && Grows(a, b)
    ensures StoredRight(p, b, cfg, req, history, files, entries)
  {
    hide OnPolicy, Grows;
    if req.align && history != [] && files != [] {
      PolicyGrows(p, a, b, cfg, req, history[|history| - 1], files[|files| - 1], entries);
    }
  }

  lemma GroundGrows(p: Prims, a: Store, b: Store, topo: Topology, j: Job, parent: Option<Oid>)
    requires HasGround(p, a, topo, j, parent) && Grows(a, b)
    ensures HasGround(p, b, topo, j, parent)
  {
    hide Grows, Represents, SameTopology, ManifestFor;
    if parent.Some? {
      RepresentsGrows(p, a, b, topo, j.maxDepth, parent.value, j.prior);
      RepresentsManifest(p, a, topo, j.maxDepth, parent.value, j.prior);
      ManifestGrows(p, a, b, parent.value);
    }
  }

  lemma RepresentsManifest(p: Prims, a: Store, topo: Topology, d: nat, commit: Oid, file: File)
    requires Represents(p, a, topo, d, commit, file)
    ensures ManifestFor(p, a, commit).Ok?
  {}

  lemma FullsArePlanned(p: Prims, store: Store, j: Job, layout: seq<LayoutEntry>, entries: map<string, GroupEntry>)
    requires JobFits(j) && LaysOut(layout, j.file) && FullsWritten(p, store, j, map[], layout, entries, |layout|)
    ensures IsPlanned(p, store, j, entries, {}, map[]) && AllFull(entries)
  {
    hide JobFits;
    forall name | name in j.file ensures name in entries {
      var i :| 0 <= i < |layout| && layout[i].tensor == name;
    }
  }

  lemma RawStep(p: Prims, a: Store, b: Store, j: Job, entries: seq<StEntry>, stored: map<string, GroupEntry>, k: nat,
      block: Oid)
    requires k < |entries| && FullsWritten(p, a, j, map[], LayoutOf(entries), stored, k) && Grows(a, b)
    requires entries[k].tensor in j.file && block in b && b[block] == Raw(j.file[entries[k].tensor].bytes)
    ensures FullsWritten(p, b, j, map[], LayoutOf(entries), stored[entries[k].tensor := Full(block)], k + 1)
  {}

  /** read_raw over an entry of an opened file. */
  lemma RawReads(disk: seq<Byte>, extent: nat, entries: seq<StEntry>, file: File, k: nat)
    requires Opened(disk, extent, entries, file) && k < |entries|
    ensures entries[k].tensor in file
    ensures Clip(disk, entries[k].off, Zeros(entries[k].nbytes)) == Got(entries[k].nbytes,
        file[entries[k].tensor].bytes)
  {
    hide Opened;
    var e := entries[k];
    EntryOf(disk, extent, entries, file, k);
    assert Clip(disk, e.off, Zeros(e.nbytes)).out == disk[e.off..e.off + e.nbytes];
  }

  /** Every entry of the file read raw and stored as a block, scalars like any other. */
  method StoreRaw(p: Prims, blocks: Blocks, disk: seq<Byte>, ghost extent: nat, entries: seq<StEntry>, ghost j: Job)
    returns (r: Result<map<string, GroupEntry>>)
    requires Lawful(p) && Addressed(p, blocks.objects) && Opened(disk, extent, entries, j.file)
    modifies blocks
    ensures Addressed(p, blocks.objects) && Grows(old(blocks.objects), blocks.objects)
    ensures r.Ok? && FullsWritten(p, blocks.objects, j, map[], LayoutOf(entries), r.value, |entries|)
  {
    ghost var start := blocks.objects;
    var stored: map<string, GroupEntry>, k := map[], 0;
    assert FullsWritten(p, start, j, map[], LayoutOf(entries), stored, 0) && Grows(start, start);
    hide *;
    while k < |entries|
      invariant 0 <= k <= |entries| == |LayoutOf(entries)| && Addressed(p, blocks.objects)
          && Grows(start, blocks.objects)
      invariant FullsWritten(p, blocks.objects, j, map[], LayoutOf(entries), stored, k)
    {
      var e := entries[k];
      RawReads(disk, extent, entries, j.file, k);
      var got := Clip(disk, e.off, Zeros(e.nbytes));
      if got.n != e.nbytes {
        return Err(Internal);
      }
      ghost var was := blocks.objects;
      var block := blocks.Write(p, Raw(got.out));
      GrowsOn(start, was, blocks.objects);
      RawStored(p, was, got.out);
      RawStep(p, was, blocks.objects, j, entries, stored, k, block);
      stored := stored[e.tensor := Full(block)];
      k := k + 1;
    }
    return Ok(stored);
  }

  /** A first commit, or one made without alignment: every tensor in full. */
  method PlanInFull(p: Prims, blocks: Blocks, topo: Topology, cfg: Config, req: Request)
    returns (r: Result<map<string, GroupEntry>>, ghost j: Job, ghost delta: set<string>,
        ghost arts: map<string, Artifact>)
    requires Lawful(p) && Addressed(p, blocks.objects) && Consistent(p, topo, req)
    modifies blocks
    ensures Addressed(p, blocks.objects) && Grows(old(blocks.objects), blocks.objects) && j.file == req.file
        && j.maxDepth == cfg.maxChainDepth
    ensures r.Ok? && EntriesReady(p, blocks.objects, topo, j, None, r.value, delta, arts) && AllFull(r.value)
  {
    j, delta, arts := JobOn(req, map[], map[], cfg.maxChainDepth), {}, map[];
    OpenedLaysOut(req.disk, req.extent, req.entries, req.file);
    hide Lawful, Addressed, TopologyFits, ReportFits, Opened, LaysOut, SameTopology, IsPlanned, FullsWritten, AllFull;
    r := StoreRaw(p, blocks, req.disk, req.extent, req.entries, j);
    FullsArePlanned(p, blocks.objects, j, LayoutOf(req.entries), r.value);
  }

  // ------------------------------------------------------------- the branch

  /** Every commit of the branch holds its checkpoint. */
  ghost predicate HistoryHolds(p: Prims, store: Store, topo: Topology, maxDepth: nat, history: seq<Oid>,
      files: seq<File>) {
    && |history| == |files|
    && (forall i :: 0 <= i < |history| ==> Represents(p, store, topo, maxDepth, history[i], files[i]))
    && (forall i :: 0 <= i < |history| ==> Rooted(p, store, history[i], history[..i]))
    && (forall i :: 0 <= i < |history| ==> Follows(p, store, history[i], history[..i]))
  }

  /** The commit's parent is the one before it; the first has none. */
  ghost predicate Follows(p: Prims, store: Store, commit: Oid, earlier: seq<Oid>) {
    GetCommit(p, store, commit).Ok? && GetCommit(p, store, commit).value.parents == ParentsAfter(earlier)
  }

  function ParentsAfter(earlier: seq<Oid>): seq<Oid> {
    if earlier == [] then [] else [earlier[|earlier| - 1]]
  }

  lemma FollowsNow(p: Prims, store: Store, commit: Oid, earlier: seq<Oid>)
    requires GetCommit(p, store, commit).Ok? && GetCommit(p, store, commit).value.parents == ParentsAfter(earlier)
    ensures Follows(p, store, commit, earlier)
  {}

  lemma FollowsGrows(p: Prims, a: Store, b: Store, commit: Oid, earlier: seq<Oid>)
    requires Grows(a, b) && Follows(p, a, commit, earlier)
    ensures Follows(p, b, commit, earlier)
  {}

  lemma HistoryGrows(p: Prims, a: Store, b: Store, topo: Topology, maxDepth: nat, history: seq<Oid>, files: seq<File>)
    requires Grows(a, b) && HistoryHolds(p, a, topo, maxDepth, history, files)
    ensures HistoryHolds(p, b, topo, maxDepth, history, files)
  {
    hide Grows, Represents, Rooted, Follows;
    forall i | 0 <= i < |history|
      ensures Represents(p, b, topo, maxDepth, history[i], files[i]) && Rooted(p, b, history[i], history[..i])
          && Follows(p, b, history[i], history[..i])
    {
      FollowsGrows(p, a, b, history[i], history[..i]);
      RepresentsGrows(p, a, b, topo, maxDepth, history[i], files[i]);
      RootedGrows(p, a, b, history[i], history[..i]);
    }
  }

  lemma HistoryAppend(p: Prims, store: Store, topo: Topology, maxDepth: nat, history: seq<Oid>, files: seq<File>,
      c: Oid, file: File)
    requires HistoryHolds(p, store, topo, maxDepth, history, files)
    requires Represents(p, store, topo, maxDepth, c, file) && Rooted(p, store, c, history)
        && Follows(p, store, c, history)
    ensures HistoryHolds(p, store, topo, maxDepth, history + [c], files + [file])
  {
    hide Represents, Rooted, Follows;
    var h, f := history + [c], files + [file];
    forall i | 0 <= i < |h|
      ensures Represents(p, store, topo, maxDepth, h[i], f[i]) && Rooted(p, store, h[i], h[..i])
          && Follows(p, store, h[i], h[..i])
    {
      if i < |history| {
        assert h[..i] == history[..i];
      } else {
        assert h[..i] == history;
      }
    }
  }

  /** The commit object leads to its manifest. */
  lemma ManifestFound(p: Prims, store: Store, m: Manifest, c: Commit)
    requires Addressed(p, store) && c.manifest == p.address(ManifestBlock(m))
    requires p.address(ManifestBlock(m)) in store && store[p.address(ManifestBlock(m))] == ManifestBlock(m)
    requires p.address(CommitBlock(c)) in store && store[p.address(CommitBlock(c))] == CommitBlock(c)
    ensures ManifestFor(p, store, p.address(CommitBlock(c))) == Ok(m)
        && GetCommit(p, store, p.address(CommitBlock(c))) == Ok(c)
  {}

  lemma LabelFound(p: Prims, store: Store, c: Commit, topology: seq<Byte>)
    requires GetCommit(p, store, p.address(CommitBlock(c))) == Ok(c)
    requires c.topology in store && store[c.topology] == TopologyBlock(topology)
    ensures Labelled(p, store, p.address(CommitBlock(c)), topology, c.stamp)
  {}

  lemma PutFound(p: Prims, store: Store, x: Object)
    ensures p.address(x) in Put(p, store, x) && Put(p, store, x)[p.address(x)] == x
  {}

  lemma StillFound(a: Store, b: Store, o: Oid)
    requires Grows(a, b) && o in a
    ensures o in b && b[o] == a[o]
  {}

  /** Manifest, topology and commit objects, in that order. */
  method WriteCommit(p: Prims, blocks: Blocks, m: Manifest, topologyBytes: seq<Byte>, parents: seq<Oid>, stamp: nat)
      returns (c: Oid)
    requires Lawful(p) && Addressed(p, blocks.objects)
    modifies blocks
    ensures Addressed(p, blocks.objects) && Grows(old(blocks.objects), blocks.objects)
        && ManifestFor(p, blocks.objects, c) == Ok(m)
    ensures GetCommit(p, blocks.objects, c).Ok? && GetCommit(p, blocks.objects, c).value.parents == parents
    ensures Labelled(p, blocks.objects, c, topologyBytes, stamp)
  {
    hide *;
    ghost var s0 := blocks.objects;
    var manifest := blocks.Write(p, ManifestBlock(m));
    ghost var s1 := blocks.objects;
    PutFound(p, s0, ManifestBlock(m));
    var topology := blocks.Write(p, TopologyBlock(topologyBytes));
    ghost var s2 := blocks.objects;
    StillFound(s1, s2, manifest);
    var commit := Commit(parents, manifest, topology, stamp);
    c := blocks.Write(p, CommitBlock(commit));
    PutFound(p, s1, TopologyBlock(topologyBytes));
    PutFound(p, s2, CommitBlock(commit));
    StillFound(s2, blocks.objects, manifest);
    StillFound(s2, blocks.objects, topology);
    ManifestFound(p, blocks.objects, m, commit);
    LabelFound(p, blocks.objects, commit, topologyBytes);
    GrowsOn(s0, s1, s2);
    GrowsOn(s0, s2, blocks.objects);
  }

  lemma CommitHolds(p: Prims, a: Store, b: Store, topo: Topology, j: Job, parent: Option<Oid>, m: Manifest,
      delta: set<string>, arts: map<string, Artifact>, c: Oid, history: seq<Oid>, files: seq<File>)
    requires Addressed(p, b) && Grows(a, b) && EntriesReady(p, a, topo, j, parent, m.groups, delta, arts)
        && ManifestFor(p, b, c) == Ok(m)
    requires HistoryHolds(p, b, topo, j.maxDepth, history, files) && (parent.Some? ==> parent.value in history)
        && Follows(p, b, c, history)
    requires AllShaped(j.file)
    ensures HistoryHolds(p, b, topo, j.maxDepth, history + [c], files + [j.file])
  {
    hide Addressed, Grows, IsPlanned, HasGround, HistoryHolds, ManifestFor, Follows;
    PlannedGrows(p, a, b, j, m.groups, delta, arts);
    GroundGrows(p, a, b, topo, j, parent);
    NewRepresents(p, b, topo, j, parent, c, delta, arts);
    NewRooted(p, b, topo, j, parent, c, delta, arts, history);
    HistoryAppend(p, b, topo, j.maxDepth, history, files, c, j.file);
  }

  /** Any range of any tensor of any commit is that slice of what was committed there, through any mix of full blocks,
      delta chains and permutations, when the reader has the branch's topology in any order. */
  lemma ReadWith(p: Prims, store: Store, topo: Topology, maxDepth: nat, history: seq<Oid>, files: seq<File>, i: nat,
      name: string, t: Topology, off: nat, out: seq<Byte>, hops: nat)
    requires HistoryHolds(p, store, topo, maxDepth, history, files) && i < |history| && name in files[i]
    requires SameTopology(topo, t) && hops >= maxDepth
    ensures ManifestFor(p, store, history[i]).Ok?
    ensures ReadRange(p, Ctx(store, ManifestFor(p, store, history[i]).value, Some(t), maxDepth), name, off, out, hops)
         == Ok(Clip(files[i][name].bytes, off, out))
  {
    hide Rooted, Follows, SelfContained, ManifestFor, ReadRange, SameTopology;
    assert Represents(p, store, topo, maxDepth, history[i], files[i]);
    var m := ManifestFor(p, store, history[i]).value;
    assert Readable(p, store, topo, maxDepth, m, name, files[i][name].bytes);
    assert Serves(p, Ctx(store, m, Some(t), maxDepth), name, files[i][name].bytes, hops);
  }

  /** Any range of any tensor of any commit, read with the topology loaded from the commit itself, is that slice of
      what was committed there. */
  lemma EveryReadIsExact(p: Prims, store: Store, topo: Topology, maxDepth: nat, history: seq<Oid>, files: seq<File>,
      inputs: seq<Input>, i: nat, name: string, off: nat, out: seq<Byte>, hops: nat)
    requires HistoryHolds(p, store, topo, maxDepth, history, files) && Addressed(p, store)
    requires InputsHold(p, store, topo, history, files, inputs) && i < |history| == |files| && name in files[i]
    requires hops >= maxDepth
    ensures ManifestFor(p, store, history[i]).Ok?
    ensures ReadRange(p, CommitCtx(p, store, history[i], maxDepth), name, off, out, hops)
         == Ok(Clip(files[i][name].bytes, off, out))
  {
    hide *;
    InputOf(p, store, topo, history, files, inputs, i);
    TopologyLoads(p, store, topo, history[i], inputs[i], files[i]);
    var t := TopologyFor(p, store, history[i]).value;
    ReadWith(p, store, topo, maxDepth, history, files, i, name, t, off, out, hops);
    CtxIs(p, store, history[i], maxDepth, t);
  }

  /** What checkout and mount give the reader: the commit's manifest and its own topology, if that parses. */
  function CommitCtx(p: Prims, store: Store, commit: Oid, maxDepth: nat): Ctx
    requires ManifestFor(p, store, commit).Ok?
  {
    Ctx(store, ManifestFor(p, store, commit).value, TopologyFor(p, store, commit), maxDepth)
  }

  lemma CtxIs(p: Prims, store: Store, commit: Oid, maxDepth: nat, t: Topology)
    requires ManifestFor(p, store, commit).Ok? && TopologyFor(p, store, commit) == Some(t)
    ensures CommitCtx(p, store, commit, maxDepth) == Ctx(store, ManifestFor(p, store, commit).value, Some(t), maxDepth)
  {}

  /** Verify's depth check holds on the whole branch, and no depth exceeds the configured bound: the reader never
      refuses a chain as too deep. */
  lemma DepthsAreBounded(p: Prims, store: Store, topo: Topology, maxDepth: nat, history: seq<Oid>, files: seq<File>)
    requires HistoryHolds(p, store, topo, maxDepth, history, files)
    ensures Verified(p, store, set c | c in history)
    ensures forall c, name :: c in history && name in ManifestFor(p, store, c).value.groups ==>
      ManifestFor(p, store, c).value.groups[name].ChainDepth() <= maxDepth
  {
    hide ManifestFor, Readable, SelfContained, Follows;
    var commits := set c | c in history;
    forall c | c in history
      ensures ManifestFor(p, store, c).Ok? && DepthsMatch(p, store, ManifestFor(p, store, c).value)
      ensures BasesIn(ManifestFor(p, store, c).value, commits)
      ensures forall name :: name in ManifestFor(p, store, c).value.groups ==>
          ManifestFor(p, store, c).value.groups[name].ChainDepth() <= maxDepth
    {
      var i :| 0 <= i < |history| && history[i] == c;
      assert Represents(p, store, topo, maxDepth, history[i], files[i]);
      assert Rooted(p, store, history[i], history[..i]);
    }
  }

  /** Write the commit on top of a branch. */
  method RecordCommit(p: Prims, blocks: Blocks, ghost topo: Topology, m: Manifest, topologyBytes: seq<Byte>,
      stamp: nat, history: seq<Oid>, ghost files: seq<File>, ghost j: Job, ghost parent: Option<Oid>,
      ghost delta: set<string>, ghost arts: map<string, Artifact>)
    returns (c: Oid)
    requires Lawful(p) && Addressed(p, blocks.objects)
        && HistoryHolds(p, blocks.objects, topo, j.maxDepth, history, files)
    requires EntriesReady(p, blocks.objects, topo, j, parent, m.groups, delta, arts)
        && (parent.Some? ==> parent.value in history) && AllShaped(j.file)
    modifies blocks
    ensures Addressed(p, blocks.objects)
        && HistoryHolds(p, blocks.objects, topo, j.maxDepth, history + [c], files + [j.file])
    ensures Grows(old(blocks.objects), blocks.objects) && ManifestFor(p, blocks.objects, c) == Ok(m)
    ensures Labelled(p, blocks.objects, c, topologyBytes, stamp) && Follows(p, blocks.objects, c, history)
  {
    hide *;
    ghost var start := blocks.objects;
    c := WriteCommit(p, blocks, m, topologyBytes, ParentsAfter(history), stamp);
    ghost var now := blocks.objects;
    HistoryGrows(p, start, now, topo, j.maxDepth, history, files);
    FollowsNow(p, now, c, history);
    CommitHolds(p, start, now, topo, j, parent, m, delta, arts, c, history, files);
  }

  /** Every tensor of the file has its entry. */
  lemma EntriesCover(p: Prims, store: Store, topo: Topology, j: Job, parent: Option<Oid>,
      entries: map<string, GroupEntry>, delta: set<string>, arts: map<string, Artifact>)
    requires EntriesReady(p, store, topo, j, parent, entries, delta, arts)
    ensures forall t :: t in j.file ==> t in entries
  {}

  /** When a commit succeeds: the file holds a tensor and, if there is a tip to align with, no scalar and no group
      with evidence that the tip lacks. */
  ghost predicate Accepted(req: Request, files: seq<File>) {
    req.entries != [] && Storable(req, files)
  }

  ghost predicate Storable(req: Request, files: seq<File>) {
    req.align && files != [] ==> NoScalars(req.file) && AllInParent(req, files[|files| - 1])
  }

  lemma StorableIs(req: Request, files: seq<File>)
    ensures Storable(req, files) <==>
      (req.align && files != [] ==> NoScalars(req.file) && AllInParent(req, files[|files| - 1]))
  {}

  lemma TipHolds(p: Prims, store: Store, topo: Topology, maxDepth: nat, history: seq<Oid>, files: seq<File>)
    requires HistoryHolds(p, store, topo, maxDepth, history, files)
    ensures |history| == |files|
    ensures history != [] ==> Represents(p, store, topo, maxDepth, history[|history| - 1], files[|files| - 1])
  {
    hide Represents, Rooted, Follows;
  }

  lemma AcceptedIs(req: Request, files: seq<File>)
    ensures Accepted(req, files) <==> req.entries != [] && Storable(req, files)
  {}

  class Repo {
    const p: Prims
    const topo: Topology
    const cfg: Config
    const blocks: Blocks
    /** The commits of the branch, oldest first. */
    var history: seq<Oid>
    /** What was committed: the tensors, and the whole files they came from with their topologies and times. */
    ghost var files: seq<File>
    ghost var inputs: seq<Input>

    ghost predicate Valid()
      reads this, blocks
    {
      && Lawful(p) && Addressed(p, blocks.objects)
          && HistoryHolds(p, blocks.objects, topo, cfg.maxChainDepth, history, files)
      && InputsHold(p, blocks.objects, topo, history, files, inputs)
    }

    constructor (p: Prims, topo: Topology, cfg: Config)
      requires Lawful(p)
      ensures Valid() && history == [] && files == [] && inputs == [] && this.p == p && this.topo == topo
          && this.cfg == cfg && fresh(blocks)
    {
      this.p, this.topo, this.cfg := p, topo, cfg;
      this.blocks := new Blocks();
      this.history, this.files, this.inputs := [], [], [];
    }

    /** Where the tensors of this checkpoint are stored: against the tip if there is one to align with. */
    method StoreTensors(req: Request)
        returns (r: Result<map<string, GroupEntry>>, ghost j: Job, ghost parent: Option<Oid>, ghost delta: set<string>,
                                               ghost arts: map<string, Artifact>)
      requires Valid() && Consistent(p, topo, req) && (history != [] ==> Compatible(req, files[|files| - 1]))
      modifies blocks
      ensures Valid() && Grows(old(blocks.objects), blocks.objects)
      ensures j.file == req.file && j.maxDepth == cfg.maxChainDepth && (parent.Some? ==> parent.value in history)
      ensures r.Ok? ==> EntriesReady(p, blocks.objects, topo, j, parent, r.value, delta, arts)
      ensures r.Ok? ==> StoredRight(p, blocks.objects, cfg, req, history, files, r.value)
      ensures Storable(req, files) ==> r.Ok?
      ensures r.Ok? && !req.opts.residual.Plain? ==> Storable(req, files)
    {
      hide Lawful, Addressed, Grows, HistoryHolds, InputsHold, Consistent, Compatible, EntriesReady, AllInParent,
          NoScalars, Storable, Represents, OnPolicy, AllFull, StoredRight;
      ghost var start := blocks.objects;
      TipHolds(p, start, topo, cfg.maxChainDepth, history, files);
      if history != [] {
        InputOf(p, start, topo, history, files, inputs, |history| - 1);
      }
      StorableIs(req, files);
      if req.align && history != [] {
        var tip := history[|history| - 1];
        parent := Some(tip);
        r, j, delta, arts := PlanOnTip(p, blocks, topo, cfg, req, tip, files[|files| - 1], inputs[|inputs| - 1]);
      } else {
        parent := None;
        r, j, delta, arts := PlanInFull(p, blocks, topo, cfg, req);
      }
      if r.Ok? {
        StoredRightIs(p, blocks.objects, cfg, req, history, files, r.value);
      }
      HistoryGrows(p, start, blocks.objects, topo, cfg.maxChainDepth, history, files);
      InputsGrow(p, start, blocks.objects, topo, history, files, inputs);
    }

    method StoreHeader(bytes: seq<Byte>) returns (oid: Oid)
      requires Valid()
      modifies blocks
      ensures Valid() && Grows(old(blocks.objects), blocks.objects) && oid in blocks.objects
          && blocks.objects[oid] == HeaderBlock(bytes)
    {
      ghost var start := blocks.objects;
      hide Lawful, Addressed, Grows, HistoryHolds, InputsHold;
      oid := blocks.Write(p, HeaderBlock(bytes));
      PutFound(p, start, HeaderBlock(bytes));
      HistoryGrows(p, start, blocks.objects, topo, cfg.maxChainDepth, history, files);
      InputsGrow(p, start, blocks.objects, topo, history, files, inputs);
    }

    /** Write the commit and advance the branch. */
    method Advance(m: Manifest, req: Request, ghost j: Job, ghost parent: Option<Oid>, ghost delta: set<string>,
        ghost arts: map<string, Artifact>)
      returns (c: Oid)
      requires Valid() && EntriesReady(p, blocks.objects, topo, j, parent, m.groups, delta, arts)
          && j.maxDepth == cfg.maxChainDepth
      requires (parent.Some? ==> parent.value in history) && j.file == req.file && AllShaped(req.file)
      requires req.extent <= |req.disk| && Parses(p, topo, req.disk[..req.extent], req.topologyBytes, req.file)
      requires Opened(req.disk, req.extent, req.entries, req.file) && m.buffer == BufferOf(req.entries)
          && m.totalBytes == |req.disk| && WellLaid(m)
      requires m.headerBlock in blocks.objects && blocks.objects[m.headerBlock] == HeaderBlock(req.disk[..req.extent])
      modifies this, blocks
      ensures Valid() && history == old(history) + [c] && files == old(files) + [req.file]
          && inputs == old(inputs) + [InputIn(req)]
      ensures Labelled(p, blocks.objects, c, req.topologyBytes, req.stamp)
          && Follows(p, blocks.objects, c, old(history))
      ensures Grows(old(blocks.objects), blocks.objects) && ManifestFor(p, blocks.objects, c) == Ok(m)
    {
      hide Lawful, Addressed, HistoryHolds, EntriesReady, AllShaped, Opened, WellLaid, InputsHold, LaidDown, Grows,
          ManifestFor, Parses, Labelled;
      ghost var start := blocks.objects;
      EntriesCover(p, start, topo, j, parent, m.groups, delta, arts);
      c := RecordCommit(p, blocks, topo, m, req.topologyBytes, req.stamp, history, files, j, parent, delta, arts);
      InputsGrow(p, start, blocks.objects, topo, history, files, inputs);
      StillFound(start, blocks.objects, m.headerBlock);
      NewLaidDown(p, blocks.objects, topo, c, InputIn(req), req.extent, req.entries, req.file, m);
      InputsAppend(p, blocks.objects, topo, history, files, inputs, c, req.file, InputIn(req));
      history, files, inputs := history + [c], files + [req.file], inputs + [InputIn(req)];
    }

    /** run_commit: on success the branch has one more commit, which reads back as the checkpoint; the older ones read
        back as they did. It succeeds on exactly the accepted requests, as long as residuals are taken against the
        base. */
    method CommitFile(req: Request) returns (r: Result<Oid>)
      requires Valid() && Consistent(p, topo, req) && (history != [] ==> Compatible(req, files[|files| - 1]))
      modifies this, blocks
      ensures Valid()
      ensures r.Err? ==> history == old(history) && files == old(files) && inputs == old(inputs)
      ensures r.Ok? ==>
        && history == old(history) + [r.value] && files == old(files) + [req.file]
        && inputs == old(inputs) + [InputIn(req)]
      ensures r.Ok? ==>
        && Labelled(p, blocks.objects, r.value, req.topologyBytes, req.stamp)
        && Follows(p, blocks.objects, r.value, old(history))
      ensures Grows(old(blocks.objects), blocks.objects)
      ensures r.Ok? ==>
        && ManifestFor(p, blocks.objects, r.value).Ok?
        && StoredRight(p, blocks.objects, cfg, req, old(history), old(files),
                       ManifestFor(p, blocks.objects, r.value).value.groups)
      ensures Accepted(req, old(files)) ==> r.Ok?
      ensures r.Ok? && !req.opts.residual.Plain? ==> Accepted(req, old(files))
    {
      hide *;
      ConsistentParts(p, topo, req);
      AcceptedIs(req, files);
      ghost var s0 := blocks.objects;
      var header := StoreHeader(req.disk[..req.extent]);
      ghost var s1 := blocks.objects;
      var entries, j, parent, delta, arts := StoreTensors(req);
      ghost var s2 := blocks.objects;
      GrowsOn(s0, s1, s2);
      if entries.Err? {
        return Err(entries.error);
      }
      StillFound(s1, blocks.objects, header);
      var m := Manifest(header, |req.disk|, BufferOf(req.entries), entries.value);
      EntriesCover(p, blocks.objects, topo, j, parent, m.groups, delta, arts);
      OpenedIsWellLaid(req.disk, req.extent, req.entries, req.file, m);
      var ok := Validate(m);
      if !ok {
        return Err(MalformedObject);
      }
      ghost var history0, files0 := history, files;
      var c := Advance(m, req, j, parent, delta, arts);
      GrowsOn(s0, s2, blocks.objects);
      StoredRightGrows(p, s2, blocks.objects, cfg, req, history0, files0, entries.value);
      return Ok(c);
    }
  }

  // ------------------------------------------------------------- scalars

  /** A file of a header byte and one scalar of one byte, under a topology without groups. */
  function ScalarRequest(align: bool, opts: EncodeOptions): Request {
    Request([1, 2], 1, [StEntry("s", 1, 1)], map["s" := Tensor([], U8, [2])], Topology(map[], map[], []), [], map[],
            opts, align, [], 0)
  }

  lemma ScalarIsConsistent(p: Prims, align: bool, opts: EncodeOptions)
    requires p.shapes([1]) == Some(map["s" := Meta([], U8, 1)])
        && p.topology([1], []) == Some(Topology(map[], map[], []))
    ensures Consistent(p, Topology(map[], map[], []), ScalarRequest(align, opts))
    ensures forall prior :: Compatible(ScalarRequest(align, opts), prior)
    ensures !NoScalars(ScalarRequest(align, opts).file)
  {
    var req := ScalarRequest(align, opts);
    var disk: seq<Byte> := [1, 2];
    assert disk[1..2] == [2] && disk[..1] == [1];
    assert Holds(req.disk, 1, 1, req.file["s"].bytes);
    assert req.file["s"].shape == [];
    assert forall t :: t in req.file ==> req.entries[0].tensor == t;
    assert MetasOf(req.file) == map["s" := Meta([], U8, 1)];
  }

  /** Committed alone the file is taken; committed again on top of itself, with alignment, it is refused. */
  method ScalarIsRefused(p: Prims, cfg: Config, opts: EncodeOptions) returns (first: Result<Oid>, again: Result<Oid>)
    requires Lawful(p) && !opts.residual.Plain?
    requires p.shapes([1]) == Some(map["s" := Meta([], U8, 1)])
        && p.topology([1], []) == Some(Topology(map[], map[], []))
    ensures first.Ok? && again.Err?
  {
    hide Lawful, Consistent, Compatible, NoScalars, AllInParent, HistoryHolds, InputsHold, Addressed, Labelled, Follows;
    var none := Topology(map[], map[], []);
    var repo := new Repo(p, none, cfg);
    ScalarIsConsistent(p, false, opts);
    first := repo.CommitFile(ScalarRequest(false, opts));
    ScalarIsConsistent(p, true, opts);
    again := repo.CommitFile(ScalarRequest(true, opts));
  }
}
