/** The components together: a branch of planned commits survives garbage collection from its tip, and every commit of
    it, checked out or mounted, is the file that was committed. */
module Lifecycle {
  import opened Common
  import opened Records
  import opened Manifests
  import opened Reader
  import opened ReadBack
  import opened Sources
  import opened Planned
  import opened History
  import opened Repository
  import opened Dag
  import opened Gc
  import opened Intervals
  import opened StFiles
  import opened CacheModel
  import opened CacheRuns
  import opened MountedFile
  import opened CachedReads

  // ------------------------------------------------------------- the branch as a graph

  /** Later commits reach earlier ones. */
  lemma {:induction false} LaterReaches(p: Prims, store: Store, topo: Topology, maxDepth: nat, history: seq<Oid>,
      files: seq<File>, i: nat, j: nat)
    requires HistoryHolds(p, store, topo, maxDepth, history, files) && i <= j < |history|
    ensures Reaches(p, store, history[j], history[i])
    decreases j - i
  {
    hide Reaches, Represents, Rooted;
    if i == j {
      ReachesSelf(p, store, history[i]);
    } else {
      LaterReaches(p, store, topo, maxDepth, history, files, i + 1, j);
      assert Follows(p, store, history[i + 1], history[..i + 1]);
      assert IsParent(p, store, history[i + 1], history[i]);
      ReachesParent(p, store, history[j], history[i + 1], history[i]);
    }
  }

  /** Nothing but the branch is reachable from its tip. */
  lemma ReachableIsHistory(p: Prims, store: Store, topo: Topology, maxDepth: nat, history: seq<Oid>, files: seq<File>,
      x: Oid)
    requires HistoryHolds(p, store, topo, maxDepth, history, files) && history != []
        && Reachable(p, store, [history[|history| - 1]], x)
    ensures x in history
  {
    hide Represents, Rooted;
    var tip := history[|history| - 1];
    var n: nat :| ReachIn(p, store, tip, x, n);
    var all := set c | c in history;
    forall c, y | c in all && IsParent(p, store, c, y) ensures y in all {
      var k :| 0 <= k < |history| && history[k] == c;
      assert Follows(p, store, history[k], history[..k]);
    }
    ClosedHolds(p, store, tip, x, n, all);
  }

  /** Planned commits meet the ancestor invariant. */
  lemma BranchMeetsInvariant(p: Prims, store: Store, topo: Topology, maxDepth: nat, history: seq<Oid>,
      files: seq<File>)
    requires HistoryHolds(p, store, topo, maxDepth, history, files) && history != []
    ensures AllAncestorsHold(p, store, [history[|history| - 1]])
  {
    hide Represents, Reachable, Reaches, ManifestFor;
    var tips := [history[|history| - 1]];
    forall x | Reachable(p, store, tips, x) && ManifestFor(p, store, x).Ok?
      ensures AncestorsHold(p, store, x, ManifestFor(p, store, x).value)
    {
      ReachableIsHistory(p, store, topo, maxDepth, history, files, x);
      var j :| 0 <= j < |history| && history[j] == x;
      var m := ManifestFor(p, store, x).value;
      assert Rooted(p, store, history[j], history[..j]);
      forall name | name in m.groups && m.groups[name].Delta? ensures Reaches(p, store, x, m.groups[name].base) {
        assert m.groups[name].base in history[..j];
        var i :| 0 <= i < j && history[i] == m.groups[name].base;
        LaterReaches(p, store, topo, maxDepth, history, files, i, j);
      }
    }
  }

  lemma TipReachesAll(p: Prims, store: Store, topo: Topology, maxDepth: nat, history: seq<Oid>, files: seq<File>,
      i: nat)
    requires HistoryHolds(p, store, topo, maxDepth, history, files) && i < |history|
    ensures Reachable(p, store, [history[|history| - 1]], history[i])
  {
    hide Represents, Rooted, Follows, Reaches;
    LaterReaches(p, store, topo, maxDepth, history, files, i, |history| - 1);
    assert history[|history| - 1] in [history[|history| - 1]];
  }

  /** Pruning from the tip leaves what a reader of a commit is given, and its topology, as they were. */
  lemma PruneKeepsCtx(p: Prims, store: Store, topo: Topology, maxDepth: nat, history: seq<Oid>, files: seq<File>,
      live: set<Oid>, i: nat)
    requires HistoryHolds(p, store, topo, maxDepth, history, files) && i < |history|
    requires IsLive(p, store, [history[|history| - 1]], live)
    ensures ManifestFor(p, store, history[i]).Ok?
    ensures ManifestFor(p, Pruned(store, live), history[i]) == ManifestFor(p, store, history[i])
    ensures TopologyFor(p, Pruned(store, live), history[i]) == TopologyFor(p, store, history[i])
  {
    hide *;
    var tips := [history[|history| - 1]];
    TipReachesAll(p, store, topo, maxDepth, history, files, i);
    CommitIsLive(p, store, tips, live, history[i]);
    PrunedAgrees(store, live);
    SameManifest(p, store, Pruned(store, live), live, history[i]);
    SameTopologyFor(p, store, Pruned(store, live), live, history[i]);
  }

  /** After a prune from the tip, every range of every tensor of every commit still reads back as committed, with the
      topology loaded from the pruned store. */
  lemma PruneKeepsHistory(p: Prims, store: Store, topo: Topology, maxDepth: nat, history: seq<Oid>, files: seq<File>,
      inputs: seq<Input>, live: set<Oid>, i: nat, name: string, off: nat, out: seq<Byte>, hops: nat)
    requires HistoryHolds(p, store, topo, maxDepth, history, files) && Addressed(p, store)
    requires InputsHold(p, store, topo, history, files, inputs) && i < |history| == |files| && name in files[i]
    requires hops >= maxDepth && IsLive(p, store, [history[|history| - 1]], live)
    ensures ManifestFor(p, Pruned(store, live), history[i]).Ok?
    ensures ReadRange(p, CommitCtx(p, Pruned(store, live), history[i], maxDepth), name, off, out, hops)
         == Ok(Clip(files[i][name].bytes, off, out))
  {
    hide *;
    var tips := [history[|history| - 1]];
    BranchMeetsInvariant(p, store, topo, maxDepth, history, files);
    TipReachesAll(p, store, topo, maxDepth, history, files, i);
    PruneKeepsCtx(p, store, topo, maxDepth, history, files, live, i);
    PruneKeepsReads(p, store, tips, live, history[i], TopologyFor(p, store, history[i]), maxDepth, name, off, out,
                    hops);
    EveryReadIsExact(p, store, topo, maxDepth, history, files, inputs, i, name, off, out, hops);
    CtxOf(p, store, history[i], maxDepth);
    CtxOf(p, Pruned(store, live), history[i], maxDepth);
  }

  lemma CtxOf(p: Prims, store: Store, commit: Oid, maxDepth: nat)
    requires ManifestFor(p, store, commit).Ok?
    ensures CommitCtx(p, store, commit, maxDepth)
         == Ctx(store, ManifestFor(p, store, commit).value, TopologyFor(p, store, commit), maxDepth)
  {}

  // ------------------------------------------------------------- mounting a commit

  /** The bytes of each tensor of a checkpoint. */
  ghost function ContentsOf(file: File): Contents {
    map name | name in file :: file[name].bytes
  }

  /** The groups of a commit's buffer read back as the committed tensors. */
  lemma CommitServes(p: Prims, store: Store, topo: Topology, maxDepth: nat, history: seq<Oid>, files: seq<File>,
      inputs: seq<Input>, i: nat, t: Topology, hops: nat)
    requires HistoryHolds(p, store, topo, maxDepth, history, files)
        && InputsHold(p, store, topo, history, files, inputs)
        && i < |history|
    requires SameTopology(topo, t) && hops >= maxDepth
    ensures ManifestFor(p, store, history[i]).Ok?
    ensures GroupsServe(p, Ctx(store, ManifestFor(p, store, history[i]).value, Some(t), maxDepth),
        ContentsOf(files[i]), hops)
  {
    hide Rooted, Follows, SelfContained, ManifestFor, ReadRange, SameTopology, Serves, WellLaid, DistinctGroups;
    assert Represents(p, store, topo, maxDepth, history[i], files[i])
        && LaidDown(p, store, topo, history[i], inputs[i], files[i]);
    var m := ManifestFor(p, store, history[i]).value;
    var ctx := Ctx(store, m, Some(t), maxDepth);
    forall k | 0 <= k < |m.buffer|
      ensures Serves(p, ctx, m.buffer[k].group, ContentsOf(files[i])[m.buffer[k].group], hops)
    {
      var name := m.buffer[k].group;
      assert Readable(p, store, topo, maxDepth, m, name, files[i][name].bytes);
    }
  }

  /** The front of the stream up to entry n is the front of the file. */
  lemma {:induction false} StreamFront(m: Manifest, disk: seq<Byte>, contents: Contents, n: nat)
    requires WellLaid(m) && Supplied(m.buffer, contents) && n <= |m.buffer| && m.buffer[0].off <= |disk|
    requires forall k :: 0 <= k < |m.buffer| ==>
        Holds(disk, m.buffer[k].off, m.buffer[k].nbytes, contents[m.buffer[k].group])
    ensures m.buffer[0].off + |DataBytes(m.buffer, contents, n)| <= |disk|
    ensures disk[..m.buffer[0].off] + DataBytes(m.buffer, contents,
        n) == disk[..m.buffer[0].off + |DataBytes(m.buffer, contents, n)|]
  {
    hide WellLaid;
    Laid(m);
    if n > 0 {
      StreamFront(m, disk, contents, n - 1);
      DataEnds(m, contents, n - 1);
      var e, front := m.buffer[n - 1], DataBytes(m.buffer, contents, n - 1);
      assert Holds(disk, e.off, e.nbytes, contents[e.group]);
      assert contents[e.group][..e.nbytes] == disk[e.off..e.off + e.nbytes];
      assert disk[..e.off] + disk[e.off..e.off + e.nbytes] == disk[..e.off + e.nbytes];
      var piece := disk[e.off..e.off + e.nbytes];
      assert disk[..m.buffer[0].off] + (front + piece) == (disk[..m.buffer[0].off] + front) + piece;
    }
  }

  lemma Laid(m: Manifest)
    requires WellLaid(m)
    ensures m.buffer != []
  {}

  /** Header and buffer of a commit make up the committed file. */
  lemma StreamIsDisk(p: Prims, store: Store, topo: Topology, commit: Oid, input: Input, file: File)
    requires LaidDown(p, store, topo, commit, input, file)
    ensures
      var m, disk := ManifestFor(p, store, commit).value, input.disk;
      Supplied(m.buffer, ContentsOf(file)) && Stream(disk[..m.buffer[0].off], m.buffer, ContentsOf(file)) == disk
  {
    hide ManifestFor, WellLaid, DistinctGroups, Labelled, Parses;
    var m, contents, disk := ManifestFor(p, store, commit).value, ContentsOf(file), input.disk;
    Laid(m);
    assert Supplied(m.buffer, contents);
    StreamFront(m, disk, contents, |m.buffer|);
    DataEnds(m, contents, |m.buffer|);
    assert disk[..|disk|] == disk;
  }

  lemma HeaderFound(p: Prims, store: Store, topo: Topology, commit: Oid, input: Input, file: File)
    requires Addressed(p, store) && LaidDown(p, store, topo, commit, input, file)
    ensures
      var m := ManifestFor(p, store, commit).value;
      GetHeader(p, store, m.headerBlock) == Ok(input.disk[..m.buffer[0].off])
  {
    hide ManifestFor, WellLaid, DistinctGroups, Labelled, Parses;
  }

  lemma GroupsAreThere(p: Prims, store: Store, topo: Topology, commit: Oid, input: Input, file: File)
    requires LaidDown(p, store, topo, commit, input, file)
    ensures var m := ManifestFor(p, store, commit).value; forall k :: 0 <= k < |m.buffer| ==>
        m.buffer[k].group in m.groups
  {
    hide ManifestFor, DistinctGroups;
  }

  /** With the branch's topology in any order, reconstruct_file of a commit gives its file. */
  lemma CheckoutWith(p: Prims, store: Store, topo: Topology, maxDepth: nat, history: seq<Oid>, files: seq<File>,
      inputs: seq<Input>, i: nat, t: Topology, hops: nat)
    requires HistoryHolds(p, store, topo, maxDepth, history, files)
        && InputsHold(p, store, topo, history, files, inputs) && i < |history|
    requires Addressed(p, store) && SameTopology(topo, t) && hops >= maxDepth
    ensures ManifestFor(p, store, history[i]).Ok? && |inputs| == |history|
    ensures StreamOf(p, Ctx(store, ManifestFor(p, store, history[i]).value, Some(t), maxDepth), hops)
         == Ok(inputs[i].disk)
  {
    hide *;
    InputOf(p, store, topo, history, files, inputs, i);
    CommitServes(p, store, topo, maxDepth, history, files, inputs, i, t, hops);
    HeaderFound(p, store, topo, history[i], inputs[i], files[i]);
    GroupsAreThere(p, store, topo, history[i], inputs[i], files[i]);
    StreamIs(p, Ctx(store, ManifestFor(p, store, history[i]).value, Some(t), maxDepth), hops, ContentsOf(files[i]));
    StreamIsDisk(p, store, topo, history[i], inputs[i], files[i]);
  }

  /** Checkout: reconstruct_file of any commit of the branch, with the topology loaded from the commit itself, is the
      file that was committed, byte for byte. */
  lemma CheckoutIsExact(p: Prims, store: Store, topo: Topology, maxDepth: nat, history: seq<Oid>, files: seq<File>,
      inputs: seq<Input>, i: nat, hops: nat)
    requires HistoryHolds(p, store, topo, maxDepth, history, files)
        && InputsHold(p, store, topo, history, files, inputs) && i < |history|
    requires Addressed(p, store) && hops >= maxDepth
    ensures ManifestFor(p, store, history[i]).Ok? && |inputs| == |history|
    ensures StreamOf(p, CommitCtx(p, store, history[i], maxDepth), hops) == Ok(inputs[i].disk)
  {
    hide *;
    InputOf(p, store, topo, history, files, inputs, i);
    TopologyLoads(p, store, topo, history[i], inputs[i], files[i]);
    CheckoutWith(p, store, topo, maxDepth, history, files, inputs, i, TopologyFor(p, store, history[i]).value, hops);
    CtxOf(p, store, history[i], maxDepth);
  }

  /** The same after a prune from the tip. */
  lemma CheckoutSurvivesPrune(p: Prims, store: Store, topo: Topology, maxDepth: nat, history: seq<Oid>,
      files: seq<File>, inputs: seq<Input>, live: set<Oid>, i: nat, hops: nat)
    requires HistoryHolds(p, store, topo, maxDepth, history, files)
        && InputsHold(p, store, topo, history, files, inputs) && i < |history|
    requires Addressed(p, store) && hops >= maxDepth
    requires IsLive(p, store, [history[|history| - 1]], live)
    ensures ManifestFor(p, Pruned(store, live), history[i]).Ok? && |inputs| == |history|
    ensures StreamOf(p, CommitCtx(p, Pruned(store, live), history[i], maxDepth), hops) == Ok(inputs[i].disk)
  {
    hide *;
    CheckoutIsExact(p, store, topo, maxDepth, history, files, inputs, i, hops);
    BranchMeetsInvariant(p, store, topo, maxDepth, history, files);
    TipReachesAll(p, store, topo, maxDepth, history, files, i);
    PruneKeepsCtx(p, store, topo, maxDepth, history, files, live, i);
    PruneKeepsStream(p, store, [history[|history| - 1]], live, history[i], TopologyFor(p, store, history[i]), maxDepth,
                     hops);
    CtxOf(p, store, history[i], maxDepth);
    CtxOf(p, Pruned(store, live), history[i], maxDepth);
  }

  /** A commit of the branch, mounted, rests on what a mounted read needs, and its file is the committed one. */
  lemma MountIsSound(p: Prims, store: Store, topo: Topology, maxDepth: nat, history: seq<Oid>, files: seq<File>,
      inputs: seq<Input>, i: nat, fs: Mount, hops: nat)
    requires HistoryHolds(p, store, topo, maxDepth, history, files)
        && InputsHold(p, store, topo, history, files, inputs)
        && i < |history| && hops >= maxDepth
    requires fs.ctx.topology.Some? && SameTopology(topo, fs.ctx.topology.value) && fs.ctx.maxDepth == maxDepth
        && fs.ctx.store == store
    requires ManifestFor(p, store, history[i]) == Ok(fs.ctx.manifest) && Describes(fs.table, fs.ctx.manifest)
    ensures |inputs| == |files| == |history| && |fs.ctx.manifest.buffer| > 0
        && fs.ctx.manifest.buffer[0].off <= |inputs[i].disk|
    ensures Sound(p, fs, hops, inputs[i].disk[..fs.ctx.manifest.buffer[0].off], ContentsOf(files[i]))
    ensures Supplied(fs.ctx.manifest.buffer, ContentsOf(files[i]))
    ensures MountedFile.File(fs, inputs[i].disk[..fs.ctx.manifest.buffer[0].off], ContentsOf(files[i]))
         == inputs[i].disk
  {
    InputOf(p, store, topo, history, files, inputs, i);
    var m := fs.ctx.manifest;
    assert m.headerBlock in store && store[m.headerBlock] == HeaderBlock(inputs[i].disk[..m.buffer[0].off])
        && DistinctGroups(m);
    hide HistoryHolds, InputsHold, LaidDown, ManifestFor, SameTopology, GroupsServe, Describes, DistinctGroups, Stream;
    CommitServes(p, store, topo, maxDepth, history, files, inputs, i, fs.ctx.topology.value, hops);
    StreamIsDisk(p, store, topo, history[i], inputs[i], files[i]);
    assert fs.ctx == Ctx(store, m, Some(fs.ctx.topology.value), maxDepth);
  }

  /** `fs` is the commit, mounted: with its manifest and the topology loaded from it. */
  ghost predicate Mounts(p: Prims, store: Store, maxDepth: nat, commit: Oid, fs: Mount) {
    && ManifestFor(p, store, commit).Ok? && fs.ctx == CommitCtx(p, store, commit, maxDepth)
    && Describes(fs.table, fs.ctx.manifest)
  }

  /** Opening a mount: a manifest that can be read and laid out is needed, and enough. */
  method MountCommit(p: Prims, store: Store, commit: Oid, maxDepth: nat, artifact: Oid) returns (fs: Result<Mount>)
    ensures fs.Ok? <==> ManifestFor(p, store, commit).Ok? && WellLaid(ManifestFor(p, store, commit).value)
    ensures fs.Ok? ==> Mounts(p, store, maxDepth, commit, fs.value) && fs.value.artifact == artifact
  {
    hide WellLaid, Describes, ManifestFor, Covers, TopologyFor;
    var m := ManifestFor(p, store, commit);
    if m.Err? {
      return Err(m.error);
    }
    var table := Build(m.value);
    if table.Err? {
      return Err(table.error);
    }
    return Ok(Mount(Ctx(store, m.value, TopologyFor(p, store, commit), maxDepth), table.value, artifact));
  }

  /** So every commit of the branch can be mounted. */
  lemma BranchMounts(p: Prims, store: Store, topo: Topology, history: seq<Oid>, files: seq<File>, inputs: seq<Input>,
      i: nat)
    requires InputsHold(p, store, topo, history, files, inputs) && i < |history|
    ensures ManifestFor(p, store, history[i]).Ok? && WellLaid(ManifestFor(p, store, history[i]).value)
  {
    hide ManifestFor, WellLaid, Holds;
    InputOf(p, store, topo, history, files, inputs, i);
  }

  /** Every read of a mounted commit through the frame cache, in any run of the cache, succeeds with the bytes of the
      file that was committed. */
  method ReadMounted(p: Prims, ghost topo: Topology, ghost maxDepth: nat, ghost history: seq<Oid>,
      ghost files: seq<File>, ghost inputs: seq<Input>, ghost i: nat, fs: Mount, offset: nat, out: seq<Byte>,
      leases: Leases, hops: nat, ghost budget: nat, ghost run: seq<State>, ghost actions: seq<Action>)
    returns (r: Result<Got>)
    requires HistoryHolds(p, fs.ctx.store, topo, maxDepth, history, files)
        && InputsHold(p, fs.ctx.store, topo, history, files, inputs) && i < |history| == |inputs|
    requires Addressed(p, fs.ctx.store) && Mounts(p, fs.ctx.store, maxDepth, history[i], fs) && hops >= maxDepth
    requires IsRun(budget, run, actions) && FillsFrames(p, fs, hops, run, actions)
    requires AnsweredBy(fs, run, leases, offset, |out|)
    ensures r == Ok(Clip(inputs[i].disk, offset, out))
  {
    hide HistoryHolds, InputsHold, ManifestFor, SameTopology, Describes, Sound, Supplied, MountedFile.File, IsRun,
        FillsFrames, AnsweredBy, Clip, TopologyFor, Addressed, LaidDown;
    InputOf(p, fs.ctx.store, topo, history, files, inputs, i);
    TopologyLoads(p, fs.ctx.store, topo, history[i], inputs[i], files[i]);
    MountIsSound(p, fs.ctx.store, topo, maxDepth, history, files, inputs, i, fs, hops);
    r := ReadThroughCache(p, fs, offset, out, leases, hops, inputs[i].disk[..fs.ctx.manifest.buffer[0].off],
        ContentsOf(files[i]), budget, run, actions);
  }
}
