/** Garbage collection on a live repository (modules/store/src/gc.cpp on a branch of apps/sfs/cmd/commit.cpp): a prune
    from the tip keeps the whole branch invariant, so committing, reading and mounting go on as before. */
module Collection {
  import opened Common
  import opened Records
  import opened Reader
  import opened ReadBack
  import opened Locality
  import opened Depth
  import opened Sources
  import opened Planned
  import opened History
  import opened StFiles
  import opened Repository
  import opened Gc
  import opened Lifecycle

  ghost function Tips(history: seq<Oid>): seq<Oid> {
    if history == [] then [] else [history[|history| - 1]]
  }

  /** What a prune of this branch rests on. */
  ghost predicate Prunes(p: Prims, store: Store, topo: Topology, maxDepth: nat, history: seq<Oid>, files: seq<File>,
      live: set<Oid>) {
    && HistoryHolds(p, store, topo, maxDepth, history, files) && history != []
    && IsLive(p, store, Tips(history), live)
  }

  // ------------------------------------------------------------- one commit

  lemma {:induction false} ClosedPruned(p: Prims, a: Store, live: set<Oid>, m: Manifest, h: nat)
    requires Closed(p, a, live, m, h) && Closed(p, a, a.Keys, m, h)
    ensures Closed(p, Pruned(a, live), Pruned(a, live).Keys, m, h)
    decreases h
  {
    hide ManifestFor, GetCommit, Pruned, Closed;
    forall name | name in m.groups ensures EntryClosed(p, Pruned(a, live), Pruned(a, live).Keys, m.groups[name], h) {
      ClosedEntry(p, a, live, m, name, h);
      ClosedEntry(p, a, a.Keys, m, name, h);
      var e := m.groups[name];
      PrunedKeys(a, live);
      if e.Delta? {
        PrunedAgrees(a, live);
        GetSame(p, a, Pruned(a, live), live, e.base);
        ManifestSame(p, a, Pruned(a, live), live, e, h);
        if h > 0 && ManifestFor(p, a, e.base).Ok? {
          ClosedPruned(p, a, live, ManifestFor(p, a, e.base).value, h - 1);
        }
      }
    }
    ClosedIntro(p, Pruned(a, live), m, h);
  }

  lemma ClosedEntry(p: Prims, store: Store, live: set<Oid>, m: Manifest, name: string, h: nat)
    requires Closed(p, store, live, m, h) && name in m.groups
    ensures EntryClosed(p, store, live, m.groups[name], h)
  {}

  lemma PrunedKeys(store: Store, live: set<Oid>)
    ensures forall o :: o in Pruned(store, live).Keys <==> o in store.Keys && o in live
    ensures forall o :: o in Pruned(store, live) ==> Pruned(store, live)[o] == store[o]
  {}

  /** The branch's commits and bases are in the set that stays. */
  lemma CommitStays(p: Prims, store: Store, topo: Topology, maxDepth: nat, history: seq<Oid>, files: seq<File>,
      live: set<Oid>, i: nat)
    requires Prunes(p, store, topo, maxDepth, history, files, live) && i < |history|
    ensures Reachable(p, store, Tips(history), history[i]) && AllAncestorsHold(p, store, Tips(history))
    ensures ManifestFor(p, store, history[i]).Ok? && history[i] in live
    ensures ManifestFor(p, Pruned(store, live), history[i]) == ManifestFor(p, store, history[i])
    ensures GetCommit(p, Pruned(store, live), history[i]) == GetCommit(p, store, history[i])
    ensures ManifestFor(p, store, history[i]).value.headerBlock in live
    ensures GetCommit(p, store, history[i]).Ok? && GetCommit(p, store, history[i]).value.topology in live
  {
    hide HistoryHolds, IsLive, Reachable, AllAncestorsHold, ManifestFor, GetCommit, Pruned;
    TipReachesAll(p, store, topo, maxDepth, history, files, i);
    BranchMeetsInvariant(p, store, topo, maxDepth, history, files);
    CommitIsLive(p, store, Tips(history), live, history[i]);
    PrunedAgrees(store, live);
    SameManifest(p, store, Pruned(store, live), live, history[i]);
    GetSame(p, store, Pruned(store, live), live, history[i]);
  }

  lemma ContainedStays(p: Prims, store: Store, topo: Topology, maxDepth: nat, history: seq<Oid>, files: seq<File>,
      live: set<Oid>, i: nat, m: Manifest)
    requires Prunes(p, store, topo, maxDepth, history, files, live) && i < |history|
    requires ManifestFor(p, store, history[i]) == Ok(m) && SelfContained(p, store, m)
    ensures SelfContained(p, Pruned(store, live), m)
  {
    hide Prunes, ManifestFor, Closed, Pruned, Reachable, IsLive, AllAncestorsHold;
    PrunesLive(p, store, topo, maxDepth, history, files, live);
    CommitStays(p, store, topo, maxDepth, history, files, live, i);
    forall h: nat ensures Closed(p, Pruned(store, live), Pruned(store, live).Keys, m, h) {
      LiveIsClosed(p, store, Tips(history), live, history[i], m, h);
      ClosedPruned(p, store, live, m, h);
    }
  }

  lemma PrunesLive(p: Prims, store: Store, topo: Topology, maxDepth: nat, history: seq<Oid>, files: seq<File>,
      live: set<Oid>)
    requires Prunes(p, store, topo, maxDepth, history, files, live)
    ensures HistoryHolds(p, store, topo, maxDepth, history, files) && |history| == |files| && history != []
    ensures IsLive(p, store, Tips(history), live)
  {}

  lemma ReadableStays(p: Prims, store: Store, topo: Topology, maxDepth: nat, history: seq<Oid>, files: seq<File>,
      live: set<Oid>, i: nat, m: Manifest, name: string, bytes: seq<Byte>)
    requires Prunes(p, store, topo, maxDepth, history, files, live) && i < |history|
    requires ManifestFor(p, store, history[i]) == Ok(m) && name in m.groups
    requires Readable(p, store, topo, maxDepth, m, name, bytes)
    ensures Readable(p, Pruned(store, live), topo, maxDepth, m, name, bytes)
  {
    hide Prunes, ManifestFor, Pruned, Reachable, IsLive, AllAncestorsHold, ReadRange, SameTopology, Clip;
    PrunesLive(p, store, topo, maxDepth, history, files, live);
    CommitStays(p, store, topo, maxDepth, history, files, live, i);
    forall t, h: nat | SameTopology(topo, t) && h >= m.groups[name].ChainDepth()
      ensures Serves(p, Ctx(Pruned(store, live), m, Some(t), maxDepth), name, bytes, h)
    {
      assert Serves(p, Ctx(store, m, Some(t), maxDepth), name, bytes, h);
      forall off: nat, out
        ensures ReadRange(p, Ctx(Pruned(store, live), m, Some(t), maxDepth), name, off, out, h)
             == Ok(Clip(bytes, off, out))
      {
        PruneKeepsReads(p, store, Tips(history), live, history[i], Some(t), maxDepth, name, off, out, h);
      }
    }
  }

  lemma RepresentsStays(p: Prims, store: Store, topo: Topology, maxDepth: nat, history: seq<Oid>, files: seq<File>,
      live: set<Oid>, i: nat)
    requires Prunes(p, store, topo, maxDepth, history, files, live) && i < |history|
    requires i < |files| && Represents(p, store, topo, maxDepth, history[i], files[i])
    ensures Represents(p, Pruned(store, live), topo, maxDepth, history[i], files[i])
  {
    hide Prunes, ManifestFor, Pruned, SelfContained, Readable;
    var m := ManifestFor(p, store, history[i]).value;
    CommitStays(p, store, topo, maxDepth, history, files, live, i);
    ContainedStays(p, store, topo, maxDepth, history, files, live, i, m);
    forall name | name in files[i]
      ensures Readable(p, Pruned(store, live), topo, maxDepth, m, name, files[i][name].bytes)
    {
      ReadableStays(p, store, topo, maxDepth, history, files, live, i, m, name, files[i][name].bytes);
    }
  }

  lemma RootedStays(p: Prims, store: Store, topo: Topology, maxDepth: nat, history: seq<Oid>, files: seq<File>,
      live: set<Oid>, i: nat)
    requires Prunes(p, store, topo, maxDepth, history, files, live) && i < |history|
    requires Rooted(p, store, history[i], history[..i])
    ensures Rooted(p, Pruned(store, live), history[i], history[..i])
  {
    hide Prunes, ManifestFor, Pruned;
    var m := ManifestFor(p, store, history[i]).value;
    CommitStays(p, store, topo, maxDepth, history, files, live, i);
    forall name | name in m.groups && m.groups[name].Delta?
      ensures EntryDepthMatches(p, Pruned(store, live), m.groups[name])
    {
      var k :| 0 <= k < i && history[k] == m.groups[name].base;
      CommitStays(p, store, topo, maxDepth, history, files, live, k);
    }
  }

  lemma LaidDownStays(p: Prims, store: Store, topo: Topology, maxDepth: nat, history: seq<Oid>, files: seq<File>,
      live: set<Oid>, i: nat, input: Input, file: File)
    requires Prunes(p, store, topo, maxDepth, history, files, live) && i < |history|
    requires LaidDown(p, store, topo, history[i], input, file)
    ensures LaidDown(p, Pruned(store, live), topo, history[i], input, file)
  {
    hide Prunes, ManifestFor, GetCommit, Pruned, Holds, Parses;
    CommitStays(p, store, topo, maxDepth, history, files, live, i);
    PrunedKeys(store, live);
  }

  // ------------------------------------------------------------- the branch

  /** A prune from the tip keeps the branch: every commit holds its checkpoint and its file, with all it rests on. */
  lemma PruneKeepsBranch(p: Prims, store: Store, topo: Topology, maxDepth: nat, history: seq<Oid>, files: seq<File>,
      inputs: seq<Input>, live: set<Oid>)
    requires Prunes(p, store, topo, maxDepth, history, files, live)
        && InputsHold(p, store, topo, history, files, inputs)
    requires Addressed(p, store)
    ensures HistoryHolds(p, Pruned(store, live), topo, maxDepth, history, files)
    ensures InputsHold(p, Pruned(store, live), topo, history, files, inputs) && Addressed(p, Pruned(store, live))
  {
    hide *;
    PrunesLive(p, store, topo, maxDepth, history, files, live);
    AddressedStays(p, store, live);
    InputsSize(p, store, topo, history, files, inputs);
    forall i | 0 <= i < |history| ensures Stands(p, Pruned(store, live), topo, maxDepth, history, files, i) {
      StandsStill(p, store, topo, maxDepth, history, files, live, i);
    }
    forall i | 0 <= i < |history| ensures LaidDown(p, Pruned(store, live), topo, history[i], inputs[i], files[i]) {
      InputOf(p, store, topo, history, files, inputs, i);
      LaidDownStays(p, store, topo, maxDepth, history, files, live, i, inputs[i], files[i]);
    }
    AllStand(p, Pruned(store, live), topo, maxDepth, history, files);
    AllLaidDown(p, Pruned(store, live), topo, history, files, inputs);
  }

  /** What the branch invariant says of one commit. */
  ghost predicate Stands(p: Prims, store: Store, topo: Topology, maxDepth: nat, history: seq<Oid>, files: seq<File>,
      i: nat)
    requires i < |history| == |files|
  {
    && Represents(p, store, topo, maxDepth, history[i], files[i])
    && Rooted(p, store, history[i], history[..i]) && Follows(p, store, history[i], history[..i])
  }

  lemma AllStand(p: Prims, store: Store, topo: Topology, maxDepth: nat, history: seq<Oid>, files: seq<File>)
    requires |history| == |files|
    requires forall i :: 0 <= i < |history| ==> Stands(p, store, topo, maxDepth, history, files, i)
    ensures HistoryHolds(p, store, topo, maxDepth, history, files)
  {
    hide Represents, Rooted, Follows;
    forall i | 0 <= i < |history|
      ensures Represents(p, store, topo, maxDepth, history[i], files[i])
      ensures Rooted(p, store, history[i], history[..i]) && Follows(p, store, history[i], history[..i])
    {
      assert Stands(p, store, topo, maxDepth, history, files, i);
    }
  }

  lemma AllLaidDown(p: Prims, store: Store, topo: Topology, history: seq<Oid>, files: seq<File>, inputs: seq<Input>)
    requires |history| == |files| == |inputs|
    requires forall i :: 0 <= i < |history| ==> LaidDown(p, store, topo, history[i], inputs[i], files[i])
    ensures InputsHold(p, store, topo, history, files, inputs)
  {
    hide LaidDown;
  }

  lemma InputsSize(p: Prims, store: Store, topo: Topology, history: seq<Oid>, files: seq<File>, inputs: seq<Input>)
    requires InputsHold(p, store, topo, history, files, inputs)
    ensures |history| == |files| == |inputs|
  {}

  lemma StandsStill(p: Prims, store: Store, topo: Topology, maxDepth: nat, history: seq<Oid>, files: seq<File>,
      live: set<Oid>, i: nat)
    requires Prunes(p, store, topo, maxDepth, history, files, live) && i < |history| == |files|
    ensures Stands(p, Pruned(store, live), topo, maxDepth, history, files, i)
  {
    assert Stands(p, store, topo, maxDepth, history, files, i) by {
      hide Represents, Rooted, Follows, IsLive;
    }
    hide Prunes, Pruned, Represents, Rooted, Follows;
    FollowsStays(p, store, topo, maxDepth, history, files, live, i);
    RepresentsStays(p, store, topo, maxDepth, history, files, live, i);
    RootedStays(p, store, topo, maxDepth, history, files, live, i);
  }

  lemma AddressedStays(p: Prims, store: Store, live: set<Oid>)
    requires Addressed(p, store)
    ensures Addressed(p, Pruned(store, live))
  {}

  lemma FollowsStays(p: Prims, store: Store, topo: Topology, maxDepth: nat, history: seq<Oid>, files: seq<File>,
      live: set<Oid>, i: nat)
    requires Prunes(p, store, topo, maxDepth, history, files, live) && i < |history|
    requires Follows(p, store, history[i], history[..i])
    ensures Follows(p, Pruned(store, live), history[i], history[..i])
  {
    hide Prunes, Pruned, GetCommit;
    CommitStays(p, store, topo, maxDepth, history, files, live, i);
  }

  /** No commit that the tip reaches is unreadable. */
  lemma NothingBroken(p: Prims, store: Store, topo: Topology, maxDepth: nat, history: seq<Oid>, files: seq<File>,
      c: Oid)
    requires HistoryHolds(p, store, topo, maxDepth, history, files) && Reachable(p, store, Tips(history), c)
    ensures ManifestFor(p, store, c).Ok?
  {
    hide ManifestFor, Readable, SelfContained, Follows, Rooted;
    ReachableIsHistory(p, store, topo, maxDepth, history, files, c);
    var i :| 0 <= i < |history| && history[i] == c;
    assert Represents(p, store, topo, maxDepth, history[i], files[i]);
  }

  /** gc on a repository: it always succeeds, deletes what the branch does not reach, and leaves a valid repository
      with the same commits. */
  method CollectGarbage(repo: Repo, all: seq<Oid>) returns (failed: Option<Error>)
    requires repo.Valid() && forall o :: o in all <==> o in repo.blocks.objects
    modifies repo.blocks
    ensures failed.None? && repo.Valid()
    ensures repo.history != [] ==>
      exists live :: IsLive(repo.p, old(repo.blocks.objects), Tips(repo.history), live)
        && repo.blocks.objects == Pruned(old(repo.blocks.objects), live)
  {
    hide IsLive, Pruned, Lawful, Addressed, HistoryHolds, InputsHold, Reachable, ManifestFor;
    ghost var start := repo.blocks.objects;
    var tips := if repo.history == [] then [] else [repo.history[|repo.history| - 1]];
    failed := Prune(repo.p, repo.blocks, tips, all);
    if failed.Some? {
      ghost var c :| Reachable(repo.p, start, tips, c) && ManifestFor(repo.p, start, c).Err?;
      NothingBroken(repo.p, start, repo.topo, repo.cfg.maxChainDepth, repo.history, repo.files, c);
    } else if tips != [] {
      ghost var live :| IsLive(repo.p, start, tips, live) && repo.blocks.objects == Pruned(start, live);
      PruneKeepsBranch(repo.p, start, repo.topo, repo.cfg.maxChainDepth, repo.history, repo.files, repo.inputs, live);
    }
  }
}
