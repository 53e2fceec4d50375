/** Linear histories of planned commits (apps/sfs/cmd/commit.cpp over modules/store/src/commit_planner.cpp): every
    commit ever made reads back byte for byte. */
module History {
  import opened Common
  import opened Records
  import opened Reader
  import opened ReadBack
  import opened Sources
  import opened GroupEncoder
  import opened Planned
  import opened PlannedReads
  import opened Locality

  // ------------------------------------------------------------- the parent as a source

  /** CommitTensorSource::read_units: rows of a tensor through its own ranged read. */
  function ReadCommit(p: Prims, ctx: Ctx, metas: map<string, Meta>, hops: nat, name: string, first: nat, count: nat,
      out: seq<Byte>): Result<Got> {
    if name !in metas then Err(TensorNotInBufferLayout) else
      var ub :- UnitBytes(metas[name], 0);
      if |out| < count * ub then Err(Internal) else
        var got :- ReadRange(p, ctx, name, first * ub, out[..count * ub], hops);
        Ok(Got(got.n, got.out + out[count * ub..]))
  }

  function CommitSource(p: Prims, ctx: Ctx, metas: map<string, Meta>, hops: nat): Source {
    Source(metas, (name: string, first: nat, count: nat, out: seq<Byte>) => ReadCommit(p, ctx, metas, hops, name,
        first, count, out))
  }

  lemma WholeOut(out: seq<Byte>, n: nat)
    requires |out| == n
    ensures out[..n] == out && out[n..] == [] && forall s: seq<Byte> {:trigger s + out[n..]} :: s + out[n..] == s
  {
    forall s: seq<Byte> ensures s + out[n..] == s {
      assert s + [] == s;
    }
  }

  lemma ClipInside(bytes: seq<Byte>, lo: nat, out: seq<Byte>)
    requires lo + |out| <= |bytes|
    ensures Clip(bytes, lo, out) == Got(|out|, bytes[lo..lo + |out|])
  {
    assert Clip(bytes, lo, out).out == bytes[lo..lo + |out|];
  }

  lemma ReadCommitIs(p: Prims, ctx: Ctx, metas: map<string, Meta>, hops: nat, name: string, t: Tensor, first: nat,
      count: nat, out: seq<Byte>)
    requires t.Valid() && name in metas && metas[name] == t.Info() && Serves(p, ctx, name, t.bytes, hops)
    requires |out| == count * t.RowBytes()
        && 0 <= first * t.RowBytes() <= first * t.RowBytes() + count * t.RowBytes() <= |t.bytes|
    ensures ReadCommit(p, ctx, metas, hops, name, first, count, out)
         == Ok(Got(count * t.RowBytes(), t.bytes[first * t.RowBytes()..first * t.RowBytes() + count * t.RowBytes()]))
  {
    hide ReadRange, Clip, Tensor.RowBytes, Product;
    RowsOfTensor(t);
    assert ReadRange(p, ctx, name, first * t.RowBytes(), out, hops) == Ok(Clip(t.bytes, first * t.RowBytes(), out));
    hide Serves;
    WholeOut(out, count * t.RowBytes());
    ClipInside(t.bytes, first * t.RowBytes(), out);
  }

  lemma CommitSupplies(p: Prims, ctx: Ctx, metas: map<string, Meta>, hops: nat, name: string, t: Tensor)
    requires t.Valid() && name in metas && metas[name] == t.Info() && Serves(p, ctx, name, t.bytes, hops)
    ensures Supplies(CommitSource(p, ctx, metas, hops), name, t)
  {
    hide Serves, ReadCommit;
    var src, ub := CommitSource(p, ctx, metas, hops), t.RowBytes();
    forall first: nat, count: nat, out: seq<Byte> | |out| == count * ub
        && 0 <= first * ub <= first * ub + count * ub <= |t.bytes|
      ensures src.read(name, first, count, out) == Ok(Got(count * ub, t.bytes[first * ub..first * ub + count * ub]))
    {
      ReadCommitIs(p, ctx, metas, hops, name, t, first, count, out);
    }
  }

  // ------------------------------------------------------------- represented commits

  /** Reads of this tensor give exactly its bytes, with any budget of at least its chain depth and whatever order the
      reader's topology lists tensors in. */
  ghost predicate Readable(p: Prims, store: Store, topo: Topology, maxDepth: nat, m: Manifest, name: string,
      bytes: seq<Byte>)
    requires name in m.groups
  {
    forall t, h: nat :: SameTopology(topo, t) && h >= m.groups[name].ChainDepth() ==>
        Serves(p, Ctx(store, m, Some(t), maxDepth), name, bytes, h)
  }

  ghost predicate SelfContained(p: Prims, store: Store, m: Manifest) {
    forall h: nat :: Closed(p, store, store.Keys, m, h)
  }

  /** The commit holds exactly this checkpoint. */
  ghost predicate Represents(p: Prims, store: Store, topo: Topology, maxDepth: nat, commit: Oid, file: File) {
    && ManifestFor(p, store, commit).Ok?
    && var m := ManifestFor(p, store, commit).value;
    && SelfContained(p, store, m)
    && (forall name :: name in m.groups <==> name in file)
    && AllShaped(file) && (forall name :: name in file ==> m.groups[name].ChainDepth() <= maxDepth)
    && (forall name :: name in file ==> Readable(p, store, topo, maxDepth, m, name, file[name].bytes))
  }

  // ------------------------------------------------------------- stores only grow

  lemma AgreeOnOld(a: Store, b: Store)
    requires Grows(a, b)
    ensures Agree(a, b, a.Keys)
  {}

  lemma {:induction false} ClosedGrows(p: Prims, a: Store, b: Store, m: Manifest, h: nat)
    requires Grows(a, b) && Closed(p, a, a.Keys, m, h)
    ensures Closed(p, b, b.Keys, m, h)
    decreases h
  {
    AgreeOnOld(a, b);
    hide Agree, Grows, ManifestFor, GetCommit, GetDiff;
    forall name | name in m.groups ensures EntryClosed(p, b, b.Keys, m.groups[name], h) {
      var e := m.groups[name];
      assert EntryClosed(p, a, a.Keys, e, h);
      StaysPresent(a, b);
      if e.Delta? {
        ManifestSame(p, a, b, a.Keys, e, h);
        GetSame(p, a, b, a.Keys, e.base);
        if h > 0 && ManifestFor(p, a, e.base).Ok? {
          ClosedGrows(p, a, b, ManifestFor(p, a, e.base).value, h - 1);
        }
      }
    }
  }

  lemma StaysPresent(a: Store, b: Store)
    requires Grows(a, b)
    ensures a.Keys <= b.Keys
  {}

  lemma ManifestGrows(p: Prims, a: Store, b: Store, commit: Oid)
    requires Grows(a, b) && ManifestFor(p, a, commit).Ok?
    ensures ManifestFor(p, b, commit) == ManifestFor(p, a, commit)
  {}

  lemma ReadableGrows(p: Prims, a: Store, b: Store, topo: Topology, maxDepth: nat, m: Manifest, name: string,
      bytes: seq<Byte>)
    requires Grows(a, b) && name in m.groups && SelfContained(p, a, m) && Readable(p, a, topo, maxDepth, m, name, bytes)
    ensures Readable(p, b, topo, maxDepth, m, name, bytes)
  {
    AgreeOnOld(a, b);
    hide Agree, Closed, ReadRange, Grows, SameTopology;
    forall t, h: nat | SameTopology(topo, t) && h >= m.groups[name].ChainDepth()
      ensures Serves(p, Ctx(b, m, Some(t), maxDepth), name, bytes, h)
    {
      var c, d := Ctx(a, m, Some(t), maxDepth), Ctx(b, m, Some(t), maxDepth);
      assert Serves(p, c, name, bytes, h);
      forall off: nat, out ensures ReadRange(p, d, name, off, out, h) == Ok(Clip(bytes, off, out)) {
        ReadAgree(p, c, d, a.Keys, name, off, out, h);
      }
    }
  }

  lemma RepresentsGrows(p: Prims, a: Store, b: Store, topo: Topology, maxDepth: nat, commit: Oid, file: File)
    requires Grows(a, b) && Represents(p, a, topo, maxDepth, commit, file)
    ensures Represents(p, b, topo, maxDepth, commit, file)
  {
    ManifestGrows(p, a, b, commit);
    hide Grows, Readable, Closed, ManifestFor;
    var m := ManifestFor(p, a, commit).value;
    forall h: nat ensures Closed(p, b, b.Keys, m, h) {
      ClosedGrows(p, a, b, m, h);
    }
    forall name | name in file ensures Readable(p, b, topo, maxDepth, m, name, file[name].bytes) {
      ReadableGrows(p, a, b, topo, maxDepth, m, name, file[name].bytes);
    }
  }

  // ------------------------------------------------------------- a new commit

  /** The job of committing `file` on top of `parent`, which holds `prior`. */
  ghost predicate OnParent(p: Prims, store: Store, topo: Topology, j: Job, parent: Oid, prior: File) {
    && Represents(p, store, topo, j.maxDepth, parent, prior) && SameTopology(topo, j.topo) && j.prior == prior
    && forall name :: name in j.parents ==>
         && name in prior && name in ManifestFor(p, store, parent).value.groups
         && j.parents[name] == ParentInfo(parent, ManifestFor(p, store, parent).value.groups[name].ChainDepth())
  }

  /** Either there is no parent to lean on, or it is represented. */
  ghost predicate HasGround(p: Prims, store: Store, topo: Topology, j: Job, parent: Option<Oid>) {
    if parent.None? then j.parents == map[] && SameTopology(topo, j.topo) else
        OnParent(p, store, topo, j, parent.value, j.prior)
  }

  lemma NewReadable(p: Prims, store: Store, topo: Topology, j: Job, parent: Option<Oid>, m: Manifest,
      delta: set<string>, arts: map<string, Artifact>, name: string)
    requires Addressed(p, store) && IsPlanned(p, store, j, m.groups, delta, arts)
        && HasGround(p, store, topo, j, parent) && name in j.file
    ensures name in m.groups && m.groups[name].ChainDepth() <= j.maxDepth
    ensures Readable(p, store, topo, j.maxDepth, m, name, j.file[name].bytes)
  {
    hide Serves, ReadRange, JobFits, Represents, Addressed, ManifestFor, SameTopology, Member, HasGround;
    if InDelta(j, delta, name) {
      var g :| g in delta && Member(j.topo, name, g);
      assert GroupPlanned(p, store, j, m.groups, delta, g, arts[g]);
      assert DeltaEntry(p, j, m.groups, arts[g], name);
      forall t, h: nat | SameTopology(topo, t) && h >= m.groups[name].ChainDepth()
        ensures Serves(p, Ctx(store, m, Some(t), j.maxDepth), name, j.file[name].bytes, h)
      {
        NewDeltaServes(p, store, topo, j, parent, m, delta, arts, name, g, t, h);
      }
    } else {
      assert FullEntry(p, store, j, m.groups, name);
      forall t, h: nat | SameTopology(topo, t)
        ensures Serves(p, Ctx(store, m, Some(t), j.maxDepth), name, j.file[name].bytes, h)
      {
        FullServes(p, Ctx(store, m, Some(t), j.maxDepth), name, j.file[name].bytes, h);
      }
    }
  }

  lemma NewDeltaServes(p: Prims, store: Store, topo: Topology, j: Job, parent: Option<Oid>, m: Manifest,
      delta: set<string>, arts: map<string, Artifact>, name: string, g: string, t: Topology, h: nat)
    requires Addressed(p, store) && IsPlanned(p, store, j, m.groups, delta, arts)
        && HasGround(p, store, topo, j, parent) && name in j.file
    requires g in delta && Member(j.topo, name, g) && g in arts && DeltaEntry(p, j, m.groups, arts[g], name)
    requires SameTopology(topo, t) && h >= m.groups[name].ChainDepth()
    ensures Serves(p, Ctx(store, m, Some(t), j.maxDepth), name, j.file[name].bytes, h)
  {
    hide Serves, ReadRange, JobFits, Addressed, IsPlanned, DeltaEncodes, Member, ManifestFor, SelfContained;
    var ctx := Ctx(store, m, Some(t), j.maxDepth);
    var base := ManifestFor(p, store, parent.value).value;
    assert Readable(p, store, topo, j.maxDepth, base, name, j.prior[name].bytes);
    assert Serves(p, Ctx(store, base, Some(t), j.maxDepth), name, j.prior[name].bytes, h - 1);
    EntryServes(p, ctx, j, m.groups, delta, arts, name, g);
    DeltaServes(p, ctx, name, j.prior[name].bytes, j.file[name].bytes, h - 1);
  }

  lemma NewClosed(p: Prims, store: Store, topo: Topology, j: Job, parent: Option<Oid>, m: Manifest,
      delta: set<string>, arts: map<string, Artifact>)
    requires IsPlanned(p, store, j, m.groups, delta, arts) && HasGround(p, store, topo, j, parent)
    ensures SelfContained(p, store, m)
  {
    hide JobFits, Closed, Readable;
    forall h: nat ensures Closed(p, store, store.Keys, m, h) {
      forall name | name in m.groups ensures EntryClosed(p, store, store.Keys, m.groups[name], h) {
        EntryIsClosed(p, store, topo, j, parent, m, delta, arts, name, h);
      }
      ClosedIntro(p, store, m, h);
    }
  }

  lemma ClosedIntro(p: Prims, store: Store, m: Manifest, h: nat)
    requires forall name :: name in m.groups ==> EntryClosed(p, store, store.Keys, m.groups[name], h)
    ensures Closed(p, store, store.Keys, m, h)
  {}

  lemma EntryIsClosed(p: Prims, store: Store, topo: Topology, j: Job, parent: Option<Oid>, m: Manifest,
      delta: set<string>, arts: map<string, Artifact>, name: string, h: nat)
    requires IsPlanned(p, store, j, m.groups, delta, arts) && HasGround(p, store, topo, j, parent) && name in m.groups
    ensures EntryClosed(p, store, store.Keys, m.groups[name], h)
  {
    hide JobFits, Closed, Readable, ArtifactEncodes;
    if InDelta(j, delta, name) {
      var g :| g in delta && Member(j.topo, name, g);
      assert GroupPlanned(p, store, j, m.groups, delta, g, arts[g]);
      assert DeltaEntry(p, j, m.groups, arts[g], name);
      var base := ManifestFor(p, store, parent.value).value;
      assert SelfContained(p, store, base);
      if h > 0 {
        assert Closed(p, store, store.Keys, base, h - 1);
      }
    } else {
      assert FullEntry(p, store, j, m.groups, name);
    }
  }

  lemma NewRepresents(p: Prims, store: Store, topo: Topology, j: Job, parent: Option<Oid>, commit: Oid,
      delta: set<string>, arts: map<string, Artifact>)
    requires Addressed(p, store) && HasGround(p, store, topo, j, parent) && ManifestFor(p, store, commit).Ok?
    requires IsPlanned(p, store, j, ManifestFor(p, store, commit).value.groups, delta, arts)
    requires AllShaped(j.file)
    ensures Represents(p, store, topo, j.maxDepth, commit, j.file)
  {
    hide Readable, SelfContained, HasGround, ManifestFor, GroupPlanned, FullEntry, JobFits;
    var m := ManifestFor(p, store, commit).value;
    NewClosed(p, store, topo, j, parent, m, delta, arts);
    forall name | name in j.file
      ensures m.groups[name].ChainDepth() <= j.maxDepth
          && Readable(p, store, topo, j.maxDepth, m, name, j.file[name].bytes)
    {
      NewReadable(p, store, topo, j, parent, m, delta, arts, name);
    }
  }
}
