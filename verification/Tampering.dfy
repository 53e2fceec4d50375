/** Damage is noticed (docs/threat_model.md): objects are hashed again when loaded and frames when rebuilt, so a read
    over a store in which anything may have changed gives the committed bytes or an error. */
module Tampering {
  import opened Common
  import opened Records
  import opened Frames
  import opened Reader
  import opened Sources
  import opened MountedFile
  import opened StFiles
  import opened Lifecycle
  import opened Repository

  /** No two byte strings share a frame digest. */
  ghost predicate CollisionFree(p: Prims) { forall x, y :: p.digest(x) == p.digest(y) ==> x == y }

  // ------------------------------------------------------------- objects

  /** An object loaded under the same address from two stores is the same object. */
  lemma LoadsAgree(p: Prims, a: Store, b: Store, oid: Oid)
    requires Lawful(p)
    ensures GetCommit(p, a, oid).Ok? && GetCommit(p, b, oid).Ok? ==> GetCommit(p, a, oid) == GetCommit(p, b, oid)
    ensures GetManifest(p, a, oid).Ok? && GetManifest(p, b, oid).Ok? ==>
        GetManifest(p, a, oid) == GetManifest(p, b, oid)
    ensures GetDiff(p, a, oid).Ok? && GetDiff(p, b, oid).Ok? ==> GetDiff(p, a, oid) == GetDiff(p, b, oid)
    ensures GetHeader(p, a, oid).Ok? && GetHeader(p, b, oid).Ok? ==> GetHeader(p, a, oid) == GetHeader(p, b, oid)
  {}

  lemma ManifestsAgree(p: Prims, a: Store, b: Store, commit: Oid)
    requires Lawful(p) && ManifestFor(p, a, commit).Ok? && ManifestFor(p, b, commit).Ok?
    ensures ManifestFor(p, a, commit) == ManifestFor(p, b, commit)
  {
    LoadsAgree(p, a, b, commit);
    LoadsAgree(p, a, b, GetCommit(p, a, commit).value.manifest);
    hide GetCommit, GetManifest;
  }

  // ------------------------------------------------------------- frames

  /** Whatever payload and base a frame is rebuilt from, there is one answer. */
  lemma FrameAgrees(p: Prims, g: Plan, h: Plan, f: Frame, a: RangeReader, b: RangeReader)
    requires CollisionFree(p) && ValidPlan(g) && ValidPlan(h) && f.unitBegin <= f.unitEnd <= g.axis == h.axis
    requires FrameBytes(p, g, f, a).Ok? && FrameBytes(p, h, f, b).Ok?
    ensures FrameBytes(p, g, f, a) == FrameBytes(p, h, f, b)
  {
    hide BaseOfFrame, ApplyResidual, ValidPlan;
  }

  lemma TurnAgrees(p: Prims, g: Plan, h: Plan, f: Frame, a: RangeReader, b: RangeReader, off: nat, acc: Got)
    requires CollisionFree(p) && ValidPlan(g) && ValidPlan(h) && g.axis == h.axis && g.ub == h.ub
    requires ReadFrame(p, g, f, a, off, acc).Ok? && ReadFrame(p, h, f, b, off, acc).Ok?
    ensures ReadFrame(p, g, f, a, off, acc) == ReadFrame(p, h, f, b, off, acc)
  {
    hide FrameBytes, ValidPlan, CollisionFree, Overwrite;
    if f.unitBegin <= f.unitEnd <= g.axis && FrameBytes(p, g, f, a).Ok? && FrameBytes(p, h, f, b).Ok? {
      FrameAgrees(p, g, h, f, a, b);
    }
  }

  lemma {:induction false} FramesAgree(p: Prims, g: Plan, h: Plan, frames: seq<Frame>, a: RangeReader, b: RangeReader,
      off: nat, acc: Got)
    requires CollisionFree(p) && ValidPlan(g) && ValidPlan(h) && g.axis == h.axis && g.ub == h.ub
    requires ReadFrames(p, g, frames, a, off, acc).Ok? && ReadFrames(p, h, frames, b, off, acc).Ok?
    ensures ReadFrames(p, g, frames, a, off, acc) == ReadFrames(p, h, frames, b, off, acc)
  {
    hide ReadFrame, ValidPlan, CollisionFree;
    if frames != [] {
      TurnAgrees(p, g, h, frames[0], a, b, off, acc);
      FramesAgree(p, g, h, frames[1..], a, b, off, ReadFrame(p, g, frames[0], a, off, acc).value);
    }
  }

  /** Two reads of one tensor description agree when both succeed, whatever artifact bytes, base, manifest and
      topology each is made over. */
  lemma TensorReadsAgree(p: Prims, c: Ctx, d: Ctx, x: Artifact, y: Artifact, t: TensorDiff, a: RangeReader,
      b: RangeReader, off: nat, out: seq<Byte>)
    requires CollisionFree(p)
    requires ReadTensor(p, c, x, t, a, off, out).Ok? && ReadTensor(p, d, y, t, b, off, out).Ok?
    ensures ReadTensor(p, c, x, t, a, off, out) == ReadTensor(p, d, y, t, b, off, out)
  {
    hide ExpandRows, ResolveSecondary, ReadFrames, CollisionFree;
    FramesAgree(p, PlanTensor(p, c, x, t).value, PlanTensor(p, d, y, t).value, t.frames, a, b, off, Got(0, out));
  }

  // ------------------------------------------------------------- ranged reads

  /** The raw block of a full entry, if it can be found at all, is the one that was stored. */
  ghost predicate BlockIntact(a: Store, b: Store, e: GroupEntry) {
    e.Full? ==> e.block in a && (e.block in b ==> b[e.block] == a[e.block])
  }

  /** The same entry read over two stores, with any topology and any base: one answer, or an error. */
  lemma EntryReadsAgree(p: Prims, c: Ctx, d: Ctx, name: string, off: nat, out: seq<Byte>, h: nat, k: nat)
    requires Lawful(p) && CollisionFree(p)
    requires c.manifest == d.manifest && name in c.manifest.groups
        && BlockIntact(c.store, d.store, c.manifest.groups[name])
    requires ReadRange(p, c, name, off, out, h).Ok? && ReadRange(p, d, name, off, out, k).Ok?
    ensures ReadRange(p, c, name, off, out, h) == ReadRange(p, d, name, off, out, k)
  {
    var e := c.manifest.groups[name];
    if e.Delta? {
      LoadsAgree(p, c.store, d.store, e.diff);
      var art := GetDiff(p, c.store, e.diff).value;
      var t := FindTensor(art.header.tensors, name).value;
      hide ReadTensor, GetDiff, ManifestFor, CollisionFree, Lawful, FindTensor;
      var m, n := ManifestFor(p, c.store, e.base).value, ManifestFor(p, d.store, e.base).value;
      TensorReadsAgree(p, c, d, art, art, t, RangeOf(p, c.(manifest := m), e.baseGroup, h - 1),
                       RangeOf(p, d.(manifest := n), e.baseGroup, k - 1), off, out);
    } else {
      hide ReadTensor, GetDiff, ManifestFor;
    }
  }

  /** However a store has been damaged, a read of a delta gives the committed slice or an error, and so does a read of
      a full tensor unless its own raw block has been changed. */
  lemma NoWrongBytes(p: Prims, good: Store, topo: Topology, maxDepth: nat, history: seq<Oid>,
      files: seq<Sources.File>, inputs: seq<Input>, i: nat, damaged: Ctx, name: string, off: nat, out: seq<Byte>,
      hops: nat)
    requires Lawful(p) && CollisionFree(p) && Addressed(p, good)
    requires HistoryHolds(p, good, topo, maxDepth, history, files)
        && InputsHold(p, good, topo, history, files, inputs) && i < |history| == |files| && name in files[i]
    requires ManifestFor(p, damaged.store, history[i]) == Ok(damaged.manifest)
    requires ReadRange(p, damaged, name, off, out, hops).Ok?
    ensures name in damaged.manifest.groups
    ensures BlockIntact(good, damaged.store, damaged.manifest.groups[name]) ==>
      ReadRange(p, damaged, name, off, out, hops) == Ok(Clip(files[i][name].bytes, off, out))
  {
    hide *;
    EveryReadIsExact(p, good, topo, maxDepth, history, files, inputs, i, name, off, out, maxDepth);
    ManifestsAgree(p, good, damaged.store, history[i]);
    Present(p, damaged, name, off, out, hops);
    CtxParts(p, good, history[i], maxDepth);
    if BlockIntact(good, damaged.store, damaged.manifest.groups[name]) {
      EntryReadsAgree(p, CommitCtx(p, good, history[i], maxDepth), damaged, name, off, out, maxDepth, hops);
    }
  }

  lemma CtxParts(p: Prims, store: Store, commit: Oid, maxDepth: nat)
    requires ManifestFor(p, store, commit).Ok?
    ensures CommitCtx(p, store, commit, maxDepth).store == store
        && CommitCtx(p, store, commit, maxDepth).manifest == ManifestFor(p, store, commit).value
  {}

  lemma Present(p: Prims, ctx: Ctx, name: string, off: nat, out: seq<Byte>, hops: nat)
    requires ReadRange(p, ctx, name, off, out, hops).Ok?
    ensures name in ctx.manifest.groups
  {}

  // ------------------------------------------------------------- whole files

  /** No raw block of the manifest has been changed. */
  ghost predicate BlocksIntact(a: Store, b: Store, m: Manifest) {
    forall name :: name in m.groups ==> BlockIntact(a, b, m.groups[name])
  }

  lemma {:induction false} EntryStreamsAgree(p: Prims, c: Ctx, d: Ctx, e: BufferEntry, h: nat, k: nat, done: nat)
    requires Lawful(p) && CollisionFree(p) && c.manifest == d.manifest && e.group in c.manifest.groups
    requires BlocksIntact(c.store, d.store, c.manifest)
    requires EntryStream(p, c, e, h, done).Ok? && EntryStream(p, d, e, k, done).Ok?
    ensures EntryStream(p, c, e, h, done) == EntryStream(p, d, e, k, done)
    decreases e.nbytes - done
  {
    hide EntryStream, ReadRange, Lawful, CollisionFree, BlockIntact, Prepend;
    EntryStreamStep(p, c, e, h, done);
    EntryStreamStep(p, d, e, k, done);
    if done < e.nbytes {
      var want := Min(StreamChunk, e.nbytes - done);
      EntryReadsAgree(p, c, d, e.group, done, Zeros(want), h, k);
      PrependOk(ReadRange(p, c, e.group, done, Zeros(want), h).value.out, EntryStream(p, c, e, h, done + want));
      PrependOk(ReadRange(p, d, e.group, done, Zeros(want), k).value.out, EntryStream(p, d, e, k, done + want));
      EntryStreamsAgree(p, c, d, e, h, k, done + want);
    }
  }

  lemma PrependOk(front: seq<Byte>, rest: Result<seq<Byte>>)
    ensures Prepend(front, rest).Ok? ==> rest.Ok?
  {}

  lemma {:induction false} DataStreamsAgree(p: Prims, c: Ctx, d: Ctx, h: nat, k: nat, i: nat)
    requires Lawful(p) && CollisionFree(p) && c.manifest == d.manifest && i <= |c.manifest.buffer|
    requires BlocksIntact(c.store, d.store, c.manifest)
    requires DataStream(p, c, h, i).Ok? && DataStream(p, d, k, i).Ok?
    ensures DataStream(p, c, h, i) == DataStream(p, d, k, i)
    decreases |c.manifest.buffer| - i
  {
    hide EntryStream, Lawful, CollisionFree, BlocksIntact;
    if i < |c.manifest.buffer| {
      EntryStreamsAgree(p, c, d, c.manifest.buffer[i], h, k, 0);
      DataStreamsAgree(p, c, d, h, k, i + 1);
    }
  }

  /** Checkout from a damaged store gives the committed file or an error, as long as no raw block that the manifest
      names has been changed. */
  lemma NoWrongCheckout(p: Prims, good: Store, topo: Topology, maxDepth: nat, history: seq<Oid>,
      files: seq<Sources.File>, inputs: seq<Input>, i: nat, damaged: Ctx, hops: nat)
    requires Lawful(p) && CollisionFree(p) && Addressed(p, good)
    requires HistoryHolds(p, good, topo, maxDepth, history, files)
        && InputsHold(p, good, topo, history, files, inputs) && i < |history| == |inputs|
    requires ManifestFor(p, damaged.store, history[i]) == Ok(damaged.manifest)
        && BlocksIntact(good, damaged.store, damaged.manifest)
    requires StreamOf(p, damaged, hops).Ok?
    ensures StreamOf(p, damaged, hops) == Ok(inputs[i].disk)
  {
    hide *;
    CheckoutIsExact(p, good, topo, maxDepth, history, files, inputs, i, maxDepth);
    ManifestsAgree(p, good, damaged.store, history[i]);
    CtxParts(p, good, history[i], maxDepth);
    StreamsAgree(p, CommitCtx(p, good, history[i], maxDepth), damaged, maxDepth, hops);
  }

  lemma StreamsAgree(p: Prims, c: Ctx, d: Ctx, h: nat, k: nat)
    requires Lawful(p) && CollisionFree(p) && c.manifest == d.manifest
        && BlocksIntact(c.store, d.store, c.manifest)
    requires StreamOf(p, c, h).Ok? && StreamOf(p, d, k).Ok?
    ensures StreamOf(p, c, h) == StreamOf(p, d, k)
  {
    hide GetHeader, DataStream, Lawful, CollisionFree, BlocksIntact;
    LoadsAgree(p, c.store, d.store, c.manifest.headerBlock);
    DataStreamsAgree(p, c, d, h, k, 0);
  }
}
