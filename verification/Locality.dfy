/** Which objects a read can touch: two stores that agree on a closed set of objects give the same reads. */
module Locality {
  import opened Common
  import opened Runs
  import opened Records
  import opened StoredPerm
  import opened Frames
  import opened Reader

  ghost predicate Agree(a: Store, b: Store, live: set<Oid>) {
    forall o :: o in live ==> (o in a <==> o in b) && (o in a ==> a[o] == b[o])
  }

  /** `live` holds every object that reads of this manifest may load within `hops` hops. */
  ghost predicate Closed(p: Prims, store: Store, live: set<Oid>, m: Manifest, hops: nat)
    decreases hops
  {
    forall name :: name in m.groups ==> EntryClosed(p, store, live, m.groups[name], hops)
  }

  ghost predicate EntryClosed(p: Prims, store: Store, live: set<Oid>, e: GroupEntry, hops: nat)
    decreases hops, 0
  {
    match e
    case Full(block) => block in live
    case Delta(base, _, diff, _) =>
      && diff in live && base in live
      && (GetCommit(p, store, base).Ok? ==> GetCommit(p, store, base).value.manifest in live)
      && (hops > 0 && ManifestFor(p, store, base).Ok? ==>
          Closed(p, store, live, ManifestFor(p, store, base).value, hops - 1))
  }

  // ------------------------------------------------------------- same base, same bytes

  ghost predicate SameReads(a: RangeReader, b: RangeReader) {
    forall off: nat, out :: a(off, out) == b(off, out)
  }

  lemma GatherSame(a: RangeReader, b: RangeReader, perm: seq<int>, first: nat, count: nat, ub: nat)
    requires SameReads(a, b) && (perm == [] || first + count <= |perm|)
    ensures GatherBase(a, perm, first, count, ub) == GatherBase(b, perm, first, count, ub)
  {
    forall f: int, c: nat ensures UnitsOf(a, ub)(f, c) == UnitsOf(b, ub)(f, c) {
      assert f >= 0 ==> 0 <= f * ub;
    }
    if perm != [] {
      FetchSame(UnitsOf(a, ub), UnitsOf(b, ub), DependencyRuns(perm, first, count), ub, Scratch([], map[]));
    } else {
      assert UnitsOf(a, ub)(first, count) == UnitsOf(b, ub)(first, count);
    }
  }

  lemma FrameSame(p: Prims, g: Plan, f: Frame, a: RangeReader, b: RangeReader)
    requires ValidPlan(g) && f.unitBegin <= f.unitEnd <= g.axis && SameReads(a, b)
    ensures FrameBytes(p, g, f, a) == FrameBytes(p, g, f, b)
  {
    hide ApplyResidual, GatherBase;
    GatherSame(a, b, g.rows, f.unitBegin, f.unitEnd - f.unitBegin, g.ub);
  }

  lemma {:induction false} FramesSame(p: Prims, g: Plan, frames: seq<Frame>, a: RangeReader, b: RangeReader, off: nat,
      acc: Got)
    requires ValidPlan(g) && SameReads(a, b)
    ensures ReadFrames(p, g, frames, a, off, acc) == ReadFrames(p, g, frames, b, off, acc)
  {
    if frames != [] {
      var f := frames[0];
      if f.unitBegin <= f.unitEnd <= g.axis {
        FrameSame(p, g, f, a, b);
      }
      hide FrameBytes;
      var next := ReadFrame(p, g, f, a, off, acc);
      assert next == ReadFrame(p, g, f, b, off, acc);
      if next.Ok? {
        FramesSame(p, g, frames[1..], a, b, off, next.value);
      }
    }
  }

  lemma TensorSame(p: Prims, c: Ctx, d: Ctx, art: Artifact, t: TensorDiff, a: RangeReader, b: RangeReader, off: nat,
      out: seq<Byte>)
    requires SameReads(a, b) && ResolveSecondary(p, c, t) == ResolveSecondary(p, d, t)
    ensures ReadTensor(p, c, art, t, a, off, out) == ReadTensor(p, d, art, t, b, off, out)
  {
    hide ResolveSecondary, ReadFrames;
    assert PlanTensor(p, c, art, t) == PlanTensor(p, d, art, t);
    var g := PlanTensor(p, c, art, t);
    if g.Ok? {
      FramesSame(p, g.value, t.frames, a, b, off, Got(0, out));
    }
  }

  lemma GetSame(p: Prims, a: Store, b: Store, live: set<Oid>, o: Oid)
    requires Agree(a, b, live) && o in live
    ensures GetDiff(p, a, o) == GetDiff(p, b, o) && GetManifest(p, a, o) == GetManifest(p, b, o)
        && GetCommit(p, a, o) == GetCommit(p, b, o)
    ensures GetHeader(p, a, o) == GetHeader(p, b, o)
    ensures forall off: nat, out :: ReadRaw(a, o, off, out) == ReadRaw(b, o, off, out)
  {}

  lemma SecondarySame(p: Prims, c: Ctx, d: Ctx, live: set<Oid>, t: TensorDiff, hops: nat)
    requires c.manifest == d.manifest && c.topology == d.topology
    requires Agree(c.store, d.store, live) && Closed(p, c.store, live, c.manifest, hops)
    ensures ResolveSecondary(p, c, t) == ResolveSecondary(p, d, t)
  {
    hide OwnerOf, SecondaryAxis, ReadPermutation, Agree;
    forall name | name in c.manifest.groups && c.manifest.groups[name].Delta?
      ensures GetDiff(p, c.store, c.manifest.groups[name].diff) == GetDiff(p, d.store, c.manifest.groups[name].diff)
    {
      assert EntryClosed(p, c.store, live, c.manifest.groups[name], hops);
      GetSame(p, c.store, d.store, live, c.manifest.groups[name].diff);
    }
  }

  lemma ManifestSame(p: Prims, a: Store, b: Store, live: set<Oid>, e: GroupEntry, hops: nat)
    requires Agree(a, b, live) && EntryClosed(p, a, live, e, hops) && e.Delta?
    ensures ManifestFor(p, a, e.base) == ManifestFor(p, b, e.base) && GetDiff(p, a, e.diff) == GetDiff(p, b, e.diff)
  {
    hide Agree;
    GetSame(p, a, b, live, e.base);
    GetSame(p, a, b, live, e.diff);
    if GetCommit(p, a, e.base).Ok? {
      GetSame(p, a, b, live, GetCommit(p, a, e.base).value.manifest);
    }
  }

  /** Stores that agree on a closed set give the same reads: values, counts and errors alike. */
  lemma {:induction false} ReadAgree(p: Prims, c: Ctx, d: Ctx, live: set<Oid>, group: string, off: nat,
      out: seq<Byte>, hops: nat)
    requires c.manifest == d.manifest && c.topology == d.topology && c.maxDepth == d.maxDepth
    requires Agree(c.store, d.store, live) && Closed(p, c.store, live, c.manifest, hops)
    ensures ReadRange(p, c, group, off, out, hops) == ReadRange(p, d, group, off, out, hops)
    decreases hops
  {
    if group in c.manifest.groups {
      var e := c.manifest.groups[group];
      assert EntryClosed(p, c.store, live, e, hops);
      if e.Full? {
        GetSame(p, c.store, d.store, live, e.block);
      } else {
        ManifestSame(p, c.store, d.store, live, e, hops);
        ReadDeltaAgree(p, c, d, live, group, off, out, hops);
      }
    }
  }

  lemma {:induction false} ReadDeltaAgree(p: Prims, c: Ctx, d: Ctx, live: set<Oid>, group: string, off: nat,
      out: seq<Byte>, hops: nat)
    requires c.manifest == d.manifest && c.topology == d.topology && c.maxDepth == d.maxDepth
    requires Agree(c.store, d.store, live) && Closed(p, c.store, live, c.manifest, hops)
    requires group in c.manifest.groups && c.manifest.groups[group].Delta?
    ensures ReadRange(p, c, group, off, out, hops) == ReadRange(p, d, group, off, out, hops)
    decreases hops, 0
  {
    var e := c.manifest.groups[group];
    ManifestSame(p, c.store, d.store, live, e, hops);
    var art, m := GetDiff(p, c.store, e.diff), ManifestFor(p, c.store, e.base);
    if hops > 0 && art.Ok? && m.Ok? && FindTensor(art.value.header.tensors, group).Some? {
      var t := FindTensor(art.value.header.tensors, group).value;
      var bc, bd := c.(manifest := m.value), d.(manifest := m.value);
      var a, b := RangeOf(p, bc, e.baseGroup, hops - 1), RangeOf(p, bd, e.baseGroup, hops - 1);
      forall o: nat, buf ensures a(o, buf) == b(o, buf) {
        ReadAgree(p, bc, bd, live, e.baseGroup, o, buf, hops - 1);
      }
      SecondarySame(p, c, d, live, t, hops);
      TensorSame(p, c, d, art.value, t, a, b, off, out);
    }
    hide ReadTensor, GetDiff, ManifestFor, FindTensor;
  }
}
