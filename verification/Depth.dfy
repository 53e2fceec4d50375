/** Chain depth: verify's check (modules/store/src/verify.cpp) makes the recorded depth the exact length of the chain,
    so the reader's recursion ends after that many hops. */
module Depth {
  import opened Common
  import opened Records
  import opened Reader
  import opened Locality

  /** Check (7) of verify on one manifest: every base group exists and is one hop shallower. */
  predicate DepthsMatch(p: Prims, store: Store, m: Manifest) {
    forall name :: name in m.groups && m.groups[name].Delta? ==> EntryDepthMatches(p, store, m.groups[name])
  }

  predicate EntryDepthMatches(p: Prims, store: Store, e: GroupEntry)
    requires e.Delta?
  {
    && ManifestFor(p, store, e.base).Ok?
    && e.baseGroup in ManifestFor(p, store, e.base).value.groups
    && e.depth == ManifestFor(p, store, e.base).value.groups[e.baseGroup].ChainDepth() + 1
  }

  /** Every commit in the set passed the check, and the set holds the base of every delta in it. */
  ghost predicate Verified(p: Prims, store: Store, commits: set<Oid>) {
    forall c :: c in commits ==>
      && ManifestFor(p, store, c).Ok?
      && DepthsMatch(p, store, ManifestFor(p, store, c).value)
      && BasesIn(ManifestFor(p, store, c).value, commits)
  }

  ghost predicate BasesIn(m: Manifest, commits: set<Oid>) {
    forall name :: name in m.groups && m.groups[name].Delta? ==> m.groups[name].base in commits
  }

  /** The entry reached from `e` by following k delta bases; None when the chain ends before. */
  function Follow(p: Prims, store: Store, e: GroupEntry, k: nat): Option<GroupEntry>
    decreases k
  {
    if k == 0 then Some(e) else
    if e.Full? || !EntryDepthMatches(p, store, e) then None else
    Follow(p, store, ManifestFor(p, store, e.base).value.groups[e.baseGroup], k - 1)
  }

  /** The chain has exactly ChainDepth() hops: each is one shallower, and the last entry is Full. */
  lemma {:induction false} ChainLength(p: Prims, store: Store, commits: set<Oid>, c: Oid, name: string, k: nat)
    requires Verified(p, store, commits) && c in commits && name in ManifestFor(p, store, c).value.groups
    requires k <= ManifestFor(p, store, c).value.groups[name].ChainDepth()
    ensures var e := ManifestFor(p, store, c).value.groups[name];
      && Follow(p, store, e, k).Some?
      && Follow(p, store, e, k).value.ChainDepth() == e.ChainDepth() - k
      && (Follow(p, store, e, k).value.Full? <==> k == e.ChainDepth())
    decreases k
  {
    hide ManifestFor;
    var m := ManifestFor(p, store, c).value;
    var e := m.groups[name];
    assert DepthsMatch(p, store, m) && BasesIn(m, commits);
    if k > 0 {
      ChainLength(p, store, commits, e.base, e.baseGroup, k - 1);
    } else if e.Delta? {
      assert EntryDepthMatches(p, store, e);
    }
  }

  /** A read has one answer for every budget of at least the recorded depth: that many hops are enough. */
  lemma {:induction false} DepthSuffices(p: Prims, ctx: Ctx, commits: set<Oid>, c: Oid, name: string, off: nat,
      out: seq<Byte>, h1: nat, h2: nat)
    requires Verified(p, ctx.store, commits) && c in commits && ManifestFor(p, ctx.store, c) == Ok(ctx.manifest)
    requires name in ctx.manifest.groups ==>
        ctx.manifest.groups[name].ChainDepth() <= h1 && ctx.manifest.groups[name].ChainDepth() <= h2
    ensures ReadRange(p, ctx, name, off, out, h1) == ReadRange(p, ctx, name, off, out, h2)
    decreases h1, 0
  {
    hide *;
    if name !in ctx.manifest.groups || ctx.manifest.groups[name].Full? {
      NoHops(p, ctx, name, off, out, h1, h2);
    } else {
      var m := NextHop(p, ctx.store, commits, c, ctx.manifest, name);
      var e := ctx.manifest.groups[name];
      BasesSame(p, ctx.(manifest := m), commits, e.base, e.baseGroup, h1 - 1, h2 - 1);
      SameHops(p, ctx, name, e, m, off, out, h1, h2);
    }
  }

  lemma {:induction false} BasesSame(p: Prims, ctx: Ctx, commits: set<Oid>, c: Oid, name: string, h1: nat, h2: nat)
    requires Verified(p, ctx.store, commits) && c in commits && ManifestFor(p, ctx.store, c) == Ok(ctx.manifest)
    requires name in ctx.manifest.groups ==>
        ctx.manifest.groups[name].ChainDepth() <= h1 && ctx.manifest.groups[name].ChainDepth() <= h2
    ensures SameReads(RangeOf(p, ctx, name, h1), RangeOf(p, ctx, name, h2))
    decreases h1, 1
  {
    var a, b := RangeOf(p, ctx, name, h1), RangeOf(p, ctx, name, h2);
    hide Verified, ManifestFor, ReadRange;
    forall o: nat, buf ensures a(o, buf) == b(o, buf) {
      DepthSuffices(p, ctx, commits, c, name, o, buf, h1, h2);
    }
  }

  lemma NextHop(p: Prims, store: Store, commits: set<Oid>, c: Oid, m: Manifest, name: string) returns (base: Manifest)
    requires Verified(p, store, commits) && c in commits && ManifestFor(p, store, c) == Ok(m)
    requires name in m.groups && m.groups[name].Delta?
    ensures m.groups[name].base in commits && ManifestFor(p, store, m.groups[name].base) == Ok(base)
    ensures m.groups[name].baseGroup in base.groups
    ensures base.groups[m.groups[name].baseGroup].ChainDepth() == m.groups[name].ChainDepth() - 1
  {
    hide ManifestFor;
    assert DepthsMatch(p, store, m) && BasesIn(m, commits);
    base := ManifestFor(p, store, m.groups[name].base).value;
  }

  lemma NoHops(p: Prims, ctx: Ctx, name: string, off: nat, out: seq<Byte>, h1: nat, h2: nat)
    requires name !in ctx.manifest.groups || ctx.manifest.groups[name].Full?
    ensures ReadRange(p, ctx, name, off, out, h1) == ReadRange(p, ctx, name, off, out, h2)
  {}

  lemma SameHops(p: Prims, ctx: Ctx, name: string, e: GroupEntry, m: Manifest, off: nat, out: seq<Byte>, h1: nat,
      h2: nat)
    requires name in ctx.manifest.groups && e == ctx.manifest.groups[name] && e.Delta? && h1 > 0 && h2 > 0
    requires ManifestFor(p, ctx.store, e.base) == Ok(m)
    requires SameReads(RangeOf(p, ctx.(manifest := m), e.baseGroup, h1 - 1),
        RangeOf(p, ctx.(manifest := m), e.baseGroup, h2 - 1))
    ensures ReadRange(p, ctx, name, off, out, h1) == ReadRange(p, ctx, name, off, out, h2)
  {
    hide ReadTensor, ManifestFor, SameReads;
    var bctx := ctx.(manifest := m);
    var art := GetDiff(p, ctx.store, e.diff);
    if art.Ok? && FindTensor(art.value.header.tensors, name).Some? {
      TensorSame(p, ctx, ctx, art.value, FindTensor(art.value.header.tensors, name).value,
                 RangeOf(p, bctx, e.baseGroup, h1 - 1), RangeOf(p, bctx, e.baseGroup, h2 - 1), off, out);
    }
  }

  // ------------------------------------------------------------- policy

  datatype Decision = StoreDelta | FullNoBase | FullNotAlignable | FullChainTooDeep | FullDeltaTooLarge

  datatype SnapshotInputs = SnapshotInputs(hasBase: bool, alignable: bool, baseDepth: nat, deltaBytes: nat,
      fullBytes: nat)

  /** decide: the first reason against a delta, in the documented order. */
  function Decide(x: SnapshotInputs, maxChainDepth: nat, alpha: real): (d: Decision)
    ensures d.StoreDelta? <==>
      x.hasBase && x.alignable && x.baseDepth < maxChainDepth && x.deltaBytes as real <= alpha * x.fullBytes as real
    ensures d.FullChainTooDeep? <==> x.hasBase && x.alignable && maxChainDepth <= x.baseDepth
    ensures d.FullNotAlignable? <==> x.hasBase && !x.alignable
    ensures d.FullNoBase? <==> !x.hasBase
  {
    if !x.hasBase then FullNoBase else
    if !x.alignable then FullNotAlignable else
    if x.baseDepth + 1 > maxChainDepth then FullChainTooDeep else
    if x.deltaBytes as real > alpha * x.fullBytes as real then FullDeltaTooLarge else
    StoreDelta
  }

  /** What a snapshot adds to the store, and the depth it leaves for the next one. */
  function StoredBytes(x: SnapshotInputs, maxChainDepth: nat, alpha: real): nat {
    if Decide(x, maxChainDepth, alpha).StoreDelta? then x.deltaBytes else x.fullBytes
  }

  function DepthAfter(x: SnapshotInputs, maxChainDepth: nat, alpha: real): nat {
    if Decide(x, maxChainDepth, alpha).StoreDelta? then x.baseDepth + 1 else 0
  }

  /** Successive snapshots of one group, each on top of the one before. */
  ghost predicate Successive(xs: seq<SnapshotInputs>, maxChainDepth: nat, alpha: real) {
    forall i :: 0 < i < |xs| ==> xs[i].baseDepth == DepthAfter(xs[i - 1], maxChainDepth, alpha)
  }

  ghost function TotalStored(xs: seq<SnapshotInputs>, maxChainDepth: nat, alpha: real, n: nat): real
    requires n <= |xs|
  {
    if n == 0 then 0.0 else
        TotalStored(xs, maxChainDepth, alpha, n - 1) + StoredBytes(xs[n - 1], maxChainDepth, alpha) as real
  }

  ghost function TotalFull(xs: seq<SnapshotInputs>, n: nat): real
    requires n <= |xs|
  {
    if n == 0 then 0.0 else TotalFull(xs, n - 1) + xs[n - 1].fullBytes as real
  }

  /** While deltas follow each other the depth counts them. */
  lemma {:induction false} DepthCounts(xs: seq<SnapshotInputs>, maxChainDepth: nat, alpha: real, i: nat, n: nat)
    requires Successive(xs, maxChainDepth, alpha) && i + n < |xs|
    requires forall k :: i <= k <= i + n ==> Decide(xs[k], maxChainDepth, alpha).StoreDelta?
    ensures DepthAfter(xs[i + n], maxChainDepth, alpha) > n
  {
    if n > 0 {
      DepthCounts(xs, maxChainDepth, alpha, i, n - 1);
      assert xs[i + n].baseDepth == DepthAfter(xs[i + n - 1], maxChainDepth, alpha);
    }
  }

  /** One snapshot costs at most the larger of alpha and one times its full size. */
  lemma SnapshotCost(x: SnapshotInputs, maxChainDepth: nat, alpha: real)
    ensures StoredBytes(x, maxChainDepth, alpha)
         == if Decide(x, maxChainDepth, alpha).StoreDelta? then x.deltaBytes else x.fullBytes
    ensures alpha <= 1.0 ==> StoredBytes(x, maxChainDepth, alpha) <= x.fullBytes
    ensures alpha >= 1.0 ==> StoredBytes(x, maxChainDepth, alpha) as real <= Share(alpha, x.fullBytes as real)
  {
    hide Decide;
    if alpha <= 1.0 && Decide(x, maxChainDepth, alpha).StoreDelta? {
      Shrunk(x.deltaBytes, x.fullBytes, alpha);
    }
    if alpha >= 1.0 {
      Scaled(1.0, alpha, x.fullBytes as real);
    }
  }

  lemma Shrunk(small: nat, full: nat, alpha: real)
    requires small as real <= alpha * full as real && alpha <= 1.0
    ensures small <= full
  {
    Scaled(alpha, 1.0, full as real);
  }

  lemma Scaled(a: real, b: real, x: real)
    requires a <= b && x >= 0.0
    ensures a * x <= b * x
  {}

  lemma {:induction false} StoredAtMost(xs: seq<SnapshotInputs>, maxChainDepth: nat, alpha: real, n: nat)
    requires n <= |xs|
    ensures alpha <= 1.0 ==> TotalStored(xs, maxChainDepth, alpha, n) <= TotalFull(xs, n)
    ensures alpha >= 1.0 ==> TotalStored(xs, maxChainDepth, alpha, n) <= Share(alpha, TotalFull(xs, n))
  {
    if n > 0 {
      TotalsStep(xs, maxChainDepth, alpha, n);
      hide *;
      StoredAtMost(xs, maxChainDepth, alpha, n - 1);
      SnapshotCost(xs[n - 1], maxChainDepth, alpha);
      Distributes(alpha, TotalFull(xs, n - 1), xs[n - 1].fullBytes as real);
    }
  }

  lemma TotalsStep(xs: seq<SnapshotInputs>, maxChainDepth: nat, alpha: real, n: nat)
    requires 0 < n <= |xs|
    ensures TotalStored(xs, maxChainDepth, alpha, n)
         == TotalStored(xs, maxChainDepth, alpha, n - 1) + StoredBytes(xs[n - 1], maxChainDepth, alpha) as real
    ensures TotalFull(xs, n) == TotalFull(xs, n - 1) + xs[n - 1].fullBytes as real
  {}

  /** alpha times a size. */
  ghost function Share(alpha: real, size: real): real { alpha * size }

  lemma Distributes(a: real, x: real, y: real)
    ensures Share(a, x + y) == Share(a, x) + Share(a, y)
  {}

  ghost predicate SomeFull(xs: seq<SnapshotInputs>, maxChainDepth: nat, alpha: real) {
    exists k :: 0 <= k < |xs| && !Decide(xs[k], maxChainDepth, alpha).StoreDelta?
  }

  lemma DepthStays(x: SnapshotInputs, maxChainDepth: nat, alpha: real)
    ensures DepthAfter(x, maxChainDepth, alpha) <= maxChainDepth
  {}

  /** However long a group is snapshotted: its chains stay within the bound, every stretch of one more snapshot than
      the bound holds a full one, and all of it costs at most the factor alpha (or one) of storing every snapshot
      full. */
  lemma PolicyBoundsRuns(xs: seq<SnapshotInputs>, maxChainDepth: nat, alpha: real)
    requires Successive(xs, maxChainDepth, alpha)
    ensures forall i :: 0 <= i < |xs| ==> DepthAfter(xs[i], maxChainDepth, alpha) <= maxChainDepth
    ensures forall i, j :: 0 <= i < j <= |xs| && j - i > maxChainDepth ==> SomeFull(xs[i..j], maxChainDepth, alpha)
    ensures alpha <= 1.0 ==> TotalStored(xs, maxChainDepth, alpha, |xs|) <= TotalFull(xs, |xs|)
    ensures alpha >= 1.0 ==> TotalStored(xs, maxChainDepth, alpha, |xs|) <= alpha * TotalFull(xs, |xs|)
  {
    hide Decide, DepthAfter, TotalStored, TotalFull;
    forall i | 0 <= i < |xs| ensures DepthAfter(xs[i], maxChainDepth, alpha) <= maxChainDepth {
      DepthStays(xs[i], maxChainDepth, alpha);
    }
    forall i, j | 0 <= i < j <= |xs| && j - i > maxChainDepth ensures SomeFull(xs[i..j], maxChainDepth, alpha) {
      FullWithin(xs, maxChainDepth, alpha, i, j);
    }
    StoredAtMost(xs, maxChainDepth, alpha, |xs|);
  }

  lemma FullWithin(xs: seq<SnapshotInputs>, maxChainDepth: nat, alpha: real, i: nat, j: nat)
    requires Successive(xs, maxChainDepth, alpha) && i < j <= |xs| && j - i > maxChainDepth
    ensures SomeFull(xs[i..j], maxChainDepth, alpha)
  {
    hide Decide, DepthAfter;
    if !SomeFull(xs[i..j], maxChainDepth, alpha) {
      forall k | i <= k < j ensures Decide(xs[k], maxChainDepth, alpha).StoreDelta? {
        assert xs[k] == xs[i..j][k - i];
      }
      DepthCounts(xs, maxChainDepth, alpha, i, j - i - 1);
      DepthStays(xs[j - 1], maxChainDepth, alpha);
    }
  }
}
