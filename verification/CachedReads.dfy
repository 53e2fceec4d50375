/** Mounted reads on top of the frame cache (SynapseFs::read in modules/mount/src/fs.cpp over
    modules/mount/src/blockcache.cpp): in every run of the cache, whatever was filled, shared, evicted and filled
    again, reads succeed and are exact. */
module CachedReads {
  import opened Common
  import opened Records
  import opened Intervals
  import opened CacheModel
  import opened CacheRuns
  import opened MountedFile

  /** True of a frame: these are the bytes its fill callback reads. */
  ghost predicate IsFrame(p: Prims, fs: Mount, hops: nat, key: Key, data: seq<Byte>) {
    FrameBytesOf(p, fs, hops, key).Ok? && data == FrameBytesOf(p, fs, hops, key).value.out
  }

  ghost function FrameTruth(p: Prims, fs: Mount, hops: nat): (Key, seq<Byte>) -> bool {
    (key, data) => IsFrame(p, fs, hops, key, data)
  }

  /** The fill callback of this key reports an error. */
  ghost function FrameFails(p: Prims, fs: Mount, hops: nat): Key -> bool {
    key => FrameBytesOf(p, fs, hops, key).Err?
  }

  /** The fills of the run are the mount's: one is published with what its callback read, and reported as failed only
      when that read fails. */
  ghost predicate FillsFrames(p: Prims, fs: Mount, hops: nat, run: seq<State>, actions: seq<Action>)
    requires |run| == |actions| + 1
  {
    forall k :: 0 <= k < |actions| ==>
      && PublishesTruth(run[k], actions[k], FrameTruth(p, fs, hops))
      && ReportsJustly(run[k], actions[k], FrameFails(p, fs, hops))
  }

  /** A live lease on the key shows these bytes. */
  ghost predicate Shows(s: State, token: nat, key: Key, bytes: seq<Byte>) {
    && token in s.pins && s.pins[token].Lease? && s.pins[token].id in s.heap
    && s.heap[s.pins[token].id].key == key && s.heap[s.pins[token].id].data == bytes
  }

  ghost predicate ShownIn(run: seq<State>, key: Key, bytes: seq<Byte>) {
    exists i, token :: 0 <= i < |run| && Shows(run[i], token, key, bytes)
  }

  /** The key's entry has failed at some point. */
  ghost predicate FailedIn(run: seq<State>, key: Key) {
    exists i, id :: 0 <= i < |run| && id in run[i].heap && run[i].heap[id].failed && run[i].heap[id].key == key
  }

  /** The calls of a read of n bytes from `offset` are answered by this run: bytes are those of a live lease, an error
      comes from a failed entry. */
  ghost predicate AnsweredBy(fs: Mount, run: seq<State>, leases: Leases, offset: nat, n: nat) {
    && (forall step: nat, key :: leases(step, key).Ok? ==> ShownIn(run, key, leases(step, key).value))
    && (forall step: nat, key :: Needed(fs, offset, n, key) && leases(step, key).Err? ==> FailedIn(run, key))
  }

  /** Whatever the cache shows on a live lease, at any point of any run, is the frame of its key. */
  lemma RunIsTruthful(p: Prims, fs: Mount, hops: nat, budget: nat, run: seq<State>, actions: seq<Action>,
      leases: Leases, offset: nat, n: nat)
    requires IsRun(budget, run, actions) && FillsFrames(p, fs, hops, run, actions)
    requires AnsweredBy(fs, run, leases, offset, n)
    ensures Truthful(p, fs, hops, leases)
  {
    hide FrameBytesOf, IsRun, FillsFrames;
    forall step: nat, key | leases(step, key).Ok? ensures IsFrame(p, fs, hops, key, leases(step, key).value) {
      var i, token :| 0 <= i < |run| && Shows(run[i], token, key, leases(step, key).value);
      LeaseShowsFrame(p, fs, hops, budget, run, actions, i, token, key, leases(step, key).value);
    }
  }

  lemma LeaseShowsFrame(p: Prims, fs: Mount, hops: nat, budget: nat, run: seq<State>, actions: seq<Action>, i: nat,
      token: nat, key: Key, bytes: seq<Byte>)
    requires IsRun(budget, run, actions) && FillsFrames(p, fs, hops, run, actions) && i < |run|
        && Shows(run[i], token, key, bytes)
    ensures IsFrame(p, fs, hops, key, bytes)
  {
    hide IsRun, FrameBytesOf, PublishesTruth, ReportsJustly, IsFrame, Honest;
    HonestRun(budget, run, actions, i, FrameTruth(p, fs, hops));
    LeaseIsSound(run[i], token);
    assert LeaseBytes(run[i], token) == bytes;
    assert FrameTruth(p, fs, hops)(key, bytes);
  }

  /** An entry of a frame that can be read is never marked failed. */
  lemma NeverFails(p: Prims, fs: Mount, hops: nat, budget: nat, run: seq<State>, actions: seq<Action>, key: Key)
    requires IsRun(budget, run, actions) && FillsFrames(p, fs, hops, run, actions)
    requires FrameBytesOf(p, fs, hops, key).Ok?
    ensures !FailedIn(run, key)
  {
    hide IsRun, FrameBytesOf, PublishesTruth, ReportsJustly;
    forall i, id | 0 <= i < |run| && id in run[i].heap && run[i].heap[id].failed ensures run[i].heap[id].key != key {
      JustRun(budget, run, actions, i, FrameFails(p, fs, hops));
      assert FrameFails(p, fs, hops)(run[i].heap[id].key);
    }
  }

  /** No call for a frame of a readable file is ever refused. */
  lemma RunRefusesNothing(p: Prims, fs: Mount, hops: nat, header: seq<Byte>, contents: Contents, budget: nat,
      run: seq<State>, actions: seq<Action>, leases: Leases, offset: nat, n: nat)
    requires Sound(p, fs, hops, header, contents)
    requires IsRun(budget, run, actions) && FillsFrames(p, fs, hops, run, actions)
    requires AnsweredBy(fs, run, leases, offset, n)
    ensures !Refused(fs, leases, offset, n)
  {
    hide IsRun, FrameBytesOf, Sound, Needed, ShownIn, FailedIn, FillsFrames;
    forall step: nat, key | Needed(fs, offset, n, key) ensures leases(step, key).Ok? {
      NeededIsServed(p, fs, hops, header, contents, offset, n, key);
      NeverFails(p, fs, hops, budget, run, actions, key);
    }
  }

  /** SynapseFs::read in any run of the cache succeeds, with exactly the slice of the streamed file. */
  method ReadThroughCache(p: Prims, fs: Mount, offset: nat, out: seq<Byte>, leases: Leases, hops: nat,
      ghost header: seq<Byte>, ghost contents: Contents, ghost budget: nat, ghost run: seq<State>,
      ghost actions: seq<Action>)
    returns (r: Result<Got>)
    requires Sound(p, fs, hops, header, contents)
    requires IsRun(budget, run, actions) && FillsFrames(p, fs, hops, run, actions)
    requires AnsweredBy(fs, run, leases, offset, |out|)
    ensures Supplied(fs.ctx.manifest.buffer, contents)
    ensures r == Ok(Clip(File(fs, header, contents), offset, out))
  {
    hide *;
    RunIsTruthful(p, fs, hops, budget, run, actions, leases, offset, |out|);
    RunRefusesNothing(p, fs, hops, header, contents, budget, run, actions, leases, offset, |out|);
    TableCovers(p, fs, hops, header, contents);
    r := Read(p, fs, offset, out, leases, hops, header, contents);
  }

  lemma TableCovers(p: Prims, fs: Mount, hops: nat, header: seq<Byte>, contents: Contents)
    requires Sound(p, fs, hops, header, contents)
    ensures Covers(fs.table)
  {
    hide Describes;
    DescribedCovers(fs.table, fs.ctx.manifest);
  }
}
