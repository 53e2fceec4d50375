/** Whole runs of the frame cache: the invariant holds after every step of every interleaving, and what follows from
    it. */
module CacheRuns {
  import opened Common
  import opened CacheModel
  import opened CacheProofs

  /** The state after a step. */
  ghost function Apply(s: State, a: Action): State
    requires Enabled(s, a)
  {
    match a
    case DoHit(k, token) => Hit(s, k, token)
    case DoFailedLookup(_) => s
    case DoWait(k, token) => Wait(s, k, token)
    case DoMiss(k, size, token) => Miss(s, k, size, token)
    case DoWrite(token, data) => FillWrite(s, token, data)
    case DoFail(token) => FillFail(s, token)
    case DoCleanup(token) => Cleanup(s, token)
    case DoPublish(token, lease) => Publish(s, token, lease)
    case DoWake(token) => Wake(s, token)
    case DoGiveUp(token) => Release(s, token)
    case DoRelease(token) => Release(s, token)
  }

  lemma PinHeld(s: State, token: nat)
    requires Inv(s) && token in s.pins
    ensures s.pins[token].id in s.heap && s.heap[s.pins[token].id].refcount > 0
  {
    PinCounts(s.pins, token);
    assert PinsOk(s.heap, s.pins) && CountsOk(s.heap, s.pins);
  }

  /** Every step of every thread keeps the invariant. */
  lemma StepKeeps(s: State, a: Action)
    requires Inv(s) && Enabled(s, a)
    ensures Inv(Apply(s, a))
  {
    hide Inv, Hit, Wait, Miss, FillWrite, FillFail, Cleanup, Published, Evict, Wake, Release;
    match a
    case DoHit(k, token) => HitKeeps(s, k, token);
    case DoFailedLookup(_) =>
    case DoWait(k, token) => WaitKeeps(s, k, token);
    case DoMiss(k, size, token) => MissKeeps(s, k, size, token);
    case DoWrite(token, data) => WriteKeeps(s, token, data);
    case DoFail(token) => FailKeeps(s, token);
    case DoCleanup(token) => CleanupKeeps(s, token);
    case DoPublish(token, lease) => PublishedKeeps(s, token, lease); EvictKeeps(Published(s, token, lease));
    case DoWake(token) => WakeKeeps(s, token);
    case DoGiveUp(token) => ReleaseKeeps(s, token);
    case DoRelease(token) => ReleaseKeeps(s, token);
  }

  lemma WaitKeeps(s: State, k: Key, token: nat)
    requires Inv(s) && token !in s.pins && k in s.slots && s.slots[k] in s.heap
    ensures Inv(Wait(s, k, token))
  {
    hide Inv;
    PinnedKeeps(s, s.slots[k], token, Waiter(s.slots[k]));
  }

  /** States and actions of a run from the empty cache, any thread taking any enabled step. */
  ghost predicate IsRun(budget: nat, run: seq<State>, actions: seq<Action>) {
    && |run| == |actions| + 1 && run[0] == State(budget, map[], map[], [], 0, map[], map[], map[], 0)
    && forall i :: 0 <= i < |actions| ==> Enabled(run[i], actions[i]) && run[i + 1] == Apply(run[i], actions[i])
  }

  lemma {:induction false} RunKeeps(budget: nat, run: seq<State>, actions: seq<Action>, i: nat)
    requires IsRun(budget, run, actions) && i < |run|
    ensures Inv(run[i])
  {
    hide Inv, Apply, Enabled;
    if i == 0 {
      Initially(budget);
    } else {
      RunKeeps(budget, run, actions, i - 1);
      StepKeeps(run[i - 1], actions[i - 1]);
      assert run[i - 1 + 1] == Apply(run[i - 1], actions[i - 1]);
    }
  }

  // ------------------------------------------------------------- what it means for a reader

  /** The bytes a lease shows. */
  ghost function LeaseBytes(s: State, token: nat): seq<Byte>
    requires Inv(s) && token in s.pins
  {
    PinHeld(s, token);
    s.heap[s.pins[token].id].data
  }

  /** A lease is on a ready entry, still in the map under its key, and shows what the entry's one fill wrote. */
  lemma LeaseIsSound(s: State, token: nat)
    requires Inv(s) && token in s.pins && s.pins[token].Lease?
    ensures s.pins[token].id in s.heap
    ensures var id := s.pins[token].id; var e := s.heap[id];
      && e.ready && e.key in s.slots && s.slots[e.key] == id && id in s.wrote && LeaseBytes(s, token) == s.wrote[id]
  {
    PinHeld(s, token);
    KeyHasSlot(s, s.pins[token].id);
    assert PinsOk(s.heap, s.pins) && DataOk(s.heap, s.wrote);
  }

  /** What a fill wrote is never rewritten. */
  lemma WroteOnce(s: State, a: Action, id: nat)
    requires Inv(s) && Enabled(s, a) && id in s.wrote
    ensures id in Apply(s, a).wrote && Apply(s, a).wrote[id] == s.wrote[id]
  {
    hide Inv, Evict, MadeRoom;
    if a.DoPublish? {
      FillIsFirst(s, a.token);
      PublishedKeeps(s, a.token, a.lease);
      EvictKeeps(Published(s, a.token, a.lease));
    }
  }

  lemma FillIsFirst(s: State, token: nat)
    requires Inv(s) && token in s.fills
    ensures s.fills[token].id !in s.wrote
  {
    assert IdsOk(s.heap, s.fills, s.wrote, s.next);
  }

  /** As long as a lease is held, no step of any thread changes what it shows. */
  lemma LeaseIsStable(s: State, a: Action, token: nat)
    requires Inv(s) && Enabled(s, a) && token in s.pins && s.pins[token].Lease?
    ensures Inv(Apply(s, a))
    ensures a != DoRelease(token) ==> token in Apply(s, a).pins && Apply(s, a).pins[token] == s.pins[token]
    ensures a != DoRelease(token) ==> LeaseBytes(Apply(s, a), token) == LeaseBytes(s, token)
  {
    StepKeeps(s, a);
    if a != DoRelease(token) {
      LeaseStays(s, a, token);
      LeaseIsSound(s, token);
      LeaseIsSound(Apply(s, a), token);
      WroteOnce(s, a, s.pins[token].id);
    }
  }

  lemma LeaseStays(s: State, a: Action, token: nat)
    requires Inv(s) && Enabled(s, a) && token in s.pins && s.pins[token].Lease? && a != DoRelease(token)
    ensures token in Apply(s, a).pins && Apply(s, a).pins[token] == s.pins[token]
  {
    hide Inv, Evict, MadeRoom;
    if a.DoPublish? {
      PublishedKeeps(s, a.token, a.lease);
      EvictKeeps(Published(s, a.token, a.lease));
    }
  }

  /** A pinned waiter's entry stays in the map until the waiter itself moves on. */
  lemma WaiterIsKept(s: State, token: nat)
    requires Inv(s) && token in s.pins && s.pins[token].Waiter?
    ensures s.pins[token].id in s.heap
    ensures var e := s.heap[s.pins[token].id]; e.key in s.slots && s.slots[e.key] == s.pins[token].id
  {
    PinHeld(s, token);
    KeyHasSlot(s, s.pins[token].id);
  }

  ghost function LeasesOn(s: State, id: nat): set<nat> { set t | t in s.pins && s.pins[t] == Lease(id) }
  ghost function WaitersOn(s: State, id: nat): set<nat> { set t | t in s.pins && s.pins[t] == Waiter(id) }

  /** The refcount of an entry is its live leases plus its waiters. */
  lemma RefcountIsUsers(s: State, id: nat)
    requires Inv(s) && id in s.heap
    ensures s.heap[id].refcount == |LeasesOn(s, id)| + |WaitersOn(s, id)|
  {
    assert CountsOk(s.heap, s.pins);
    hide Inv;
    PinsSplit(s, id);
  }

  lemma PinsSplit(s: State, id: nat)
    ensures |PinsOn(s.pins, id)| == |LeasesOn(s, id)| + |WaitersOn(s, id)|
  {
    var all, a, b := PinsOn(s.pins, id), LeasesOn(s, id), WaitersOn(s, id);
    forall t ensures t in all <==> t in a || t in b {}
    assert all == a + b && a !! b;
  }

  /** At most one fill per key is in progress. */
  lemma SingleFlight(s: State, t: nat, u: nat)
    requires Inv(s) && t in s.fills && u in s.fills && s.fills[t].Running? && s.fills[u].Running?
        && s.fills[t].key == s.fills[u].key
    ensures t == u
  {
    assert FillsOk(s.heap, s.fills);
    KeyHasSlot(s, s.fills[t].id);
    KeyHasSlot(s, s.fills[u].id);
  }

  /** A failed placeholder is gone once its filler has cleaned up and its last waiter has released. */
  lemma FailedIsGone(s: State, id: nat)
    requires Inv(s) && (forall t :: t in s.fills ==> s.fills[t].id != id)
        && (forall t :: t in s.pins ==> s.pins[t].id != id)
    ensures id in s.heap ==> s.heap[id].ready && !s.heap[id].failed
  {
    if id in s.heap {
      assert PendingOk(s.heap, s.fills) && CountsOk(s.heap, s.pins) && DataOk(s.heap, s.wrote);
      assert PinsOn(s.pins, id) == {};
      assert !BeingFilled(s.fills, id);
    }
  }

  /** After an eviction pass the total is within budget, or every remaining entry is pinned or filling. */
  lemma PublishMakesRoom(s: State, token: nat, lease: nat)
    requires Inv(s) && Enabled(s, DoPublish(token, lease))
    ensures MadeRoom(Publish(s, token, lease))
  {
    PublishedKeeps(s, token, lease);
    EvictKeeps(Published(s, token, lease));
  }

  /** Resident bytes are those of the ready entries, and the LRU list holds each key of the map once. */
  lemma Accounting(s: State)
    requires Inv(s)
    ensures s.resident == ReadyBytes(s.heap, s.next) && Distinct(s.lru) && forall k :: k in s.lru <==> k in s.slots
  {}

  // ------------------------------------------------------------- honest fills

  /** Every ready entry shows bytes that are true of its key. */
  ghost predicate Honest(s: State, truth: (Key, seq<Byte>) -> bool) {
    forall id :: id in s.heap && s.heap[id].ready ==> truth(s.heap[id].key, s.heap[id].data)
  }

  /** The step publishes nothing but what is true of its key. */
  ghost predicate PublishesTruth(s: State, a: Action, truth: (Key, seq<Byte>) -> bool) {
    a.DoPublish? && a.token in s.fills && s.fills[a.token].id in s.heap ==>
      truth(s.heap[s.fills[a.token].id].key, s.heap[s.fills[a.token].id].data)
  }

  /** Nothing new is ready, and what is shows the same. */
  ghost predicate Carries(s: State, t: State) {
    forall id :: id in t.heap && t.heap[id].ready ==>
      id in s.heap && s.heap[id].ready && t.heap[id].key == s.heap[id].key && t.heap[id].data == s.heap[id].data
  }

  lemma ReleaseCarries(s: State, token: nat)
    requires Inv(s) && token in s.pins && s.pins[token].id in s.heap && s.heap[s.pins[token].id].refcount > 0
    ensures Carries(s, Release(s, token))
  {
    hide Inv, Without;
  }

  lemma TouchCarries(s: State, k: Key, token: nat)
    requires k in s.slots && s.slots[k] in s.heap
    ensures Carries(s, Hit(s, k, token)) && Carries(s, Wait(s, k, token))
  {
    hide Without;
  }

  lemma MissCarries(s: State, k: Key, size: nat, token: nat)
    ensures Carries(s, Miss(s, k, size, token))
  {}

  lemma CleanupCarries(s: State, token: nat)
    requires token in s.fills
    ensures Carries(s, Cleanup(s, token))
  {
    hide Without;
  }

  lemma WakeCarries(s: State, token: nat)
    requires token in s.pins && s.pins[token].id in s.heap
    ensures Carries(s, Wake(s, token))
  {
    hide Without;
  }

  lemma FillingCarries(s: State, token: nat, data: seq<Byte>)
    requires Inv(s) && token in s.fills && s.fills[token].id in s.heap
    ensures Carries(s, FillWrite(s, token, data)) && Carries(s, FillFail(s, token))
  {
    hide Inv;
    NotPublished(s, token);
  }

  /** Only a publication makes something ready. */
  lemma OthersCarry(s: State, a: Action)
    requires Inv(s) && Enabled(s, a) && !a.DoPublish?
    ensures Carries(s, Apply(s, a))
  {
    hide Inv, Hit, Wait, Miss, FillWrite, FillFail, Cleanup, Publish, Wake, Release;
    match a
    case DoHit(k, token) => TouchCarries(s, k, token);
    case DoFailedLookup(_) =>
    case DoWait(k, token) => TouchCarries(s, k, token);
    case DoMiss(k, size, token) => MissCarries(s, k, size, token);
    case DoWrite(token, data) => FillingCarries(s, token, data);
    case DoFail(token) => FillingCarries(s, token, []);
    case DoCleanup(token) => CleanupCarries(s, token);
    case DoWake(token) => WakeCarries(s, token);
    case DoGiveUp(token) => ReleaseCarries(s, token);
    case DoRelease(token) => ReleaseCarries(s, token);
  }

  lemma HonestStep(s: State, a: Action, truth: (Key, seq<Byte>) -> bool)
    requires Inv(s) && Enabled(s, a) && Honest(s, truth) && PublishesTruth(s, a, truth)
    ensures Honest(Apply(s, a), truth)
  {
    hide Inv, Publish;
    if a.DoPublish? {
      HonestPublish(s, a.token, a.lease, truth);
    } else {
      OthersCarry(s, a);
      hide Apply, Enabled;
    }
  }

  lemma HonestPublish(s: State, token: nat, lease: nat, truth: (Key, seq<Byte>) -> bool)
    requires Inv(s) && Enabled(s, DoPublish(token, lease)) && Honest(s, truth)
    requires PublishesTruth(s, DoPublish(token, lease), truth)
    ensures Honest(Publish(s, token, lease), truth)
  {
    hide Inv, Evict, MadeRoom;
    PublishedKeeps(s, token, lease);
    EvictKeeps(Published(s, token, lease));
  }

  lemma NotPublished(s: State, token: nat)
    requires Inv(s) && token in s.fills && s.fills[token].id in s.heap
    ensures !s.heap[s.fills[token].id].ready
  {
    FillIs(s.heap, s.fills, token);
  }

  /** If every fill is truthful then so is every lease, whatever was evicted and filled again in between. */
  lemma {:induction false} HonestRun(budget: nat, run: seq<State>, actions: seq<Action>, i: nat,
      truth: (Key, seq<Byte>) -> bool)
    requires IsRun(budget, run, actions) && i < |run|
    requires forall k :: 0 <= k < |actions| ==> PublishesTruth(run[k], actions[k], truth)
    ensures Inv(run[i]) && Honest(run[i], truth)
    ensures forall token :: token in run[i].pins && run[i].pins[token].Lease? ==>
      run[i].pins[token].id in run[i].heap && truth(run[i].heap[run[i].pins[token].id].key, LeaseBytes(run[i], token))
  {
    hide Inv, Apply, Enabled, PublishesTruth;
    RunKeeps(budget, run, actions, i);
    if i > 0 {
      hide Honest;
      HonestRun(budget, run, actions, i - 1, truth);
      HonestStep(run[i - 1], actions[i - 1], truth);
      assert run[i - 1 + 1] == Apply(run[i - 1], actions[i - 1]);
    }
    HonestLeases(run[i], truth);
  }

  // ------------------------------------------------------------- failures

  /** A failed entry is one whose fill could not succeed. */
  ghost predicate FailsJustly(s: State, hopeless: Key -> bool) {
    forall id :: id in s.heap && s.heap[id].failed ==> hopeless(s.heap[id].key)
  }

  /** The step reports no failure but of a fill that could not succeed. */
  ghost predicate ReportsJustly(s: State, a: Action, hopeless: Key -> bool) {
    a.DoFail? && a.token in s.fills && s.fills[a.token].id in s.heap ==> hopeless(s.heap[s.fills[a.token].id].key)
  }

  lemma JustStep(s: State, a: Action, hopeless: Key -> bool)
    requires Inv(s) && Enabled(s, a) && FailsJustly(s, hopeless) && ReportsJustly(s, a, hopeless)
    ensures FailsJustly(Apply(s, a), hopeless)
  {
    hide Inv, Evict, MadeRoom;
    if a.DoPublish? {
      PublishedKeeps(s, a.token, a.lease);
      EvictKeeps(Published(s, a.token, a.lease));
    }
  }

  /** No entry ever fails whose fill can succeed. */
  lemma {:induction false} JustRun(budget: nat, run: seq<State>, actions: seq<Action>, i: nat, hopeless: Key -> bool)
    requires IsRun(budget, run, actions) && i < |run|
    requires forall k :: 0 <= k < |actions| ==> ReportsJustly(run[k], actions[k], hopeless)
    ensures FailsJustly(run[i], hopeless)
  {
    hide Inv, Apply, Enabled, ReportsJustly;
    if i > 0 {
      RunKeeps(budget, run, actions, i - 1);
      JustRun(budget, run, actions, i - 1, hopeless);
      hide FailsJustly;
      JustStep(run[i - 1], actions[i - 1], hopeless);
      assert run[i - 1 + 1] == Apply(run[i - 1], actions[i - 1]);
    }
  }

  lemma HonestLeases(s: State, truth: (Key, seq<Byte>) -> bool)
    requires Inv(s) && Honest(s, truth)
    ensures forall token :: token in s.pins && s.pins[token].Lease? ==>
      s.pins[token].id in s.heap && truth(s.heap[s.pins[token].id].key, LeaseBytes(s, token))
  {
    hide Inv;
    forall token | token in s.pins && s.pins[token].Lease?
      ensures s.pins[token].id in s.heap && truth(s.heap[s.pins[token].id].key, LeaseBytes(s, token))
    {
      LeaseIsSound(s, token);
    }
  }
}
