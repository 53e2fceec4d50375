/** The frame cache as a state machine (modules/mount/src/blockcache.cpp): one step per mutex section, any number of
    threads. Entries are known by ids that are never reused. */
module CacheModel {
  import opened Common
  import opened Records

  datatype Key = Key(artifact: Oid, tensor: nat, frame: nat)

  datatype Entry = Entry(key: Key, data: seq<Byte>, ready: bool, failed: bool, refcount: nat)

  /** A pin is a lease handed out, or a waiter queued behind a fill. */
  datatype Pin = Lease(id: nat) | Waiter(id: nat)

  /** A thread between its miss and its publication or clean-up. */
  datatype Fill = Running(id: nat, key: Key) | Failed(id: nat, key: Key)

  datatype State = State(
    budget: nat,
    slots: map<Key, nat>,
    heap: map<nat, Entry>,
    lru: seq<Key>,            // most recently used first
    resident: nat,
    pins: map<nat, Pin>,      // by token
    fills: map<nat, Fill>,    // by token
    wrote: map<nat, seq<Byte>>, // what the one successful fill of an entry left in it
    next: nat)

  // ------------------------------------------------------------- list of keys

  function Without(s: seq<Key>, k: Key): (r: seq<Key>)
    ensures forall x :: x in r <==> x in s && x != k
    ensures Distinct(s) ==> Distinct(r)
    ensures |r| <= |s| && (k in s ==> |r| < |s|)
  {
    if s == [] then [] else
      var n := |s| - 1;
      var rest := Without(s[..n], k);
      assert s == s[..n] + [s[n]];
      assert Distinct(s) ==> s[n] !in s[..n];
      assert Distinct(rest) && s[n] !in rest ==> Distinct(rest + [s[n]]);
      if s[n] == k then rest else rest + [s[n]]
  }

  // ------------------------------------------------------------- steps

  function Touch(s: State, k: Key): State {
    s.(lru := [k] + Without(s.lru, k))
  }

  function Pinned(s: State, id: nat, token: nat, pin: Pin): State
    requires id in s.heap
  {
    s.(heap := s.heap[id := s.heap[id].(refcount := s.heap[id].refcount + 1)], pins := s.pins[token := pin])
  }

  function Erase(s: State, id: nat): State
    requires id in s.heap
  {
    var k := s.heap[id].key;
    s.(slots := s.slots - {k}, heap := s.heap - {id}, lru := Without(s.lru, k))
  }

  /** A lookup that finds the frame ready. */
  function Hit(s: State, k: Key, token: nat): State
    requires k in s.slots && s.slots[k] in s.heap
  {
    Touch(Pinned(s, s.slots[k], token, Lease(s.slots[k])), k)
  }

  /** A lookup that finds a fill under way: pin first, wait after. */
  function Wait(s: State, k: Key, token: nat): State
    requires k in s.slots && s.slots[k] in s.heap
  {
    Pinned(s, s.slots[k], token, Waiter(s.slots[k]))
  }

  /** A lookup that finds nothing: this thread fills. */
  function Miss(s: State, k: Key, size: nat, token: nat): State {
    s.(slots := s.slots[k := s.next], heap := s.heap[s.next := Entry(k, Zeros(size), false, false, 0)],
       lru := [k] + s.lru, fills := s.fills[token := Running(s.next, k)], next := s.next + 1)
  }

  /** The callback writes into the placeholder. */
  function FillWrite(s: State, token: nat, data: seq<Byte>): State
    requires token in s.fills && s.fills[token].id in s.heap
  {
    var id := s.fills[token].id;
    s.(heap := s.heap[id := s.heap[id].(data := data)])
  }

  /** The callback reports an error. */
  function FillFail(s: State, token: nat): State
    requires token in s.fills && s.fills[token].id in s.heap
  {
    var f := s.fills[token];
    s.(heap := s.heap[f.id := s.heap[f.id].(failed := true)], fills := s.fills[token := Failed(f.id, f.key)])
  }

  /** The failed filler removes its placeholder unless somebody is pinned to it. */
  function Cleanup(s: State, token: nat): State
    requires token in s.fills
  {
    var f := s.fills[token];
    var t := s.(fills := s.fills - {token});
    if f.key in s.slots && s.slots[f.key] == f.id && f.id in s.heap && s.heap[f.id].refcount == 0 then
        Erase(t, f.id) else t
  }

  /** Evictable: unpinned and ready. */
  predicate Free(s: State, k: Key) {
    k in s.slots && s.slots[k] in s.heap && s.heap[s.slots[k]].refcount == 0 && s.heap[s.slots[k]].ready
  }

  /** The least recently used evictable key among the first n. */
  function Victim(s: State, n: nat): (r: Option<Key>)
    requires n <= |s.lru|
    ensures r.Some? ==> r.value in s.lru && Free(s, r.value)
    ensures r.None? ==> forall i :: 0 <= i < n ==> !Free(s, s.lru[i])
  {
    if n == 0 then None else if Free(s, s.lru[n - 1]) then Some(s.lru[n - 1]) else Victim(s, n - 1)
  }

  function EvictOne(s: State, k: Key): State
    requires Free(s, k)
  {
    var id := s.slots[k];
    var n := |s.heap[id].data|;
    Erase(s, id).(resident := if n <= s.resident then s.resident - n else 0)
  }

  /** The eviction pass. */
  function Evict(s: State): State
    decreases |s.lru|
  {
    var v := Victim(s, |s.lru|);
    if s.resident <= s.budget || v.None? || s.heap[s.slots[v.value]].key != v.value then s else
        Evict(EvictOne(s, v.value))
  }

  /** The filler pins its own lease, publishes, and makes room. */
  function Publish(s: State, token: nat, lease: nat): State
    requires token in s.fills && s.fills[token].id in s.heap
  {
    Evict(Published(s, token, lease))
  }

  function Published(s: State, token: nat, lease: nat): State
    requires token in s.fills && s.fills[token].id in s.heap
  {
    var id := s.fills[token].id;
    var e := s.heap[id];
    s.(heap := s.heap[id := e.(ready := true, refcount := e.refcount + 1)], resident := s.resident + |e.data|,
       pins := s.pins[lease := Lease(id)], fills := s.fills - {token}, wrote := s.wrote[id := e.data])
  }

  /** A waiter wakes to a ready frame: its pin becomes a lease. */
  function Wake(s: State, token: nat): State
    requires token in s.pins && s.pins[token].id in s.heap
  {
    var id := s.pins[token].id;
    Touch(s.(pins := s.pins[token := Lease(id)]), s.heap[id].key)
  }

  /** Drop a pin; the last one on a failed placeholder takes it away. */
  function Release(s: State, token: nat): State
    requires token in s.pins && s.pins[token].id in s.heap && s.heap[s.pins[token].id].refcount > 0
  {
    var id := s.pins[token].id;
    var e := s.heap[id];
    var t := s.(heap := s.heap[id := e.(refcount := e.refcount - 1)], pins := s.pins - {token});
    if e.refcount == 1 && e.failed && e.key in s.slots && s.slots[e.key] == id then Erase(t, id) else t
  }

  // ------------------------------------------------------------- runs

  datatype Action =
    | DoHit(k: Key, token: nat) | DoFailedLookup(k: Key) | DoWait(k: Key, token: nat) | DoMiss(k: Key, size: nat,
        token: nat)
    | DoWrite(token: nat, data: seq<Byte>) | DoFail(token: nat) | DoCleanup(token: nat) | DoPublish(token: nat,
        lease: nat)
    | DoWake(token: nat) | DoGiveUp(token: nat) | DoRelease(token: nat)

  ghost predicate Unused(s: State, token: nat) { token !in s.pins && token !in s.fills }

  /** When a thread may take this step. */
  ghost predicate Enabled(s: State, a: Action) {
    match a
    case DoHit(k, token) => Unused(s, token) && k in s.slots && s.slots[k] in s.heap && s.heap[s.slots[k]].ready
    case DoFailedLookup(k) => k in s.slots && s.slots[k] in s.heap && !s.heap[s.slots[k]].ready
        && s.heap[s.slots[k]].failed
    case DoWait(k, token) => Unused(s, token) && k in s.slots && s.slots[k] in s.heap && !s.heap[s.slots[k]].ready
        && !s.heap[s.slots[k]].failed
    case DoMiss(k, _, token) => Unused(s, token) && k !in s.slots
    case DoWrite(token, data) => token in s.fills && s.fills[token].Running? && s.fills[token].id in s.heap
        && |data| == |s.heap[s.fills[token].id].data|
    case DoFail(token) => token in s.fills && s.fills[token].Running? && s.fills[token].id in s.heap
    case DoCleanup(token) => token in s.fills && s.fills[token].Failed?
    case DoPublish(token, lease) => token in s.fills && s.fills[token].Running? && s.fills[token].id in s.heap
        && Unused(s, lease)
    case DoWake(token) => token in s.pins && s.pins[token].Waiter? && s.pins[token].id in s.heap
        && s.heap[s.pins[token].id].ready && !s.heap[s.pins[token].id].failed
    case DoGiveUp(token) => token in s.pins && s.pins[token].Waiter? && s.pins[token].id in s.heap
        && s.heap[s.pins[token].id].failed && s.heap[s.pins[token].id].refcount > 0
    case DoRelease(token) =>
      && token in s.pins && s.pins[token].Lease? && s.pins[token].id in s.heap
      && s.heap[s.pins[token].id].refcount > 0
  }
}
