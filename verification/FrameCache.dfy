/** The frame cache as an object (modules/mount/src/blockcache.cpp): each method is one section under the cache mutex,
    or, for MarkFailed, under the entry's fill mutex, and makes exactly the step of the model. Who holds what is ghost
    state. */
module FrameCache {
  import opened Common
  import opened Records
  import opened CacheModel
  import opened CacheProofs
  import opened CacheRuns

  datatype Outcome = Found(id: nat) | FoundFailed | MustWait(id: nat) | MustFill(id: nat)

  /** What a lookup tells its caller about the step it made. */
  ghost predicate LooksUp(s: State, t: State, k: Key, size: nat, token: nat, o: Outcome) {
    match o
    case Found(id) => Enabled(s, DoHit(k, token)) && t == Hit(s, k, token) && token in t.pins
        && t.pins[token] == Lease(id)
    case FoundFailed => Enabled(s, DoFailedLookup(k)) && t == s
    case MustWait(id) => Enabled(s, DoWait(k, token)) && t == Wait(s, k, token) && token in t.pins
        && t.pins[token] == Waiter(id)
    case MustFill(id) =>
      && Enabled(s, DoMiss(k, size, token)) && t == Miss(s, k, size, token)
      && token in t.fills && t.fills[token] == Running(id, k)
      && id in t.heap && t.heap[id] == Entry(k, Zeros(size), false, false, 0)
  }

  class Cache {
    const budget: nat
    var slots: map<Key, nat>
    var heap: map<nat, Entry>
    var lru: seq<Key>
    var resident: nat
    var next: nat
    ghost var pins: map<nat, Pin>
    ghost var fills: map<nat, Fill>
    ghost var wrote: map<nat, seq<Byte>>

    ghost function Now(): State
      reads this
    {
      State(budget, slots, heap, lru, resident, pins, fills, wrote, next)
    }

    constructor (budget: nat)
      ensures Inv(Now()) && Now() == State(budget, map[], map[], [], 0, map[], map[], map[], 0)
    {
      this.budget := budget;
      slots, heap, lru, resident, next := map[], map[], [], 0, 0;
      pins, fills, wrote := map[], map[], map[];
      new;
      Initially(budget);
    }

    method TakeHit(k: Key, id: nat, ghost token: nat)
      requires Inv(Now()) && Enabled(Now(), DoHit(k, token)) && slots[k] == id
      modifies this
      ensures Inv(Now()) && Now() == Hit(old(Now()), k, token) && token in pins && pins[token] == Lease(id)
    {
      hide Inv;
      HitKeeps(Now(), k, token);
      heap := heap[id := heap[id].(refcount := heap[id].refcount + 1)];
      lru := [k] + Without(lru, k);
      pins := pins[token := Lease(id)];
    }

    method JoinWait(k: Key, id: nat, ghost token: nat)
      requires Inv(Now()) && Enabled(Now(), DoWait(k, token)) && slots[k] == id
      modifies this
      ensures Inv(Now()) && Now() == Wait(old(Now()), k, token) && token in pins && pins[token] == Waiter(id)
    {
      hide Inv;
      WaitKeeps(Now(), k, token);
      heap := heap[id := heap[id].(refcount := heap[id].refcount + 1)];
      pins := pins[token := Waiter(id)];
    }

    method StartFill(k: Key, size: nat, ghost token: nat) returns (id: nat)
      requires Inv(Now()) && Enabled(Now(), DoMiss(k, size, token))
      modifies this
      ensures Inv(Now()) && Now() == Miss(old(Now()), k, size, token) && token in fills
          && fills[token] == Running(id, k) && id in heap && heap[id] == Entry(k, Zeros(size), false, false, 0)
    {
      hide Inv;
      MissKeeps(Now(), k, size, token);
      id := next;
      heap := heap[id := Entry(k, Zeros(size), false, false, 0)];
      lru := [k] + lru;
      slots := slots[k := id];
      next := next + 1;
      fills := fills[token := Running(id, k)];
    }

    /** The first section of get_or_fill: hit, failed, wait, or miss. */
    method Lookup(k: Key, size: nat, ghost token: nat) returns (o: Outcome)
      requires Inv(Now()) && Unused(Now(), token)
      modifies this
      ensures Inv(Now()) && LooksUp(old(Now()), Now(), k, size, token, o)
    {
      hide Inv, Hit, Wait, Miss;
      if k in slots {
        SlotIsLive(Now(), k);
        var id := slots[k];
        if heap[id].ready {
          TakeHit(k, id, token);
          o := Found(id);
        } else if heap[id].failed {
          o := FoundFailed;
        } else {
          JoinWait(k, id, token);
          o := MustWait(id);
        }
      } else {
        var id := StartFill(k, size, token);
        o := MustFill(id);
      }
    }

    /** evict_if_needed: scan from the tail, restart after every eviction. */
    method EvictIfNeeded()
      requires Inv(Now())
      modifies this
      ensures Now() == Evict(old(Now())) && Inv(Now()) && MadeRoom(Now()) && Spares(old(Now()), Now())
    {
      hide Inv, Evict, MadeRoom, Spares, Victim, EvictOne;
      ghost var start := Now();
      EvictKeeps(start);
      var i := |lru|;
      while resident > budget && i > 0
        invariant 0 <= i <= |lru| && Inv(Now()) && Evict(Now()) == Evict(start)
        invariant Victim(Now(), |lru|) == Victim(Now(), i)
        decreases |lru|, i
      {
        var k := lru[i - 1];
        LruIsLive(Now(), k);
        VictimUnfold(Now(), i);
        if heap[slots[k]].refcount != 0 || !heap[slots[k]].ready {
          i := i - 1;
        } else {
          EvictUnfold(Now(), k);
          RemoveVictim(k);
          i := |lru|;
        }
      }
      EvictStops(Now(), i);
    }

    /** Erase one unpinned, ready entry. */
    method RemoveVictim(k: Key)
      requires Inv(Now()) && Free(Now(), k)
      modifies this
      ensures Inv(Now()) && Now() == EvictOne(old(Now()), k)
    {
      hide Inv;
      EvictOneKeeps(Now(), k);
      var id := slots[k];
      BytesOf(Now(), id);
      lru := Without(lru, k);
      slots := slots - {k};
      resident := resident - |heap[id].data|;
      heap := heap - {id};
    }

    /** The fill callback writes the frame into its placeholder, outside the mutex. */
    method WriteFrame(id: nat, data: seq<Byte>, ghost token: nat)
      requires Inv(Now()) && token in fills && fills[token].Running? && fills[token].id == id
      requires id in heap && |data| == |heap[id].data|
      modifies this
      ensures Now() == FillWrite(old(Now()), token, data) && Inv(Now()) && id in heap && heap[id].data == data
    {
      hide Inv;
      WriteKeeps(Now(), token, data);
      heap := heap[id := heap[id].(data := data)];
    }

    /** The filler's last section: pin, publish, make room. */
    method PublishFrame(id: nat, ghost token: nat, ghost lease: nat)
      requires Inv(Now()) && token in fills && fills[token].Running? && fills[token].id == id && Unused(Now(), lease)
      modifies this
      ensures Now() == Publish(old(Now()), token, lease) && Inv(Now()) && MadeRoom(Now())
      ensures lease in pins && pins[lease] == Lease(id) && id in heap && heap[id].ready
    {
      hide Inv, Evict, MadeRoom;
      ghost var s := Now();
      RunningIsLive(s, token);
      PublishedKeeps(s, token, lease);
      var e := heap[id];
      resident := resident + |e.data|;
      heap := heap[id := e.(ready := true, refcount := e.refcount + 1)];
      pins, fills, wrote := pins[lease := Lease(id)], fills - {token}, wrote[id := e.data];
      assert Now() == Published(s, token, lease);
      EvictIfNeeded();
      LeaseSeen(Now(), lease);
    }

    /** The failed filler's last section. */
    method RemoveFailed(id: nat, k: Key, ghost token: nat)
      requires Inv(Now()) && token in fills && fills[token] == Failed(id, k)
      modifies this
      ensures Now() == Cleanup(old(Now()), token) && Inv(Now())
    {
      hide Inv;
      CleanupKeeps(Now(), token);
      if k in slots && slots[k] == id {
        SlotIsLive(Now(), k);
        if heap[id].refcount == 0 {
          lru := Without(lru, k);
          slots := slots - {k};
          heap := heap - {id};
        }
      }
      fills := fills - {token};
    }

    /** The filler reports an error to whoever waits. */
    method MarkFailed(id: nat, ghost token: nat)
      requires Inv(Now()) && token in fills && fills[token].Running? && fills[token].id == id
      modifies this
      ensures id in old(heap) && Now() == FillFail(old(Now()), token) && Inv(Now())
    {
      hide Inv;
      RunningIsLive(Now(), token);
      FailKeeps(Now(), token);
      heap := heap[id := heap[id].(failed := true)];
      fills := fills[token := Failed(id, fills[token].key)];
    }

    /** A waiter that wakes to a ready frame. */
    method WakeUp(id: nat, ghost token: nat)
      requires Inv(Now()) && token in pins && pins[token] == Waiter(id) && Enabled(Now(), DoWake(token))
      modifies this
      ensures Now() == Wake(old(Now()), token) && Inv(Now())
    {
      hide Inv;
      WakeKeeps(Now(), token);
      var k := heap[id].key;
      lru := [k] + Without(lru, k);
      pins := pins[token := Lease(id)];
    }

    /** release: drop a lease or a waiter's pin. */
    method Drop(id: nat, ghost token: nat)
      requires Inv(Now()) && token in pins && pins[token].id == id
      modifies this
      ensures id in old(heap) && old(heap)[id].refcount > 0 && Now() == Release(old(Now()), token) && Inv(Now())
    {
      hide Inv;
      PinHeld(Now(), token);
      ReleaseKeeps(Now(), token);
      var e := heap[id];
      heap := heap[id := e.(refcount := e.refcount - 1)];
      if e.refcount == 1 && e.failed {
        if e.key in slots && slots[e.key] == id {
          lru := Without(lru, e.key);
          slots := slots - {e.key};
          heap := heap - {id};
        }
      }
      pins := pins - {token};
    }

    /** What a lease shows: exactly the bytes of the entry's fill. */
    method LeaseView(id: nat, ghost token: nat) returns (bytes: seq<Byte>)
      requires Inv(Now()) && token in pins && pins[token] == Lease(id)
      ensures id in wrote && bytes == wrote[id]
    {
      LeaseIsSound(Now(), token);
      bytes := heap[id].data;
    }
  }

  lemma LeaseSeen(s: State, token: nat)
    requires Inv(s) && token in s.pins && s.pins[token].Lease?
    ensures s.pins[token].id in s.heap && s.heap[s.pins[token].id].ready
  {
    LeaseIsSound(s, token);
  }

  lemma VictimUnfold(s: State, n: nat)
    requires 0 < n <= |s.lru|
    ensures Victim(s, n) == if Free(s, s.lru[n - 1]) then Some(s.lru[n - 1]) else Victim(s, n - 1)
  {}

  lemma SlotIsLive(s: State, k: Key)
    requires Inv(s) && k in s.slots
    ensures s.slots[k] in s.heap && s.heap[s.slots[k]].key == k
  {
    assert SlotsOk(s.slots, s.heap);
  }

  lemma LruIsLive(s: State, k: Key)
    requires Inv(s) && k in s.lru
    ensures k in s.slots && s.slots[k] in s.heap && s.heap[s.slots[k]].key == k
  {
    assert SlotsOk(s.slots, s.heap) && LruOk(s.lru, s.slots);
  }

  lemma RunningIsLive(s: State, token: nat)
    requires Inv(s) && token in s.fills && s.fills[token].Running?
    ensures s.fills[token].id in s.heap
  {
    assert FillsOk(s.heap, s.fills);
  }

  lemma EvictUnfold(s: State, k: Key)
    requires s.resident > s.budget && Victim(s, |s.lru|) == Some(k) && s.heap[s.slots[k]].key == k
    ensures Free(s, k) && |EvictOne(s, k).lru| < |s.lru| && Evict(s) == Evict(EvictOne(s, k))
  {}

  lemma EvictStops(s: State, i: nat)
    requires i <= |s.lru| && Victim(s, |s.lru|) == Victim(s, i) && (s.resident <= s.budget || i == 0)
    ensures Evict(s) == s
  {}
}
