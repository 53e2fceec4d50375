/** What every interleaving of cache users keeps. */
module CacheProofs {
  import opened Common
  import opened Records
  import opened CacheModel

  // ------------------------------------------------------------- the invariant

  /** The map and the live entries name each other. */
  ghost predicate SlotsOk(slots: map<Key, nat>, heap: map<nat, Entry>) {
    && (forall k :: k in slots ==> slots[k] in heap && heap[slots[k]].key == k)
    && (forall id :: id in heap ==> heap[id].key in slots && slots[heap[id].key] == id)
  }

  /** Ids are handed out once. */
  ghost predicate IdsOk(heap: map<nat, Entry>, fills: map<nat, Fill>, wrote: map<nat, seq<Byte>>, next: nat) {
    && (forall id :: id in heap || id in wrote ==> id < next)
    && (forall t :: t in fills ==> fills[t].id < next && fills[t].id !in wrote)
  }

  /** The LRU list enumerates the keys of the map once each. */
  ghost predicate LruOk(lru: seq<Key>, slots: map<Key, nat>) {
    Distinct(lru) && forall k :: k in lru <==> k in slots
  }

  ghost function PinsOn(pins: map<nat, Pin>, id: nat): set<nat> {
    set t | t in pins && pins[t].id == id
  }

  /** An entry's refcount is its live leases plus its pinned waiters. */
  ghost predicate CountsOk(heap: map<nat, Entry>, pins: map<nat, Pin>) {
    forall id :: id in heap ==> heap[id].refcount == |PinsOn(pins, id)|
  }

  /** A leased or pinned entry is alive; a leased one is ready. */
  ghost predicate PinsOk(heap: map<nat, Entry>, pins: map<nat, Pin>) {
    forall t :: t in pins ==> pins[t].id in heap && (pins[t].Lease? ==> heap[pins[t].id].ready)
  }

  /** A ready entry holds what its fill wrote. */
  ghost predicate DataOk(heap: map<nat, Entry>, wrote: map<nat, seq<Byte>>) {
    forall id :: id in heap && heap[id].ready ==> !heap[id].failed && id in wrote && wrote[id] == heap[id].data
  }

  /** A fill works on its own unpublished placeholder. */
  ghost predicate FillsOk(heap: map<nat, Entry>, fills: map<nat, Fill>) {
    && (forall t :: t in fills && fills[t].Running? ==> fills[t].id in heap && !heap[fills[t].id].failed)
    && (forall t :: t in fills && fills[t].id in heap ==>
        heap[fills[t].id].key == fills[t].key && !heap[fills[t].id].ready)
    && (forall t :: t in fills && fills[t].Failed? && fills[t].id in heap ==> heap[fills[t].id].failed)
    && (forall t, u :: t in fills && u in fills && fills[t].id == fills[u].id ==> t == u)
  }

  ghost predicate BeingFilled(fills: map<nat, Fill>, id: nat) {
    exists t :: t in fills && fills[t].id == id
  }

  /** An unpublished placeholder has a fill behind it; a failed one a fill yet to clean up, or a pin. */
  ghost predicate PendingOk(heap: map<nat, Entry>, fills: map<nat, Fill>) {
    forall id :: id in heap && !heap[id].ready ==> BeingFilled(fills, id) || (heap[id].failed && heap[id].refcount > 0)
  }

  /** Bytes of the ready entries with ids below n. */
  ghost function ReadyBytes(heap: map<nat, Entry>, n: nat): nat {
    if n == 0 then 0 else ReadyBytes(heap, n - 1) + Weight(heap, n - 1)
  }

  ghost function Weight(heap: map<nat, Entry>, id: nat): nat {
    if id in heap && heap[id].ready then |heap[id].data| else 0
  }

  ghost predicate Inv(s: State) {
    && SlotsOk(s.slots, s.heap) && IdsOk(s.heap, s.fills, s.wrote, s.next) && LruOk(s.lru, s.slots)
        && CountsOk(s.heap, s.pins)
    && PinsOk(s.heap, s.pins) && DataOk(s.heap, s.wrote) && FillsOk(s.heap, s.fills) && PendingOk(s.heap, s.fills)
    && s.resident == ReadyBytes(s.heap, s.next)
  }

  lemma Initially(budget: nat)
    ensures Inv(State(budget, map[], map[], [], 0, map[], map[], map[], 0))
  {}

  // ------------------------------------------------------------- sums

  lemma {:induction false} SumSame(a: map<nat, Entry>, b: map<nat, Entry>, n: nat)
    requires forall id: nat :: id < n ==> Weight(a, id) == Weight(b, id)
    ensures ReadyBytes(a, n) == ReadyBytes(b, n)
  {
    if n > 0 {
      SumSame(a, b, n - 1);
    }
  }

  /** Only one entry changes its weight. */
  lemma {:induction false} SumChange(a: map<nat, Entry>, b: map<nat, Entry>, id: nat, n: nat)
    requires id < n && forall x: nat :: x < n && x != id ==> Weight(a, x) == Weight(b, x)
    ensures ReadyBytes(b, n) - Weight(b, id) == ReadyBytes(a, n) - Weight(a, id)
    ensures Weight(a, id) <= ReadyBytes(a, n)
  {
    if id == n - 1 {
      SumSame(a, b, n - 1);
    } else {
      SumChange(a, b, id, n - 1);
    }
  }

  // ------------------------------------------------------------- pins

  lemma PinAdded(pins: map<nat, Pin>, token: nat, pin: Pin, id: nat)
    requires token !in pins
    ensures |PinsOn(pins[token := pin], id)| == |PinsOn(pins, id)| + (if pin.id == id then 1 else 0)
  {
    var a, b := PinsOn(pins, id), PinsOn(pins[token := pin], id);
    if pin.id == id {
      assert b == a + {token};
    } else {
      assert b == a;
    }
  }

  lemma PinDropped(pins: map<nat, Pin>, token: nat, id: nat)
    requires token in pins
    ensures |PinsOn(pins - {token}, id)| == |PinsOn(pins, id)| - (if pins[token].id == id then 1 else 0)
  {
    var a, b := PinsOn(pins, id), PinsOn(pins - {token}, id);
    assert token !in b;
    if pins[token].id == id {
      assert forall t :: t in a <==> t in b || t == token;
      assert a == b + {token};
    } else {
      assert forall t :: t in a <==> t in b;
      assert b == a;
    }
  }

  lemma PinTurned(pins: map<nat, Pin>, token: nat, id: nat)
    requires token in pins
    ensures PinsOn(pins[token := Lease(pins[token].id)], id) == PinsOn(pins, id)
  {}

  lemma PinCounts(pins: map<nat, Pin>, t: nat)
    requires t in pins
    ensures |PinsOn(pins, pins[t].id)| >= 1
  {
    assert t in PinsOn(pins, pins[t].id);
  }

  /** A refcount of zero means nobody holds the entry. */
  lemma Unpinned(heap: map<nat, Entry>, pins: map<nat, Pin>, id: nat)
    requires CountsOk(heap, pins) && id in heap && heap[id].refcount == 0
    ensures forall t :: t in pins ==> pins[t].id != id
  {
    forall t | t in pins ensures pins[t].id != id {
      PinCounts(pins, t);
    }
  }

  // ------------------------------------------------------------- one entry changes

  lemma SlotsUpdate(slots: map<Key, nat>, heap: map<nat, Entry>, id: nat, e: Entry)
    requires SlotsOk(slots, heap) && id in heap && e.key == heap[id].key
    ensures SlotsOk(slots, heap[id := e])
  {}

  lemma IdsUpdate(heap: map<nat, Entry>, fills: map<nat, Fill>, wrote: map<nat, seq<Byte>>, next: nat, id: nat,
      e: Entry)
    requires IdsOk(heap, fills, wrote, next) && id in heap
    ensures IdsOk(heap[id := e], fills, wrote, next)
  {}

  lemma CountsUpdate(heap: map<nat, Entry>, pins: map<nat, Pin>, id: nat, e: Entry)
    requires CountsOk(heap, pins) && id in heap && e.refcount == heap[id].refcount
    ensures CountsOk(heap[id := e], pins)
  {
    hide PinsOn;
  }

  lemma PinsUpdate(heap: map<nat, Entry>, pins: map<nat, Pin>, id: nat, e: Entry)
    requires PinsOk(heap, pins) && id in heap && (heap[id].ready ==> e.ready)
    ensures PinsOk(heap[id := e], pins)
  {}

  lemma DataUpdate(heap: map<nat, Entry>, wrote: map<nat, seq<Byte>>, id: nat, e: Entry)
    requires DataOk(heap, wrote) && (e.ready ==> !e.failed && id in wrote && wrote[id] == e.data)
    ensures DataOk(heap[id := e], wrote)
  {}

  lemma FillsUpdate(heap: map<nat, Entry>, fills: map<nat, Fill>, id: nat, e: Entry)
    requires FillsOk(heap, fills) && id in heap && e.key == heap[id].key && e.ready == heap[id].ready
        && e.failed == heap[id].failed
    ensures FillsOk(heap[id := e], fills)
  {}

  lemma PendingUpdate(heap: map<nat, Entry>, fills: map<nat, Fill>, id: nat, e: Entry)
    requires PendingOk(heap, fills) && (e.ready || BeingFilled(fills, id) || (e.failed && e.refcount > 0))
    ensures PendingOk(heap[id := e], fills)
  {
    hide BeingFilled;
  }

  lemma BytesUpdate(heap: map<nat, Entry>, n: nat, id: nat, e: Entry)
    requires Weight(heap, id) == Weight(heap[id := e], id)
    ensures ReadyBytes(heap[id := e], n) == ReadyBytes(heap, n)
  {
    forall x: nat | x < n ensures Weight(heap, x) == Weight(heap[id := e], x) {}
    SumSame(heap, heap[id := e], n);
  }

  // ------------------------------------------------------------- pins

  lemma PinsAdd(heap: map<nat, Entry>, pins: map<nat, Pin>, token: nat, pin: Pin)
    requires PinsOk(heap, pins) && pin.id in heap && (pin.Lease? ==> heap[pin.id].ready)
    ensures PinsOk(heap, pins[token := pin])
  {}

  lemma CountsAdd(heap: map<nat, Entry>, pins: map<nat, Pin>, token: nat, pin: Pin, e: Entry)
    requires CountsOk(heap, pins) && pin.id in heap && token !in pins && e.refcount == heap[pin.id].refcount + 1
    ensures CountsOk(heap[pin.id := e], pins[token := pin])
  {
    hide PinsOn;
    var h, q := heap[pin.id := e], pins[token := pin];
    forall x | x in h ensures h[x].refcount == |PinsOn(q, x)| {
      PinAdded(pins, token, pin, x);
    }
  }

  lemma CountsDrop(heap: map<nat, Entry>, pins: map<nat, Pin>, token: nat, e: Entry)
    requires CountsOk(heap, pins) && token in pins && pins[token].id in heap
        && e.refcount == heap[pins[token].id].refcount - 1
    ensures CountsOk(heap[pins[token].id := e], pins - {token})
  {
    hide PinsOn;
    var h, q := heap[pins[token].id := e], pins - {token};
    forall x | x in h ensures h[x].refcount == |PinsOn(q, x)| {
      PinDropped(pins, token, x);
    }
  }

  lemma PinsDrop(heap: map<nat, Entry>, pins: map<nat, Pin>, token: nat)
    requires PinsOk(heap, pins)
    ensures PinsOk(heap, pins - {token})
  {}

  lemma PinnedKeeps(s: State, id: nat, token: nat, pin: Pin)
    requires Inv(s) && id in s.heap && token !in s.pins && pin.id == id && (pin.Lease? ==> s.heap[id].ready)
    ensures Inv(Pinned(s, id, token, pin))
  {
    hide SlotsOk, IdsOk, LruOk, CountsOk, PinsOk, DataOk, FillsOk, PendingOk, ReadyBytes;
    var e := s.heap[id].(refcount := s.heap[id].refcount + 1);
    SlotsUpdate(s.slots, s.heap, id, e);
    IdsUpdate(s.heap, s.fills, s.wrote, s.next, id, e);
    CountsAdd(s.heap, s.pins, token, pin, e);
    PinsUpdate(s.heap, s.pins, id, e);
    PinsAdd(s.heap[id := e], s.pins, token, pin);
    if e.ready {
      ReadyData(s.heap, s.wrote, id);
    }
    DataUpdate(s.heap, s.wrote, id, e);
    FillsUpdate(s.heap, s.fills, id, e);
    PendingStill(s.heap, s.fills, id);
    PendingUpdate(s.heap, s.fills, id, e);
    BytesUpdate(s.heap, s.next, id, e);
  }

  lemma ReadyData(heap: map<nat, Entry>, wrote: map<nat, seq<Byte>>, id: nat)
    requires DataOk(heap, wrote) && id in heap && heap[id].ready
    ensures !heap[id].failed && id in wrote && wrote[id] == heap[id].data
  {}

  lemma PendingStill(heap: map<nat, Entry>, fills: map<nat, Fill>, id: nat)
    requires PendingOk(heap, fills) && id in heap
    ensures heap[id].ready || BeingFilled(fills, id) || (heap[id].failed && heap[id].refcount > 0)
  {}

  lemma TouchKeeps(s: State, k: Key)
    requires Inv(s) && k in s.slots
    ensures Inv(Touch(s, k))
  {
    hide ReadyBytes, PinsOn, FillsOk, SlotsOk, IdsOk, DataOk, PendingOk, CountsOk, PinsOk;
    var rest := Without(s.lru, k);
    assert k !in rest;
  }

  lemma HitKeeps(s: State, k: Key, token: nat)
    requires Inv(s) && token !in s.pins && k in s.slots && s.slots[k] in s.heap && s.heap[s.slots[k]].ready
    ensures Inv(Hit(s, k, token))
  {
    hide Inv, Touch;
    PinnedKeeps(s, s.slots[k], token, Lease(s.slots[k]));
    TouchKeeps(Pinned(s, s.slots[k], token, Lease(s.slots[k])), k);
  }

  /** A waiter's pin becomes a lease. */
  lemma WakeKeeps(s: State, token: nat)
    requires Inv(s) && token in s.pins && s.pins[token].id in s.heap && s.heap[s.pins[token].id].ready
    ensures Inv(Wake(s, token))
  {
    hide SlotsOk, IdsOk, LruOk, DataOk, FillsOk, PendingOk, ReadyBytes, PinsOn;
    var id := s.pins[token].id;
    var q := s.pins[token := Lease(id)];
    forall x ensures PinsOn(q, x) == PinsOn(s.pins, x) { PinTurned(s.pins, token, x); }
    KeyHasSlot(s, id);
    assert Inv(s.(pins := q));
    hide Inv, Touch;
    TouchKeeps(s.(pins := q), s.heap[id].key);
  }

  lemma KeyHasSlot(s: State, id: nat)
    requires SlotsOk(s.slots, s.heap) && id in s.heap
    ensures s.heap[id].key in s.slots && s.slots[s.heap[id].key] == id
  {}

  // ------------------------------------------------------------- fills

  lemma FillsAdd(heap: map<nat, Entry>, fills: map<nat, Fill>, token: nat, f: Fill, e: Entry)
    requires FillsOk(heap, fills) && token !in fills && f.Running? && f.id !in heap
        && (forall t :: t in fills ==> fills[t].id != f.id)
    requires e.key == f.key && !e.ready && !e.failed
    ensures FillsOk(heap[f.id := e], fills[token := f])
  {}

  lemma PendingAdd(heap: map<nat, Entry>, fills: map<nat, Fill>, token: nat, f: Fill, e: Entry)
    requires PendingOk(heap, fills) && token !in fills
    ensures PendingOk(heap[f.id := e], fills[token := f])
  {
    var h, g := heap[f.id := e], fills[token := f];
    assert token in g && g[token].id == f.id;
    forall id | id in h && !h[id].ready ensures BeingFilled(g, id) || (h[id].failed && h[id].refcount > 0) {
      if id != f.id && BeingFilled(fills, id) {
        var u :| u in fills && fills[u].id == id;
        assert u in g && g[u].id == id;
      }
    }
  }

  lemma SlotsAdd(slots: map<Key, nat>, heap: map<nat, Entry>, k: Key, id: nat, e: Entry)
    requires SlotsOk(slots, heap) && k !in slots && id !in heap && e.key == k
    ensures SlotsOk(slots[k := id], heap[id := e])
  {}

  lemma CountsNew(heap: map<nat, Entry>, pins: map<nat, Pin>, id: nat, e: Entry)
    requires CountsOk(heap, pins) && PinsOk(heap, pins) && id !in heap && e.refcount == 0
    ensures CountsOk(heap[id := e], pins)
  {
    assert PinsOn(pins, id) == {};
    hide PinsOn;
  }

  lemma PinsNew(heap: map<nat, Entry>, pins: map<nat, Pin>, id: nat, e: Entry)
    requires PinsOk(heap, pins) && id !in heap
    ensures PinsOk(heap[id := e], pins)
  {}

  lemma IdsAdd(heap: map<nat, Entry>, fills: map<nat, Fill>, wrote: map<nat, seq<Byte>>, next: nat, token: nat,
      f: Fill, e: Entry)
    requires IdsOk(heap, fills, wrote, next) && f.id == next
    ensures next !in heap && next !in wrote && (forall t :: t in fills ==> fills[t].id != next)
    ensures IdsOk(heap[next := e], fills[token := f], wrote, next + 1)
  {}

  lemma BytesAdd(heap: map<nat, Entry>, n: nat, e: Entry)
    requires n !in heap && !e.ready
    ensures ReadyBytes(heap[n := e], n + 1) == ReadyBytes(heap, n)
  {
    forall x: nat | x < n ensures Weight(heap, x) == Weight(heap[n := e], x) {}
    SumSame(heap, heap[n := e], n);
  }

  lemma LruAdd(lru: seq<Key>, slots: map<Key, nat>, k: Key, id: nat)
    requires LruOk(lru, slots) && k !in slots
    ensures LruOk([k] + lru, slots[k := id])
  {}

  lemma MissKeeps(s: State, k: Key, size: nat, token: nat)
    requires Inv(s) && token !in s.fills && k !in s.slots
    ensures Inv(Miss(s, k, size, token))
  {
    hide SlotsOk, IdsOk, LruOk, CountsOk, PinsOk, DataOk, FillsOk, PendingOk, ReadyBytes;
    var e, f := Entry(k, Zeros(size), false, false, 0), Running(s.next, k);
    IdsAdd(s.heap, s.fills, s.wrote, s.next, token, f, e);
    SlotsAdd(s.slots, s.heap, k, s.next, e);
    LruAdd(s.lru, s.slots, k, s.next);
    CountsNew(s.heap, s.pins, s.next, e);
    PinsNew(s.heap, s.pins, s.next, e);
    DataUpdate(s.heap, s.wrote, s.next, e);
    FillsAdd(s.heap, s.fills, token, f, e);
    PendingAdd(s.heap, s.fills, token, f, e);
    BytesAdd(s.heap, s.next, e);
  }

  lemma FillIs(heap: map<nat, Entry>, fills: map<nat, Fill>, token: nat)
    requires FillsOk(heap, fills) && token in fills && fills[token].id in heap
    ensures
      var e := heap[fills[token].id];
      e.key == fills[token].key && !e.ready && (fills[token].Running? ==> !e.failed)
    ensures BeingFilled(fills, fills[token].id)
  {}

  lemma WriteKeeps(s: State, token: nat, data: seq<Byte>)
    requires Inv(s) && token in s.fills && s.fills[token].Running? && s.fills[token].id in s.heap
    ensures Inv(FillWrite(s, token, data))
  {
    hide SlotsOk, IdsOk, LruOk, CountsOk, PinsOk, DataOk, FillsOk, PendingOk, ReadyBytes, BeingFilled;
    var id := s.fills[token].id;
    var e := s.heap[id].(data := data);
    FillIs(s.heap, s.fills, token);
    SlotsUpdate(s.slots, s.heap, id, e);
    IdsUpdate(s.heap, s.fills, s.wrote, s.next, id, e);
    CountsUpdate(s.heap, s.pins, id, e);
    PinsUpdate(s.heap, s.pins, id, e);
    DataUpdate(s.heap, s.wrote, id, e);
    FillsUpdate(s.heap, s.fills, id, e);
    PendingUpdate(s.heap, s.fills, id, e);
    BytesUpdate(s.heap, s.next, id, e);
  }

  lemma FillsMark(heap: map<nat, Entry>, fills: map<nat, Fill>, token: nat, e: Entry)
    requires FillsOk(heap, fills) && token in fills && fills[token].id in heap
        && e == heap[fills[token].id].(failed := true)
    ensures FillsOk(heap[fills[token].id := e], fills[token := Failed(fills[token].id, fills[token].key)])
  {}

  lemma PendingMark(heap: map<nat, Entry>, fills: map<nat, Fill>, token: nat, e: Entry)
    requires PendingOk(heap, fills) && token in fills && fills[token].id in heap
        && e == heap[fills[token].id].(failed := true)
    ensures PendingOk(heap[fills[token].id := e], fills[token := Failed(fills[token].id, fills[token].key)])
  {
    var f := Failed(fills[token].id, fills[token].key);
    var h, g := heap[f.id := e], fills[token := f];
    assert token in g && g[token].id == f.id;
    forall id | id in h && !h[id].ready ensures BeingFilled(g, id) || (h[id].failed && h[id].refcount > 0) {
      if id != f.id && BeingFilled(fills, id) {
        var u :| u in fills && fills[u].id == id;
        assert u in g && g[u].id == id;
      }
    }
  }

  lemma IdsMark(heap: map<nat, Entry>, fills: map<nat, Fill>, wrote: map<nat, seq<Byte>>, next: nat, token: nat)
    requires IdsOk(heap, fills, wrote, next) && token in fills
    ensures IdsOk(heap, fills[token := Failed(fills[token].id, fills[token].key)], wrote, next)
  {}

  lemma FailKeeps(s: State, token: nat)
    requires Inv(s) && token in s.fills && s.fills[token].Running? && s.fills[token].id in s.heap
    ensures Inv(FillFail(s, token))
  {
    hide SlotsOk, IdsOk, LruOk, CountsOk, PinsOk, DataOk, FillsOk, PendingOk, ReadyBytes, BeingFilled;
    var id := s.fills[token].id;
    var e := s.heap[id].(failed := true);
    FillIs(s.heap, s.fills, token);
    SlotsUpdate(s.slots, s.heap, id, e);
    IdsUpdate(s.heap, s.fills, s.wrote, s.next, id, e);
    IdsMark(s.heap[id := e], s.fills, s.wrote, s.next, token);
    CountsUpdate(s.heap, s.pins, id, e);
    PinsUpdate(s.heap, s.pins, id, e);
    DataUpdate(s.heap, s.wrote, id, e);
    FillsMark(s.heap, s.fills, token, e);
    PendingMark(s.heap, s.fills, token, e);
    BytesUpdate(s.heap, s.next, id, e);
  }

  // ------------------------------------------------------------- an entry goes

  lemma SlotsErase(slots: map<Key, nat>, heap: map<nat, Entry>, id: nat)
    requires SlotsOk(slots, heap) && id in heap
    ensures SlotsOk(slots - {heap[id].key}, heap - {id})
  {}

  lemma LruErase(lru: seq<Key>, slots: map<Key, nat>, k: Key)
    requires LruOk(lru, slots)
    ensures LruOk(Without(lru, k), slots - {k})
  {}

  lemma CountsErase(heap: map<nat, Entry>, pins: map<nat, Pin>, id: nat)
    requires CountsOk(heap, pins)
    ensures CountsOk(heap - {id}, pins)
  {
    hide PinsOn;
  }

  lemma PinsErase(heap: map<nat, Entry>, pins: map<nat, Pin>, id: nat)
    requires PinsOk(heap, pins) && CountsOk(heap, pins) && id in heap && heap[id].refcount == 0
    ensures PinsOk(heap - {id}, pins)
  {
    Unpinned(heap, pins, id);
  }

  lemma FillsErase(heap: map<nat, Entry>, fills: map<nat, Fill>, id: nat)
    requires FillsOk(heap, fills) && forall t :: t in fills && fills[t].id == id ==> fills[t].Failed?
    ensures FillsOk(heap - {id}, fills)
  {}

  lemma PendingErase(heap: map<nat, Entry>, fills: map<nat, Fill>, id: nat)
    requires forall x :: x in heap && x != id && !heap[x].ready ==>
        BeingFilled(fills, x) || (heap[x].failed && heap[x].refcount > 0)
    ensures PendingOk(heap - {id}, fills)
  {
    hide BeingFilled;
  }

  lemma BytesErase(heap: map<nat, Entry>, n: nat, id: nat)
    requires id < n
    ensures ReadyBytes(heap - {id}, n) + Weight(heap, id) == ReadyBytes(heap, n)
  {
    var h := heap - {id};
    forall x: nat | x != id ensures Weight(heap, x) == Weight(h, x) {}
    assert Weight(h, id) == 0;
    SumChange(heap, h, id, n);
  }

  /** Everything but the pending-placeholder part, which an erasure repairs. */
  ghost predicate Almost(s: State) {
    && SlotsOk(s.slots, s.heap) && IdsOk(s.heap, s.fills, s.wrote, s.next) && LruOk(s.lru, s.slots)
        && CountsOk(s.heap, s.pins)
    && PinsOk(s.heap, s.pins) && DataOk(s.heap, s.wrote) && FillsOk(s.heap, s.fills)
    && s.resident == ReadyBytes(s.heap, s.next)
  }

  /** Dropping an entry that nobody holds and no running fill writes to. */
  lemma EraseKeeps(s: State, id: nat, resident: nat)
    requires Almost(s) && id in s.heap && s.heap[id].refcount == 0
    requires forall t :: t in s.fills && s.fills[t].id == id ==> s.fills[t].Failed?
    requires forall x :: x in s.heap && x != id && !s.heap[x].ready ==>
        BeingFilled(s.fills, x) || (s.heap[x].failed && s.heap[x].refcount > 0)
    requires resident + Weight(s.heap, id) == s.resident
    ensures Inv(Erase(s, id).(resident := resident))
  {
    hide SlotsOk, IdsOk, LruOk, CountsOk, PinsOk, DataOk, FillsOk, PendingOk, ReadyBytes, BeingFilled, Weight, Without;
    SlotsErase(s.slots, s.heap, id);
    IdsErase(s.heap, s.fills, s.wrote, s.next, id);
    LruErase(s.lru, s.slots, s.heap[id].key);
    CountsErase(s.heap, s.pins, id);
    PinsErase(s.heap, s.pins, id);
    DataErase(s.heap, s.wrote, id);
    FillsErase(s.heap, s.fills, id);
    PendingErase(s.heap, s.fills, id);
    BytesErase(s.heap, s.next, id);
  }

  lemma IdsErase(heap: map<nat, Entry>, fills: map<nat, Fill>, wrote: map<nat, seq<Byte>>, next: nat, id: nat)
    requires IdsOk(heap, fills, wrote, next) && id in heap
    ensures IdsOk(heap - {id}, fills, wrote, next) && id < next
  {}

  lemma DataErase(heap: map<nat, Entry>, wrote: map<nat, seq<Byte>>, id: nat)
    requires DataOk(heap, wrote)
    ensures DataOk(heap - {id}, wrote)
  {}

  // ------------------------------------------------------------- release

  lemma FailedFill(heap: map<nat, Entry>, fills: map<nat, Fill>, id: nat)
    requires FillsOk(heap, fills) && id in heap && (heap[id].failed || heap[id].ready)
    ensures forall t :: t in fills && fills[t].id == id ==> fills[t].Failed?
  {}

  lemma NotBoth(heap: map<nat, Entry>, wrote: map<nat, seq<Byte>>, id: nat)
    requires DataOk(heap, wrote) && id in heap && heap[id].failed
    ensures !heap[id].ready && Weight(heap, id) == 0
  {}

  lemma ReleaseKeeps(s: State, token: nat)
    requires Inv(s) && token in s.pins && s.pins[token].id in s.heap && s.heap[s.pins[token].id].refcount > 0
    ensures Inv(Release(s, token))
  {
    hide SlotsOk, IdsOk, LruOk, CountsOk, PinsOk, DataOk, FillsOk, PendingOk, ReadyBytes, BeingFilled, Weight, Erase;
    var id := s.pins[token].id;
    var e := s.heap[id].(refcount := s.heap[id].refcount - 1);
    SlotsUpdate(s.slots, s.heap, id, e);
    IdsUpdate(s.heap, s.fills, s.wrote, s.next, id, e);
    CountsDrop(s.heap, s.pins, token, e);
    PinsUpdate(s.heap, s.pins, id, e);
    PinsDrop(s.heap[id := e], s.pins, token);
    if e.ready {
      ReadyData(s.heap, s.wrote, id);
    }
    DataUpdate(s.heap, s.wrote, id, e);
    FillsUpdate(s.heap, s.fills, id, e);
    SameWeight(s.heap, id, e);
    BytesUpdate(s.heap, s.next, id, e);
    var t := s.(heap := s.heap[id := e], pins := s.pins - {token});
    assert Almost(t);
    PendingStill(s.heap, s.fills, id);
    KeyHasSlot(s, id);
    if e.refcount == 0 && e.failed {
      FailedFill(t.heap, t.fills, id);
      NotBoth(t.heap, t.wrote, id);
      OthersPending(s.heap, s.fills, id, e);
      EraseKeeps(t, id, t.resident);
      EraseAsIs(t, id);
    } else {
      PendingUpdate(s.heap, s.fills, id, e);
    }
  }

  lemma SameWeight(heap: map<nat, Entry>, id: nat, e: Entry)
    requires id in heap && e.ready == heap[id].ready && e.data == heap[id].data
    ensures Weight(heap, id) == Weight(heap[id := e], id)
  {}

  lemma EraseAsIs(t: State, id: nat)
    requires id in t.heap
    ensures Erase(t, id).(resident := t.resident) == Erase(t, id)
  {}

  lemma OthersPending(heap: map<nat, Entry>, fills: map<nat, Fill>, id: nat, e: Entry)
    requires PendingOk(heap, fills)
    ensures forall x :: x in heap[id := e] && x != id && !heap[id := e][x].ready ==>
      BeingFilled(fills, x) || (heap[id := e][x].failed && heap[id := e][x].refcount > 0)
  {
    hide BeingFilled;
  }

  // ------------------------------------------------------------- clean-up and publication

  lemma FillsDrop(heap: map<nat, Entry>, fills: map<nat, Fill>, token: nat)
    requires FillsOk(heap, fills)
    ensures FillsOk(heap, fills - {token})
  {}

  /** Other placeholders keep their fills when one fill ends. */
  lemma OthersFilled(heap: map<nat, Entry>, fills: map<nat, Fill>, token: nat)
    requires PendingOk(heap, fills) && token in fills
    ensures forall x :: x in heap && x != fills[token].id && !heap[x].ready ==>
      BeingFilled(fills - {token}, x) || (heap[x].failed && heap[x].refcount > 0)
  {
    forall x | x in heap && x != fills[token].id && !heap[x].ready
      ensures BeingFilled(fills - {token}, x) || (heap[x].failed && heap[x].refcount > 0)
    {
      if BeingFilled(fills, x) {
        var u :| u in fills && fills[u].id == x;
        assert u in fills - {token};
      }
    }
  }

  lemma CleanupKeeps(s: State, token: nat)
    requires Inv(s) && token in s.fills && s.fills[token].Failed?
    ensures Inv(Cleanup(s, token))
  {
    hide SlotsOk, IdsOk, LruOk, CountsOk, PinsOk, DataOk, FillsOk, PendingOk, ReadyBytes, BeingFilled, Weight, Erase;
    var f := s.fills[token];
    var t := s.(fills := s.fills - {token});
    IdsDrop(s.heap, s.fills, s.wrote, s.next, token);
    FillsDrop(s.heap, s.fills, token);
    OthersFilled(s.heap, s.fills, token);
    assert Almost(t);
    if f.id in s.heap {
      FillIs(s.heap, s.fills, token);
      KeyHasSlot(s, f.id);
      FailedIs(s.heap, s.fills, token);
      if s.heap[f.id].refcount == 0 {
        NotBoth(t.heap, t.wrote, f.id);
        FailedFill(t.heap, t.fills, f.id);
        EraseKeeps(t, f.id, t.resident);
        EraseAsIs(t, f.id);
      } else {
        PendingIntro(t.heap, t.fills, f.id);
      }
    } else {
      PendingIntro(t.heap, t.fills, f.id);
    }
  }

  lemma IdsDrop(heap: map<nat, Entry>, fills: map<nat, Fill>, wrote: map<nat, seq<Byte>>, next: nat, token: nat)
    requires IdsOk(heap, fills, wrote, next)
    ensures IdsOk(heap, fills - {token}, wrote, next)
  {}

  lemma FailedIs(heap: map<nat, Entry>, fills: map<nat, Fill>, token: nat)
    requires FillsOk(heap, fills) && token in fills && fills[token].Failed? && fills[token].id in heap
    ensures heap[fills[token].id].failed
  {}

  lemma PendingIntro(heap: map<nat, Entry>, fills: map<nat, Fill>, id: nat)
    requires forall x :: x in heap && x != id && !heap[x].ready ==>
        BeingFilled(fills, x) || (heap[x].failed && heap[x].refcount > 0)
    requires id in heap ==> heap[id].ready || (heap[id].failed && heap[id].refcount > 0)
    ensures PendingOk(heap, fills)
  {
    hide BeingFilled;
  }

  lemma PublishedKeeps(s: State, token: nat, lease: nat)
    requires Inv(s) && token in s.fills && s.fills[token].Running? && s.fills[token].id in s.heap && lease !in s.pins
    ensures Inv(Published(s, token, lease))
  {
    hide SlotsOk, IdsOk, LruOk, CountsOk, PinsOk, DataOk, FillsOk, PendingOk, ReadyBytes, BeingFilled, Weight;
    var id := s.fills[token].id;
    var e := s.heap[id].(ready := true, refcount := s.heap[id].refcount + 1);
    FillIs(s.heap, s.fills, token);
    SlotsUpdate(s.slots, s.heap, id, e);
    IdsUpdate(s.heap, s.fills, s.wrote, s.next, id, e);
    IdsPublish(s.heap, s.heap[id := e], s.fills, s.wrote, s.next, token, e.data);
    CountsAdd(s.heap, s.pins, lease, Lease(id), e);
    PinsUpdate(s.heap, s.pins, id, e);
    PinsAdd(s.heap[id := e], s.pins, lease, Lease(id));
    DataPublish(s.heap, s.wrote, id, e);
    FillsPublish(s.heap, s.fills, token, e);
    OthersFilled(s.heap, s.fills, token);
    PendingPublish(s.heap, s.fills - {token}, id, e);
    BytesPublish(s.heap, s.next, id, e);
  }

  lemma IdsPublish(was: map<nat, Entry>, heap: map<nat, Entry>, fills: map<nat, Fill>, wrote: map<nat, seq<Byte>>,
      next: nat, token: nat, data: seq<Byte>)
    requires IdsOk(heap, fills, wrote, next) && token in fills && fills[token].id in heap && FillsOk(was, fills)
    ensures IdsOk(heap, fills - {token}, wrote[fills[token].id := data], next) && fills[token].id < next
  {}

  lemma DataPublish(heap: map<nat, Entry>, wrote: map<nat, seq<Byte>>, id: nat, e: Entry)
    requires DataOk(heap, wrote) && e.ready && !e.failed
    ensures DataOk(heap[id := e], wrote[id := e.data])
  {}

  lemma FillsPublish(heap: map<nat, Entry>, fills: map<nat, Fill>, token: nat, e: Entry)
    requires FillsOk(heap, fills) && token in fills && fills[token].id in heap
    ensures FillsOk(heap[fills[token].id := e], fills - {token})
  {}

  lemma PendingPublish(heap: map<nat, Entry>, fills: map<nat, Fill>, id: nat, e: Entry)
    requires forall x :: x in heap && x != id && !heap[x].ready ==>
        BeingFilled(fills, x) || (heap[x].failed && heap[x].refcount > 0)
    requires e.ready
    ensures PendingOk(heap[id := e], fills)
  {
    hide BeingFilled;
  }

  lemma BytesPublish(heap: map<nat, Entry>, n: nat, id: nat, e: Entry)
    requires id in heap && id < n && !heap[id].ready && e.ready
    ensures ReadyBytes(heap[id := e], n) == ReadyBytes(heap, n) + |e.data|
  {
    var h := heap[id := e];
    forall x: nat | x != id ensures Weight(heap, x) == Weight(h, x) {}
    SumChange(heap, h, id, n);
  }

  // ------------------------------------------------------------- eviction

  lemma EvictOneKeeps(s: State, k: Key)
    requires Inv(s) && Free(s, k)
    ensures Inv(EvictOne(s, k)) && s.heap[s.slots[k]].key == k
  {
    var id := s.slots[k];
    FailedFill(s.heap, s.fills, id);
    BytesOf(s, id);
    assert s.heap[id].key == k;
    hide SlotsOk, IdsOk, LruOk, CountsOk, PinsOk, DataOk, FillsOk, ReadyBytes, BeingFilled, Erase;
    EraseKeeps(s, id, s.resident - |s.heap[id].data|);
  }

  lemma BytesOf(s: State, id: nat)
    requires Inv(s) && id in s.heap
    ensures Weight(s.heap, id) <= s.resident
  {
    SumChange(s.heap, s.heap, id, s.next);
  }

  /** The total is within budget, or everything left is pinned or being filled. */
  ghost predicate MadeRoom(s: State) {
    s.resident <= s.budget || forall id :: id in s.heap ==> s.heap[id].refcount > 0 || !s.heap[id].ready
  }

  /** An entry that is pinned or not ready survives the pass as it is. */
  ghost predicate Spares(s: State, t: State) {
    && t.pins == s.pins && t.fills == s.fills && t.wrote == s.wrote && t.next == s.next && t.budget == s.budget
    && (forall id :: id in s.heap && (s.heap[id].refcount > 0 || !s.heap[id].ready) ==> id in t.heap)
    && (forall id :: id in t.heap ==> id in s.heap && t.heap[id] == s.heap[id])
  }

  lemma EvictIs(s: State)
    requires Inv(s)
    ensures var v := Victim(s, |s.lru|);
      Evict(s) == if s.resident <= s.budget || v.None? then s else Evict(EvictOne(s, v.value))
  {
    hide EvictOne, Victim;
  }

  lemma EvictEnough(s: State)
    ensures s.resident <= s.budget ==> MadeRoom(s) && Spares(s, s)
  {}

  lemma {:induction false} EvictKeeps(s: State)
    requires Inv(s)
    ensures Inv(Evict(s)) && Spares(s, Evict(s)) && MadeRoom(Evict(s))
    decreases |s.lru|
  {
    hide Inv, MadeRoom, EvictOne, Victim, Evict;
    var v := Victim(s, |s.lru|);
    EvictIs(s);
    EvictEnough(s);
    if s.resident > s.budget {
      if v.Some? {
        EvictOneKeeps(s, v.value);
        SparesOne(s, v.value);
        EvictKeeps(EvictOne(s, v.value));
        SparesOn(s, EvictOne(s, v.value), Evict(EvictOne(s, v.value)));
      } else {
        NothingFree(s);
      }
    }
  }

  lemma SparesOne(s: State, k: Key)
    requires Inv(s) && Free(s, k)
    ensures Spares(s, EvictOne(s, k)) && |EvictOne(s, k).lru| < |s.lru|
  {
    hide CountsOk, PinsOk, DataOk, FillsOk, PendingOk, ReadyBytes, IdsOk;
  }

  lemma SparesOn(a: State, b: State, c: State)
    requires Spares(a, b) && Spares(b, c)
    ensures Spares(a, c)
  {}

  lemma NothingFree(s: State)
    requires Inv(s) && Victim(s, |s.lru|).None?
    ensures MadeRoom(s)
  {
    hide CountsOk, PinsOk, DataOk, FillsOk, PendingOk, ReadyBytes, IdsOk;
    forall id | id in s.heap ensures s.heap[id].refcount > 0 || !s.heap[id].ready {
      var k := s.heap[id].key;
      assert k in s.lru;
      var i :| 0 <= i < |s.lru| && s.lru[i] == k;
      assert !Free(s, s.lru[i]);
    }
  }
}
