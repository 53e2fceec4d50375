/** What a run of the frame cache remembers (modules/mount/src/blockcache.cpp): the list is in the order of last use,
    the eviction pass takes the frame that has gone unused longest, and an entry shows what its fill last wrote. */
module CacheHistory {
  import opened Common
  import opened Records
  import opened CacheModel
  import opened CacheProofs
  import opened CacheRuns

  /** The step uses the frame of this key: it puts it in, finds it ready, or wakes to it. */
  ghost predicate Uses(s: State, a: Action, k: Key) {
    match a
    case DoHit(x, _) => x == k
    case DoMiss(x, _, _) => x == k
    case DoWake(token) => token in s.pins && s.pins[token].id in s.heap && s.heap[s.pins[token].id].key == k
    case _ => false
  }

  /** When the frame was last used in the first n steps, counting from one; zero if it was not. */
  ghost function LastUse(run: seq<State>, actions: seq<Action>, n: nat, k: Key): (t: nat)
    requires n <= |actions| < |run|
    ensures t <= n && (t > 0 ==> Uses(run[t - 1], actions[t - 1], k))
    ensures forall m :: t <= m < n ==> !Uses(run[m], actions[m], k)
  {
    if n == 0 then 0 else if Uses(run[n - 1], actions[n - 1], k) then n else LastUse(run, actions, n - 1, k)
  }

  /** Most recently used first. */
  ghost predicate ByRecency(run: seq<State>, actions: seq<Action>, n: nat, lru: seq<Key>)
    requires n <= |actions| < |run|
  {
    && (forall i :: 0 <= i < |lru| ==> LastUse(run, actions, n, lru[i]) > 0)
    && (forall i, j :: 0 <= i < j < |lru| ==>
        LastUse(run, actions, n, lru[i]) > LastUse(run, actions, n, lru[j]))
  }

  // ------------------------------------------------------------- the list

  lemma LastOfList(run: seq<State>, actions: seq<Action>, n: nat, lru: seq<Key>)
    requires n <= |actions| < |run| && lru != [] && ByRecency(run, actions, n, lru)
    ensures ByRecency(run, actions, n, lru[..|lru| - 1]) && LastUse(run, actions, n, lru[|lru| - 1]) > 0
    ensures forall x :: x in lru[..|lru| - 1] ==>
        LastUse(run, actions, n, x) > LastUse(run, actions, n, lru[|lru| - 1])
  {
    hide LastUse;
  }

  lemma ListGrows(run: seq<State>, actions: seq<Action>, n: nat, lru: seq<Key>, k: Key)
    requires n <= |actions| < |run| && ByRecency(run, actions, n, lru) && LastUse(run, actions, n, k) > 0
    requires forall x :: x in lru ==> LastUse(run, actions, n, x) > LastUse(run, actions, n, k)
    ensures ByRecency(run, actions, n, lru + [k])
  {
    hide LastUse;
  }

  lemma {:induction false} WithoutByRecency(run: seq<State>, actions: seq<Action>, n: nat, lru: seq<Key>, k: Key)
    requires n <= |actions| < |run| && ByRecency(run, actions, n, lru)
    ensures ByRecency(run, actions, n, Without(lru, k))
  {
    hide LastUse, ByRecency;
    if lru != [] {
      var m := |lru| - 1;
      LastOfList(run, actions, n, lru);
      WithoutByRecency(run, actions, n, lru[..m], k);
      if lru[m] != k {
        ListGrows(run, actions, n, Without(lru[..m], k), lru[m]);
      }
    }
  }

  /** A step that uses nothing leaves the times alone. */
  lemma Unmoved(run: seq<State>, actions: seq<Action>, n: nat, lru: seq<Key>)
    requires n < |actions| < |run| && ByRecency(run, actions, n, lru)
    requires forall k :: k in lru ==> !Uses(run[n], actions[n], k)
    ensures ByRecency(run, actions, n + 1, lru)
  {
    forall i | 0 <= i < |lru| ensures LastUse(run, actions, n + 1, lru[i]) == LastUse(run, actions, n, lru[i]) {
      assert lru[i] in lru;
    }
  }

  /** The frame a step uses comes first. */
  lemma MovedUp(run: seq<State>, actions: seq<Action>, n: nat, lru: seq<Key>, k: Key)
    requires n < |actions| < |run| && ByRecency(run, actions, n, lru) && k !in lru
    requires forall x :: Uses(run[n], actions[n], x) <==> x == k
    ensures ByRecency(run, actions, n + 1, [k] + lru)
  {
    Unmoved(run, actions, n, lru);
  }

  lemma {:induction false} EvictByRecency(run: seq<State>, actions: seq<Action>, n: nat, s: State)
    requires n <= |actions| < |run| && ByRecency(run, actions, n, s.lru)
    ensures ByRecency(run, actions, n, Evict(s).lru)
    decreases |s.lru|
  {
    hide ByRecency;
    var v := Victim(s, |s.lru|);
    if !(s.resident <= s.budget || v.None? || s.heap[s.slots[v.value]].key != v.value) {
      WithoutByRecency(run, actions, n, s.lru, v.value);
      EvictByRecency(run, actions, n, EvictOne(s, v.value));
    }
  }

  lemma StepByRecency(run: seq<State>, actions: seq<Action>, n: nat)
    requires n < |actions| < |run| && Inv(run[n]) && Enabled(run[n], actions[n])
    requires ByRecency(run, actions, n, run[n].lru)
    ensures ByRecency(run, actions, n + 1, Apply(run[n], actions[n]).lru)
  {
    hide Inv, ByRecency, Evict, Without;
    var s, a := run[n], actions[n];
    if a.DoHit? {
      WithoutByRecency(run, actions, n, s.lru, a.k);
      MovedUp(run, actions, n, Without(s.lru, a.k), a.k);
    } else if a.DoMiss? {
      NotListed(s, a.k);
      MovedUp(run, actions, n, s.lru, a.k);
    } else if a.DoWake? {
      var k := s.heap[s.pins[a.token].id].key;
      WithoutByRecency(run, actions, n, s.lru, k);
      MovedUp(run, actions, n, Without(s.lru, k), k);
    } else {
      Unmoved(run, actions, n, s.lru);
      if a.DoPublish? {
        EvictByRecency(run, actions, n + 1, Published(s, a.token, a.lease));
      } else if a.DoRelease? || a.DoGiveUp? {
        WithoutByRecency(run, actions, n + 1, s.lru, s.heap[s.pins[a.token].id].key);
      } else if a.DoCleanup? {
        WithoutByRecency(run, actions, n + 1, s.lru, s.fills[a.token].key);
        if s.fills[a.token].id in s.heap {
          WithoutByRecency(run, actions, n + 1, s.lru, s.heap[s.fills[a.token].id].key);
        }
      }
    }
  }

  lemma NotListed(s: State, k: Key)
    requires Inv(s) && k !in s.slots
    ensures k !in s.lru
  {
    assert LruOk(s.lru, s.slots);
  }

  /** At every moment of every run the list is in the order of last use, most recent first. */
  lemma {:induction false} RunByRecency(budget: nat, run: seq<State>, actions: seq<Action>, n: nat)
    requires IsRun(budget, run, actions) && n <= |actions|
    ensures ByRecency(run, actions, n, run[n].lru)
  {
    hide Inv, Apply, Enabled, ByRecency;
    if n == 0 {
      NothingListed(run, actions);
    } else {
      RunKeeps(budget, run, actions, n - 1);
      RunByRecency(budget, run, actions, n - 1);
      StepByRecency(run, actions, n - 1);
      assert run[n - 1 + 1] == Apply(run[n - 1], actions[n - 1]);
    }
  }

  lemma NothingListed(run: seq<State>, actions: seq<Action>)
    requires 0 <= |actions| < |run| && run[0].lru == []
    ensures ByRecency(run, actions, 0, run[0].lru)
  {}

  // ------------------------------------------------------------- eviction

  /** The free frame that has gone unused longest. */
  ghost predicate IsOldest(run: seq<State>, actions: seq<Action>, n: nat, s: State, k: Key)
    requires n <= |actions| < |run|
  {
    Free(s, k) && forall x :: Free(s, x) && x != k ==> LastUse(run, actions, n, k) < LastUse(run, actions, n, x)
  }

  /** One frame is gone, its bytes are no longer counted, and nothing else has changed but the list. */
  ghost predicate OneGone(s: State, t: State, k: Key)
    requires Free(s, k)
  {
    && t.slots == s.slots - {k} && t.heap == s.heap - {s.slots[k]}
    && s.resident == t.resident + |s.heap[s.slots[k]].data|
    && t.budget == s.budget && t.pins == s.pins && t.fills == s.fills && t.wrote == s.wrote && t.next == s.next
  }

  lemma {:induction false} VictimIsOldest(run: seq<State>, actions: seq<Action>, n: nat, s: State, m: nat)
    requires n <= |actions| < |run| && Inv(s) && ByRecency(run, actions, n, s.lru) && m <= |s.lru|
    requires forall i :: m <= i < |s.lru| ==> !Free(s, s.lru[i])
    ensures Victim(s, m).Some? ==> IsOldest(run, actions, n, s, Victim(s, m).value)
    ensures Victim(s, m).None? ==> forall k :: !Free(s, k)
  {
    hide Inv, LastUse, ByRecency, Free;
    if m > 0 && !Free(s, s.lru[m - 1]) {
      VictimIsOldest(run, actions, n, s, m - 1);
    } else {
      forall k | Free(s, k)
        ensures m > 0
            && (k == s.lru[m - 1] || LastUse(run, actions, n, s.lru[m - 1]) < LastUse(run, actions, n, k))
      {
        var i := Listed(s, k);
        Earlier(run, actions, n, s.lru, i, m);
      }
    }
  }

  lemma Earlier(run: seq<State>, actions: seq<Action>, n: nat, lru: seq<Key>, i: nat, m: nat)
    requires n <= |actions| < |run| && ByRecency(run, actions, n, lru) && i < m <= |lru|
    ensures i < m - 1 ==> LastUse(run, actions, n, lru[m - 1]) < LastUse(run, actions, n, lru[i])
  {}

  lemma Listed(s: State, k: Key) returns (i: nat)
    requires Inv(s) && Free(s, k)
    ensures i < |s.lru| && s.lru[i] == k
  {
    assert LruOk(s.lru, s.slots);
    assert k in s.lru;
    i :| 0 <= i < |s.lru| && s.lru[i] == k;
  }

  /** The states of one eviction pass and the keys it takes: while over budget, the oldest free frame goes; in the end
      the total is within budget or nothing is free. */
  ghost predicate IsPass(run: seq<State>, actions: seq<Action>, n: nat, states: seq<State>, keys: seq<Key>)
    requires n <= |actions| < |run|
  {
    && |states| == |keys| + 1
    && (forall i :: 0 <= i < |keys| ==>
        && states[i].resident > states[i].budget && IsOldest(run, actions, n, states[i], keys[i])
        && OneGone(states[i], states[i + 1], keys[i]))
    && var last := states[|keys|];
       last.resident <= last.budget || forall k :: !Free(last, k)
  }

  lemma OneIsGone(s: State, k: Key)
    requires Inv(s) && Free(s, k)
    ensures OneGone(s, EvictOne(s, k), k) && Inv(EvictOne(s, k)) && |EvictOne(s, k).lru| < |s.lru|
    ensures EvictOne(s, k).lru == Without(s.lru, k)
  {
    EvictOneKeeps(s, k);
    SparesOne(s, k);
    BytesOf(s, s.slots[k]);
    hide Inv;
  }

  lemma PassStart(run: seq<State>, actions: seq<Action>, n: nat, s: State, k: Key, states: seq<State>, keys: seq<Key>)
    requires n <= |actions| < |run| && IsPass(run, actions, n, states, keys)
    requires s.resident > s.budget && IsOldest(run, actions, n, s, k) && OneGone(s, states[0], k)
    ensures IsPass(run, actions, n, [s] + states, [k] + keys)
  {
    hide OneGone;
    var more, rest := [s] + states, [k] + keys;
    assert more[0] == s && rest[0] == k && more[1] == states[0];
    forall i | 0 <= i < |rest|
      ensures more[i].resident > more[i].budget && IsOldest(run, actions, n, more[i], rest[i])
      ensures Free(more[i], rest[i]) && OneGone(more[i], more[i + 1], rest[i])
    {
      if i > 0 {
        assert more[i] == states[i - 1] && more[i + 1] == states[i] && rest[i] == keys[i - 1];
      }
    }
    assert more[|rest|] == states[|keys|];
  }

  lemma {:induction false} EvictIsPass(run: seq<State>, actions: seq<Action>, n: nat, s: State)
      returns (states: seq<State>, keys: seq<Key>)
    requires n <= |actions| < |run| && Inv(s) && ByRecency(run, actions, n, s.lru)
    ensures IsPass(run, actions, n, states, keys) && states[0] == s && states[|keys|] == Evict(s)
    decreases |s.lru|
  {
    hide Inv, ByRecency, IsOldest, OneGone, EvictOne, Victim, LastUse, Without;
    var v := Victim(s, |s.lru|);
    EvictIs(s);
    hide Evict;
    if s.resident <= s.budget || v.None? {
      states, keys := [s], [];
      if v.None? {
        VictimIsOldest(run, actions, n, s, |s.lru|);
      }
    } else {
      VictimIsOldest(run, actions, n, s, |s.lru|);
      OneIsGone(s, v.value);
      WithoutByRecency(run, actions, n, s.lru, v.value);
      var more, rest := EvictIsPass(run, actions, n, EvictOne(s, v.value));
      PassStart(run, actions, n, s, v.value, more, rest);
      states, keys := [s] + more, [v.value] + rest;
      assert ([s] + more)[|[v.value] + rest|] == more[|rest|];
    }
  }

  /** Publishing a frame makes room by taking the frames that have gone unused longest, and no more of them than it
      must. */
  lemma OldestGoFirst(budget: nat, run: seq<State>, actions: seq<Action>, n: nat)
      returns (states: seq<State>, keys: seq<Key>)
    requires IsRun(budget, run, actions) && n < |actions| && actions[n].DoPublish?
    ensures Enabled(run[n], actions[n])
    ensures IsPass(run, actions, n, states, keys)
    ensures states[0] == Published(run[n], actions[n].token, actions[n].lease) && states[|keys|] == run[n + 1]
  {
    hide Inv, ByRecency, Evict, Published, IsPass;
    RunKeeps(budget, run, actions, n);
    RunByRecency(budget, run, actions, n);
    var s := Published(run[n], actions[n].token, actions[n].lease);
    PublishedKeeps(run[n], actions[n].token, actions[n].lease);
    PublishedList(run[n], actions[n].token, actions[n].lease);
    states, keys := EvictIsPass(run, actions, n, s);
  }

  lemma PublishedList(s: State, token: nat, lease: nat)
    requires token in s.fills && s.fills[token].id in s.heap
    ensures Published(s, token, lease).lru == s.lru
  {}

  // ------------------------------------------------------------- contents

  /** What the entry was last given in the first n steps: zeros, of the size asked for, when it was put in; then
      whatever its fill wrote. */
  ghost function LastWritten(run: seq<State>, actions: seq<Action>, n: nat, id: nat): seq<Byte>
    requires n <= |actions| < |run|
  {
    if n == 0 then [] else
      var s, before := run[n - 1], LastWritten(run, actions, n - 1, id);
      match actions[n - 1]
      case DoMiss(_, size, _) => if id == s.next then Zeros(size) else before
      case DoWrite(token, data) => if token in s.fills && s.fills[token].id == id then data else before
      case _ => before
  }

  /** The data of an entry after a step: new, written by the step, or as before. */
  ghost predicate Keeps(s: State, a: Action, t: State, id: nat)
    requires id in t.heap
  {
    if a.DoMiss? && id == s.next then t.heap[id].data == Zeros(a.size) else
    if a.DoWrite? && a.token in s.fills && s.fills[a.token].id == id then t.heap[id].data == a.data else
    id in s.heap && t.heap[id].data == s.heap[id].data
  }

  lemma StepData(s: State, a: Action, id: nat)
    requires Inv(s) && Enabled(s, a) && id in Apply(s, a).heap
    ensures Keeps(s, a, Apply(s, a), id)
  {
    hide Inv, Evict, MadeRoom, Without;
    if a.DoPublish? {
      PublishedKeeps(s, a.token, a.lease);
      EvictKeeps(Published(s, a.token, a.lease));
    }
  }

  /** At every moment of every run each entry holds what it was last given. */
  lemma {:induction false} RunShowsLastWrite(budget: nat, run: seq<State>, actions: seq<Action>, n: nat)
    requires IsRun(budget, run, actions) && n <= |actions|
    ensures forall id :: id in run[n].heap ==> run[n].heap[id].data == LastWritten(run, actions, n, id)
  {
    hide Inv, Apply, Enabled;
    if n > 0 {
      RunKeeps(budget, run, actions, n - 1);
      RunShowsLastWrite(budget, run, actions, n - 1);
      assert run[n - 1 + 1] == Apply(run[n - 1], actions[n - 1]);
      forall id | id in run[n].heap ensures run[n].heap[id].data == LastWritten(run, actions, n, id) {
        StepData(run[n - 1], actions[n - 1], id);
      }
    }
  }
}
