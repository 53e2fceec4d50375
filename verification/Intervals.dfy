/** The interval table of a mounted file (modules/mount/src/inode.cpp): which block or tensor each byte of the file
    comes from. */
module Intervals {
  import opened Common
  import opened Records
  import opened Manifests

  datatype Interval = Interval(fileOffset: nat, length: nat, groupOffset: nat, groupIndex: nat, isHeader: bool)
  datatype Table = Table(total: nat, intervals: seq<Interval>, groups: seq<string>)

  /** Bytes that entries before i of the same group take up. */
  function GroupBytes(buffer: seq<BufferEntry>, n: nat, group: string): nat
    requires n <= |buffer|
  {
    if n == 0 then 0 else
        GroupBytes(buffer, n - 1, group) + (if buffer[n - 1].group == group then buffer[n - 1].nbytes else 0)
  }

  ghost predicate DistinctGroups(m: Manifest) {
    forall i, j :: 0 <= i < j < |m.buffer| ==> m.buffer[i].group != m.buffer[j].group
  }

  /** Every entry starts at the beginning of its group iff no group occurs twice. */
  lemma OffsetsAreZero(m: Manifest)
    requires WellLaid(m)
    ensures DistinctGroups(m) <==> forall i :: 0 <= i < |m.buffer| ==> GroupBytes(m.buffer, i, m.buffer[i].group) == 0
  {
    if DistinctGroups(m) {
      forall i | 0 <= i < |m.buffer| ensures GroupBytes(m.buffer, i, m.buffer[i].group) == 0 {
        NoneBefore(m.buffer, i, m.buffer[i].group);
      }
    } else {
      var i, j :| 0 <= i < j < |m.buffer| && m.buffer[i].group == m.buffer[j].group;
      SomeBefore(m.buffer, j, m.buffer[j].group, i);
      assert m.buffer[i].nbytes > 0;
    }
  }

  lemma {:induction false} NoneBefore(buffer: seq<BufferEntry>, n: nat, group: string)
    requires n <= |buffer| && forall i :: 0 <= i < n ==> buffer[i].group != group
    ensures GroupBytes(buffer, n, group) == 0
  {
    if n > 0 {
      NoneBefore(buffer, n - 1, group);
    }
  }

  lemma {:induction false} SomeBefore(buffer: seq<BufferEntry>, n: nat, group: string, i: nat)
    requires i < n <= |buffer| && buffer[i].group == group
    ensures GroupBytes(buffer, n, group) >= buffer[i].nbytes
  {
    if i < n - 1 {
      SomeBefore(buffer, n - 1, group, i);
    }
  }

  // ------------------------------------------------------------- the table

  function HeaderPart(m: Manifest): (r: seq<Interval>)
    requires m.buffer != []
  {
    if m.buffer[0].off > 0 then [Interval(0, m.buffer[0].off, 0, 0, true)] else []
  }

  /** The interval of buffer entry i. */
  ghost predicate EntryInterval(m: Manifest, groups: seq<string>, i: nat, v: Interval)
    requires i < |m.buffer|
  {
    && v.fileOffset == m.buffer[i].off && v.length == m.buffer[i].nbytes && !v.isHeader
    && v.groupOffset == GroupBytes(m.buffer, i, m.buffer[i].group)
    && v.groupIndex < |groups| && groups[v.groupIndex] == m.buffer[i].group
  }

  ghost predicate EntriesMatch(m: Manifest, groups: seq<string>, entries: seq<Interval>) {
    |entries| <= |m.buffer| && forall i :: 0 <= i < |entries| ==> EntryInterval(m, groups, i, entries[i])
  }

  /** Header first, then the entries in buffer order; groups are numbered once each. */
  ghost predicate Describes(t: Table, m: Manifest) {
    && WellLaid(m) && t.total == m.totalBytes && Distinct(t.groups)
    && |t.intervals| == |HeaderPart(m)| + |m.buffer| && t.intervals[..|HeaderPart(m)|] == HeaderPart(m)
    && EntriesMatch(m, t.groups, t.intervals[|HeaderPart(m)|..])
  }

  /** The intervals cover [0, total) in order, without gap or overlap. */
  ghost predicate Covers(t: Table) {
    && t.intervals != [] && t.intervals[0].fileOffset == 0
    && (forall i :: 0 <= i < |t.intervals| ==> t.intervals[i].length > 0)
    && (forall i :: 0 < i < |t.intervals| ==>
        t.intervals[i].fileOffset == t.intervals[i - 1].fileOffset + t.intervals[i - 1].length)
    && t.intervals[|t.intervals| - 1].fileOffset + t.intervals[|t.intervals| - 1].length == t.total
  }

  lemma DescribedCovers(t: Table, m: Manifest)
    requires Describes(t, m)
    ensures Covers(t)
  {
    hide GroupBytes;
    var head, entries := HeaderPart(m), t.intervals[|HeaderPart(m)|..];
    assert t.intervals == head + entries;
    forall i | 0 <= i < |entries|
      ensures entries[i].length > 0
      ensures i > 0 ==> entries[i].fileOffset == entries[i - 1].fileOffset + entries[i - 1].length
    {
      assert EntryInterval(m, t.groups, i, entries[i]);
      if i > 0 {
        assert EntryInterval(m, t.groups, i - 1, entries[i - 1]);
      }
    }
    assert EntryInterval(m, t.groups, 0, entries[0])
        && EntryInterval(m, t.groups, |entries| - 1, entries[|entries| - 1]);
    hide EntryInterval, EntriesMatch, WellLaid;
    CoverTogether(t, head, entries);
  }

  lemma CoverTogether(t: Table, head: seq<Interval>, entries: seq<Interval>)
    requires t.intervals == head + entries && entries != [] && |head| <= 1
    requires head != [] ==> head[0].fileOffset == 0 && head[0].length == entries[0].fileOffset && head[0].length > 0
    requires head == [] ==> entries[0].fileOffset == 0
    requires forall i :: 0 <= i < |entries| ==> entries[i].length > 0
    requires forall i :: 0 < i < |entries| ==>
        entries[i].fileOffset == entries[i - 1].fileOffset + entries[i - 1].length
    requires entries[|entries| - 1].fileOffset + entries[|entries| - 1].length == t.total
    ensures Covers(t)
  {
    if head != [] {
      assert forall i :: 1 <= i < |t.intervals| ==> t.intervals[i] == entries[i - 1];
    }
  }

  /** An interval of the table is the header's or that of a buffer entry. */
  lemma WhichInterval(t: Table, m: Manifest, v: Interval) returns (i: nat)
    requires Describes(t, m) && v in t.intervals
    ensures v.isHeader ==> v == Interval(0, m.buffer[0].off, 0, 0, true)
    ensures !v.isHeader ==> i < |m.buffer| && EntryInterval(m, t.groups, i, v)
  {
    var head := HeaderPart(m);
    hide WellLaid, GroupBytes;
    var k :| 0 <= k < |t.intervals| && t.intervals[k] == v;
    i := 0;
    if k < |head| {
      assert v == t.intervals[..|head|][k] == head[k];
    } else {
      i := k - |head|;
      assert v == t.intervals[|head|..][i];
    }
  }

  /** group_index_for: the number of a group, given out on first sight. */
  method GroupIndex(groups: seq<string>, name: string) returns (i: nat, more: seq<string>)
    requires Distinct(groups)
    ensures Distinct(more) && groups <= more && i < |more| && more[i] == name
        && (|more| == |groups| || (|more| == |groups| + 1 && i == |groups|))
  {
    i := 0;
    while i < |groups|
      invariant 0 <= i <= |groups| && forall k :: 0 <= k < i ==> groups[k] != name
    {
      if groups[i] == name {
        return i, groups;
      }
      i := i + 1;
    }
    more := groups + [name];
  }

  /** Running offsets are the bytes each group has taken so far. */
  ghost predicate CursorsMatch(buffer: seq<BufferEntry>, n: nat, groups: seq<string>, cursor: seq<nat>)
    requires n <= |buffer|
  {
    && |cursor| == |groups| && (forall g :: 0 <= g < |groups| ==> cursor[g] == GroupBytes(buffer, n, groups[g]))
    && (forall i :: 0 <= i < n ==> buffer[i].group in groups)
  }

  lemma NewCursor(buffer: seq<BufferEntry>, n: nat, groups: seq<string>, cursor: seq<nat>, name: string)
    requires n <= |buffer| && CursorsMatch(buffer, n, groups, cursor) && name !in groups
    ensures CursorsMatch(buffer, n, groups + [name], cursor + [0])
  {
    NoneBefore(buffer, n, name);
  }

  lemma AdvanceCursor(buffer: seq<BufferEntry>, n: nat, groups: seq<string>, cursor: seq<nat>, g: nat)
    requires n < |buffer| && CursorsMatch(buffer, n, groups, cursor) && Distinct(groups) && g < |groups|
        && groups[g] == buffer[n].group
    ensures CursorsMatch(buffer, n + 1, groups, cursor[g := cursor[g] + buffer[n].nbytes])
  {}

  lemma EntryKept(m: Manifest, groups: seq<string>, more: seq<string>, i: nat, v: Interval)
    requires i < |m.buffer| && EntryInterval(m, groups, i, v) && groups <= more
    ensures EntryInterval(m, more, i, v)
  {}

  lemma BuildStep(m: Manifest, groups: seq<string>, more: seq<string>, entries: seq<Interval>, v: Interval)
    requires |entries| < |m.buffer| && EntriesMatch(m, groups, entries) && groups <= more
        && EntryInterval(m, more, |entries|, v)
    ensures EntriesMatch(m, more, entries + [v])
  {
    hide EntryInterval;
    var w := entries + [v];
    forall i | 0 <= i < |w| ensures EntryInterval(m, more, i, w[i]) {
      if i < |entries| {
        EntryKept(m, groups, more, i, entries[i]);
      }
    }
  }

  /** build: refuses exactly the manifests that validate refuses, and describes the others. The final sort finds the
      list already in order. */
  method Build(m: Manifest) returns (r: Result<Table>)
    ensures r.Ok? <==> WellLaid(m)
    ensures r.Ok? ==> Describes(r.value, m) && Covers(r.value)
  {
    var ok := Validate(m);
    if !ok {
      return Err(MalformedObject);
    }
    var entries: seq<Interval> := [];
    var groups: seq<string>, cursor: seq<nat>, n := [], [], 0;
    while n < |m.buffer|
      invariant 0 <= n <= |m.buffer| && Distinct(groups) && CursorsMatch(m.buffer, n, groups, cursor)
      invariant |entries| == n && EntriesMatch(m, groups, entries)
    {
      var e := m.buffer[n];
      var g, more := GroupIndex(groups, e.group);
      hide WellLaid, EntriesMatch, CursorsMatch, GroupBytes;
      ghost var before := groups;
      if |more| > |groups| {
        FreshGroup(groups, more, g, e.group);
        NewCursor(m.buffer, n, groups, cursor, e.group);
        cursor := cursor + [0];
      }
      assert |more| == |groups| ==> more == groups;
      groups := more;
      CursorAt(m.buffer, n, groups, cursor, g);
      var v := Interval(e.off, e.nbytes, cursor[g], g, false);
      assert EntryInterval(m, groups, n, v);
      BuildStep(m, before, groups, entries, v);
      AdvanceCursor(m.buffer, n, groups, cursor, g);
      entries := entries + [v];
      cursor := cursor[g := cursor[g] + e.nbytes];
      n := n + 1;
    }
    var t := Table(m.totalBytes, HeaderPart(m) + entries, groups);
    assert t.intervals[|HeaderPart(m)|..] == entries;
    DescribedCovers(t, m);
    return Ok(t);
  }

  lemma FreshGroup(groups: seq<string>, more: seq<string>, g: nat, name: string)
    requires Distinct(more) && groups <= more && |more| == |groups| + 1 && g == |groups| && more[g] == name
    ensures name !in groups && more == groups + [name]
  {}

  lemma CursorAt(buffer: seq<BufferEntry>, n: nat, groups: seq<string>, cursor: seq<nat>, g: nat)
    requires n <= |buffer| && CursorsMatch(buffer, n, groups, cursor) && g < |groups|
    ensures |cursor| == |groups| && cursor[g] == GroupBytes(buffer, n, groups[g])
  {}

  // ------------------------------------------------------------- lookup

  lemma {:induction false} Ascending(t: Table, i: nat, j: nat)
    requires Covers(t) && i < j < |t.intervals|
    ensures t.intervals[i].fileOffset + t.intervals[i].length <= t.intervals[j].fileOffset
    decreases j
  {
    if i < j - 1 {
      Ascending(t, i, j - 1);
    }
  }

  /** find: the one interval that holds the offset; none past the end. */
  method Find(t: Table, offset: nat) returns (r: Option<Interval>)
    requires Covers(t)
    ensures r.None? <==> offset >= t.total
    ensures r.Some? ==> r.value in t.intervals && r.value.fileOffset <= offset < r.value.fileOffset + r.value.length
  {
    if offset >= t.total {
      return None;
    }
    var lo, hi := 0, |t.intervals|;
    while lo < hi
      invariant 0 <= lo <= hi <= |t.intervals|
      invariant forall i :: 0 <= i < lo ==> t.intervals[i].fileOffset <= offset
      invariant forall i :: hi <= i < |t.intervals| ==> offset < t.intervals[i].fileOffset
    {
      var mid := lo + (hi - lo) / 2;
      if offset < t.intervals[mid].fileOffset {
        forall i | mid <= i < |t.intervals| ensures offset < t.intervals[i].fileOffset {
          if mid < i {
            Ascending(t, mid, i);
          }
        }
        hi := mid;
      } else {
        forall i | 0 <= i <= mid ensures t.intervals[i].fileOffset <= offset {
          if i < mid {
            Ascending(t, i, mid);
          }
        }
        lo := mid + 1;
      }
    }
    assert lo > 0;
    var v := t.intervals[lo - 1];
    if lo < |t.intervals| {
      assert t.intervals[lo].fileOffset == t.intervals[lo - 1].fileOffset + t.intervals[lo - 1].length;
    }
    return Some(v);
  }
}
