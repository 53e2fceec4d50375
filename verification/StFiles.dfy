/** A safetensors file as it is opened (modules/stio/src/st_source.cpp, with validate_buffer_layout of
    modules/format/src/st_header.cpp), and as a commit lays it down in a manifest. */
module StFiles {
  import opened Common
  import opened Records
  import opened Manifests
  import opened Intervals
  import opened Sources
  import opened Planned
  import opened History

  datatype StEntry = StEntry(tensor: string, off: nat, nbytes: nat)

  /** Where the first n entries end; without any, where the header does. */
  function EndOf(entries: seq<StEntry>, extent: nat, n: nat): nat
    requires n <= |entries|
  {
    if n == 0 then extent else entries[n - 1].off + entries[n - 1].nbytes
  }

  /** From the header to the end of the file without gap, overlap or empty entry. */
  ghost predicate Contiguous(entries: seq<StEntry>, extent: nat, total: nat) {
    && (forall i :: 0 <= i < |entries| ==> entries[i].nbytes > 0)
    && (entries != [] ==> entries[0].off == extent)
    && (forall i :: 0 < i < |entries| ==> entries[i].off == entries[i - 1].off + entries[i - 1].nbytes)
    && EndOf(entries, extent, |entries|) == total
  }

  /** validate_buffer_layout. */
  method ValidateLayout(entries: seq<StEntry>, extent: nat, total: nat) returns (ok: bool)
    ensures ok <==> Contiguous(entries, extent, total)
  {
    var cursor, i := extent, 0;
    while i < |entries|
      invariant 0 <= i <= |entries| && cursor == EndOf(entries, extent, i)
      invariant forall k :: 0 <= k < i ==> entries[k].nbytes > 0
      invariant i > 0 ==> entries[0].off == extent
      invariant forall k :: 0 < k < i ==> entries[k].off == entries[k - 1].off + entries[k - 1].nbytes
    {
      if entries[i].off != cursor || entries[i].nbytes == 0 {
        return false;
      }
      cursor := cursor + entries[i].nbytes;
      i := i + 1;
    }
    return cursor == total;
  }

  /** The entry's bytes are the tensor's. */
  ghost predicate Holds(disk: seq<Byte>, off: nat, nbytes: nat, bytes: seq<Byte>) {
    off + nbytes <= |disk| && bytes == disk[off..off + nbytes]
  }

  /** An opened file: each of its tensors has one entry, and its bytes are there. */
  ghost predicate Opened(disk: seq<Byte>, extent: nat, entries: seq<StEntry>, file: File) {
    && extent <= |disk| && Contiguous(entries, extent, |disk|)
    && (forall i, j :: 0 <= i < j < |entries| ==> entries[i].tensor != entries[j].tensor)
    && (forall i :: 0 <= i < |entries| ==>
        entries[i].tensor in file && Holds(disk, entries[i].off, entries[i].nbytes, file[entries[i].tensor].bytes))
    && (forall t :: t in file ==> exists i :: 0 <= i < |entries| && entries[i].tensor == t)
  }

  /** The manifest's buffer: every tensor is its own group. */
  function BufferOf(entries: seq<StEntry>): (r: seq<BufferEntry>)
    ensures |r| == |entries|
    ensures forall i :: 0 <= i < |r| ==>
        r[i] == BufferEntry(entries[i].tensor, entries[i].off, entries[i].nbytes, entries[i].tensor)
  {
    seq(|entries|, i requires 0 <= i < |entries| => BufferEntry(entries[i].tensor, entries[i].off, entries[i].nbytes,
        entries[i].tensor))
  }

  /** What an opened file says about entry i. */
  lemma EntryOf(disk: seq<Byte>, extent: nat, entries: seq<StEntry>, file: File, i: nat)
    requires Opened(disk, extent, entries, file) && i < |entries|
    ensures entries[i].nbytes > 0
        && entries[i].off == (if i == 0 then extent else entries[i - 1].off + entries[i - 1].nbytes)
    ensures entries[i].tensor in file && Holds(disk, entries[i].off, entries[i].nbytes, file[entries[i].tensor].bytes)
  {
    hide Holds;
  }

  lemma OpenedOnce(disk: seq<Byte>, extent: nat, entries: seq<StEntry>, file: File, m: Manifest)
    requires Opened(disk, extent, entries, file) && m.buffer == BufferOf(entries)
    ensures DistinctGroups(m)
        && (entries != [] ==> entries[|entries| - 1].off + entries[|entries| - 1].nbytes == |disk|)
  {
    hide Holds;
  }

  /** A manifest of an opened file is refused exactly when the file holds no tensor. */
  lemma OpenedIsWellLaid(disk: seq<Byte>, extent: nat, entries: seq<StEntry>, file: File, m: Manifest)
    requires Opened(disk, extent, entries, file) && m.buffer == BufferOf(entries) && m.totalBytes == |disk|
    requires forall t :: t in file ==> t in m.groups
    ensures WellLaid(m) <==> entries != []
    ensures DistinctGroups(m)
  {
    OpenedOnce(disk, extent, entries, file, m);
    hide *;
    forall i | 0 <= i < |m.buffer|
      ensures m.buffer[i].nbytes > 0 && m.buffer[i].group in m.groups
      ensures i > 0 ==> m.buffer[i].off == m.buffer[i - 1].off + m.buffer[i - 1].nbytes
    {
      EntryOf(disk, extent, entries, file, i);
    }
    WellLaidIs(m);
  }

  lemma WellLaidIs(m: Manifest)
    requires forall i :: 0 <= i < |m.buffer| ==> m.buffer[i].nbytes > 0 && m.buffer[i].group in m.groups
    requires forall i :: 0 < i < |m.buffer| ==> m.buffer[i].off == m.buffer[i - 1].off + m.buffer[i - 1].nbytes
    requires m.buffer != [] ==> m.totalBytes == m.buffer[|m.buffer| - 1].off + m.buffer[|m.buffer| - 1].nbytes
    ensures WellLaid(m) <==> m.buffer != []
  {}

  // ------------------------------------------------------------- laid down in a commit

  /** What a commit is made from, besides the tensors: the file, the topology beside it, and the time. */
  datatype Input = Input(disk: seq<Byte>, topology: seq<Byte>, stamp: nat)

  /** The header and the stored topology parse to the shapes of this file and to this topology, in some order. */
  ghost predicate Parses(p: Prims, topo: Topology, header: seq<Byte>, topology: seq<Byte>, file: File) {
    && p.shapes(header) == Some(MetasOf(file))
    && p.topology(header, topology).Some? && SameTopology(topo, p.topology(header, topology).value)
  }

  /** The commit object names the stored topology and carries the time. */
  ghost predicate Labelled(p: Prims, store: Store, commit: Oid, topology: seq<Byte>, stamp: nat) {
    && GetCommit(p, store, commit).Ok?
    && var c := GetCommit(p, store, commit).value;
       c.topology in store && store[c.topology] == TopologyBlock(topology) && c.stamp == stamp
  }

  /** The commit's manifest describes this file: the header block holds its front, the buffer the rest. Its topology
      object holds what was given, and both parse. */
  ghost predicate LaidDown(p: Prims, store: Store, topo: Topology, commit: Oid, input: Input, file: File) {
    && ManifestFor(p, store, commit).Ok? && Labelled(p, store, commit, input.topology, input.stamp)
    && var m, disk := ManifestFor(p, store, commit).value, input.disk;
    && WellLaid(m) && DistinctGroups(m) && m.totalBytes == |disk| && m.buffer[0].off <= |disk|
    && m.headerBlock in store && store[m.headerBlock] == HeaderBlock(disk[..m.buffer[0].off])
    && Parses(p, topo, disk[..m.buffer[0].off], input.topology, file)
    && forall i :: 0 <= i < |m.buffer| ==>
         && m.buffer[i].tensor == m.buffer[i].group && m.buffer[i].group in file
         && Holds(disk, m.buffer[i].off, m.buffer[i].nbytes, file[m.buffer[i].group].bytes)
  }

  lemma NewLaidDown(p: Prims, store: Store, topo: Topology, commit: Oid, input: Input, extent: nat,
      entries: seq<StEntry>, file: File, m: Manifest)
    requires Opened(input.disk, extent, entries, file) && m.buffer == BufferOf(entries)
        && m.totalBytes == |input.disk| && WellLaid(m)
    requires (forall t :: t in file ==> t in m.groups) && ManifestFor(p, store, commit) == Ok(m)
    requires m.headerBlock in store && extent <= |input.disk|
        && store[m.headerBlock] == HeaderBlock(input.disk[..extent])
    requires Labelled(p, store, commit, input.topology, input.stamp)
    requires Parses(p, topo, input.disk[..extent], input.topology, file)
    ensures LaidDown(p, store, topo, commit, input, file)
  {
    hide ManifestFor, Holds, Opened, WellLaid, DistinctGroups, Labelled, Parses;
    OpenedIsWellLaid(input.disk, extent, entries, file, m);
    forall i | 0 <= i < |m.buffer|
      ensures m.buffer[i].group in file
          && Holds(input.disk, m.buffer[i].off, m.buffer[i].nbytes, file[m.buffer[i].group].bytes)
    {
      EntryOf(input.disk, extent, entries, file, i);
    }
    LaidOut(m);
    EntryOf(input.disk, extent, entries, file, 0);
  }

  lemma LaidOut(m: Manifest)
    requires WellLaid(m)
    ensures m.buffer != []
  {}

  lemma LabelledGrows(p: Prims, a: Store, b: Store, commit: Oid, topology: seq<Byte>, stamp: nat)
    requires Grows(a, b) && Labelled(p, a, commit, topology, stamp)
    ensures Labelled(p, b, commit, topology, stamp)
  {}

  lemma LaidDownGrows(p: Prims, a: Store, b: Store, topo: Topology, commit: Oid, input: Input, file: File)
    requires Grows(a, b) && LaidDown(p, a, topo, commit, input, file)
    ensures LaidDown(p, b, topo, commit, input, file)
  {
    ManifestGrows(p, a, b, commit);
    LabelledGrows(p, a, b, commit, input.topology, input.stamp);
    hide ManifestFor, Labelled, Parses;
  }

  /** Loading the topology of such a commit gives the one it was planned with, and its header the shapes. */
  lemma TopologyLoads(p: Prims, store: Store, topo: Topology, commit: Oid, input: Input, file: File)
    requires Addressed(p, store) && LaidDown(p, store, topo, commit, input, file)
    ensures TopologyFor(p, store, commit).Some? && SameTopology(topo, TopologyFor(p, store, commit).value)
    ensures
      var header := GetHeader(p, store, ManifestFor(p, store, commit).value.headerBlock);
      header.Ok? && p.shapes(header.value) == Some(MetasOf(file))
  {
    hide SameTopology, WellLaid, DistinctGroups, Holds, ManifestFor;
  }

  // ------------------------------------------------------------- along a branch

  ghost predicate InputsHold(p: Prims, store: Store, topo: Topology, history: seq<Oid>, files: seq<File>,
      inputs: seq<Input>) {
    && |history| == |files| == |inputs|
    && forall i :: 0 <= i < |history| ==> LaidDown(p, store, topo, history[i], inputs[i], files[i])
  }

  lemma InputOf(p: Prims, store: Store, topo: Topology, history: seq<Oid>, files: seq<File>, inputs: seq<Input>,
      i: nat)
    requires InputsHold(p, store, topo, history, files, inputs) && i < |history|
    ensures |history| == |files| == |inputs| && LaidDown(p, store, topo, history[i], inputs[i], files[i])
  {
    hide LaidDown;
  }

  lemma InputsGrow(p: Prims, a: Store, b: Store, topo: Topology, history: seq<Oid>, files: seq<File>,
      inputs: seq<Input>)
    requires Grows(a, b) && InputsHold(p, a, topo, history, files, inputs)
    ensures InputsHold(p, b, topo, history, files, inputs)
  {
    hide Grows, LaidDown;
    forall i | 0 <= i < |history| ensures LaidDown(p, b, topo, history[i], inputs[i], files[i]) {
      LaidDownGrows(p, a, b, topo, history[i], inputs[i], files[i]);
    }
  }

  lemma InputsAppend(p: Prims, store: Store, topo: Topology, history: seq<Oid>, files: seq<File>, inputs: seq<Input>,
      c: Oid, file: File, input: Input)
    requires InputsHold(p, store, topo, history, files, inputs) && LaidDown(p, store, topo, c, input, file)
    ensures InputsHold(p, store, topo, history + [c], files + [file], inputs + [input])
  {
    hide LaidDown;
  }
}
