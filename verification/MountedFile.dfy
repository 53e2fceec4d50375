/** Reading a mounted checkpoint through the frame cache (modules/mount/src/fs.cpp) against streaming it whole
    (reconstruct_file in modules/codec/src/reconstruct.cpp). */
module MountedFile {
  import opened Common
  import opened Gather
  import opened Records
  import opened Manifests
  import opened Reader
  import opened ReadBack
  import opened Intervals
  import opened CacheModel

  const FrameSize: nat := 131072
  const StreamChunk: nat := 4194304

  // ------------------------------------------------------------- the stream

  /** What each group of the buffer holds. */
  type Contents = map<string, seq<Byte>>

  ghost predicate Supplied(buffer: seq<BufferEntry>, contents: Contents) {
    forall i :: 0 <= i < |buffer| ==> buffer[i].group in contents && buffer[i].nbytes <= |contents[buffer[i].group]|
  }

  /** The first n buffer entries, each from the start of its group. */
  ghost function DataBytes(buffer: seq<BufferEntry>, contents: Contents, n: nat): seq<Byte>
    requires n <= |buffer| && Supplied(buffer, contents)
  {
    if n == 0 then [] else DataBytes(buffer, contents, n - 1) + contents[buffer[n - 1].group][..buffer[n - 1].nbytes]
  }

  /** Header, then the buffer in order. */
  ghost function Stream(header: seq<Byte>, buffer: seq<BufferEntry>, contents: Contents): seq<Byte>
    requires Supplied(buffer, contents)
  {
    header + DataBytes(buffer, contents, |buffer|)
  }

  /** Every group of the buffer reads back as its contents. */
  ghost predicate GroupsServe(p: Prims, ctx: Ctx, contents: Contents, hops: nat) {
    && Supplied(ctx.manifest.buffer, contents)
    && forall i :: 0 <= i < |ctx.manifest.buffer| ==>
         Serves(p, ctx, ctx.manifest.buffer[i].group, contents[ctx.manifest.buffer[i].group], hops)
  }

  lemma {:induction false} DataEnds(m: Manifest, contents: Contents, n: nat)
    requires WellLaid(m) && Supplied(m.buffer, contents) && n <= |m.buffer|
    ensures m.buffer[0].off + |DataBytes(m.buffer, contents, n)| == (if n < |m.buffer| then m.buffer[n].off else
        m.totalBytes)
  {
    if n > 0 {
      DataEnds(m, contents, n - 1);
    }
  }

  lemma {:induction false} DataPrefix(buffer: seq<BufferEntry>, contents: Contents, k: nat, n: nat)
    requires k <= n <= |buffer| && Supplied(buffer, contents)
    ensures DataBytes(buffer, contents, k) <= DataBytes(buffer, contents, n)
  {
    if k < n {
      DataPrefix(buffer, contents, k, n - 1);
    }
  }

  /** Where entry i lies in the stream, and what is there. */
  lemma EntryInStream(m: Manifest, header: seq<Byte>, contents: Contents, i: nat)
    requires WellLaid(m) && Supplied(m.buffer, contents) && |header| == m.buffer[0].off && i < |m.buffer|
    ensures |Stream(header, m.buffer, contents)| == m.totalBytes && m.buffer[i].off + m.buffer[i].nbytes <= m.totalBytes
    ensures
      var e := m.buffer[i];
      Stream(header, m.buffer, contents)[e.off..e.off + e.nbytes] == contents[e.group][..e.nbytes]
  {
    var e, n := m.buffer[i], |m.buffer|;
    DataEnds(m, contents, i);
    DataEnds(m, contents, i + 1);
    DataEnds(m, contents, n);
    DataPrefix(m.buffer, contents, i + 1, n);
    var front, upto, all := DataBytes(m.buffer, contents, i), DataBytes(m.buffer, contents, i + 1),
        DataBytes(m.buffer, contents, n);
    var piece := contents[e.group][..e.nbytes];
    assert upto == front + piece;
    var rest := all[|upto|..];
    assert all == front + (piece + rest);
    assert header + all == (header + front) + (piece + rest);
    SliceOfConcat(header + front, piece + rest, 0, e.nbytes);
    assert (piece + rest)[..e.nbytes] == piece;
  }

  // ------------------------------------------------------------- reconstruct_file

  lemma ServedWhole(p: Prims, ctx: Ctx, group: string, bytes: seq<Byte>, hops: nat, off: nat, want: nat)
    requires Serves(p, ctx, group, bytes, hops) && off + want <= |bytes|
    ensures ReadRange(p, ctx, group, off, Zeros(want), hops) == Ok(Got(want, bytes[off..off + want]))
  {
    assert Clip(bytes, off, Zeros(want)).out == bytes[off..off + want];
    hide ReadRange;
  }

  function Prepend(front: seq<Byte>, rest: Result<seq<Byte>>): Result<seq<Byte>> {
    if rest.Ok? then Ok(front + rest.value) else rest
  }

  /** A buffer entry from `done` on, read in bounded pieces. */
  function EntryStream(p: Prims, ctx: Ctx, e: BufferEntry, hops: nat, done: nat): Result<seq<Byte>>
    decreases e.nbytes - done
  {
    if done >= e.nbytes then Ok([]) else
      var want := Min(StreamChunk, e.nbytes - done);
      var got :- ReadRange(p, ctx, e.group, done, Zeros(want), hops);
      if got.n != want then Err(MalformedObject) else Prepend(got.out, EntryStream(p, ctx, e, hops, done + want))
  }

  /** The buffer from entry i on. */
  function DataStream(p: Prims, ctx: Ctx, hops: nat, i: nat): Result<seq<Byte>>
    requires i <= |ctx.manifest.buffer|
    decreases |ctx.manifest.buffer| - i
  {
    if i == |ctx.manifest.buffer| then Ok([]) else
      var e := ctx.manifest.buffer[i];
      if e.group !in ctx.manifest.groups then Err(MalformedObject) else
        var piece :- EntryStream(p, ctx, e, hops, 0);
        Prepend(piece, DataStream(p, ctx, hops, i + 1))
  }

  /** What reconstruct_file gives to its sink, or the error it stops with. */
  function StreamOf(p: Prims, ctx: Ctx, hops: nat): Result<seq<Byte>> {
    var header :- GetHeader(p, ctx.store, ctx.manifest.headerBlock);
    Prepend(header, DataStream(p, ctx, hops, 0))
  }

  lemma PrependTwice(a: seq<Byte>, b: seq<Byte>, rest: Result<seq<Byte>>)
    ensures Prepend(a, Prepend(b, rest)) == Prepend(a + b, rest)
  {
    if rest.Ok? {
      assert a + (b + rest.value) == (a + b) + rest.value;
    }
  }

  lemma PrependNothing(rest: Result<seq<Byte>>)
    ensures Prepend([], rest) == rest
  {
    if rest.Ok? {
      assert [] + rest.value == rest.value;
    }
  }

  lemma EntryStreamStep(p: Prims, ctx: Ctx, e: BufferEntry, hops: nat, done: nat)
    ensures done >= e.nbytes ==> EntryStream(p, ctx, e, hops, done) == Ok([])
    ensures done < e.nbytes ==>
      var want := Min(StreamChunk, e.nbytes - done);
      var got := ReadRange(p, ctx, e.group, done, Zeros(want), hops);
      EntryStream(p, ctx, e, hops, done) == if got.Err? then Err(got.error) else if got.value.n != want then
          Err(MalformedObject)
        else Prepend(got.value.out, EntryStream(p, ctx, e, hops, done + want))
  {
    hide ReadRange;
  }

  /** One buffer entry, streamed in pieces: each but the last of StreamChunk bytes, none longer. */
  method StreamEntry(p: Prims, ctx: Ctx, e: BufferEntry, hops: nat)
    returns (r: Result<seq<Byte>>, ghost pieces: seq<nat>)
    ensures r == EntryStream(p, ctx, e, hops, 0)
    ensures r.Ok? ==> |r.value| == e.nbytes
    ensures forall i :: 0 <= i < |pieces| ==> 0 < pieces[i] <= StreamChunk
    ensures r.Ok? ==>
      && (forall i :: 0 <= i < |pieces| - 1 ==> pieces[i] == StreamChunk)
      && (e.nbytes > 0 ==> pieces != [] && e.nbytes == (|pieces| - 1) * StreamChunk + pieces[|pieces| - 1])
  {
    hide ReadRange, EntryStream, Prepend;
    var out: seq<Byte>, done := [], 0;
    pieces := [];
    PrependNothing(EntryStream(p, ctx, e, hops, 0));
    while done < e.nbytes
      invariant 0 <= done <= e.nbytes
          && EntryStream(p, ctx, e, hops, 0) == Prepend(out, EntryStream(p, ctx, e, hops, done))
      invariant |out| == done && forall i :: 0 <= i < |pieces| ==> 0 < pieces[i] <= StreamChunk
      invariant done < e.nbytes ==> forall i :: 0 <= i < |pieces| ==> pieces[i] == StreamChunk
      invariant forall i :: 0 <= i < |pieces| - 1 ==> pieces[i] == StreamChunk
      invariant if pieces == [] then done == 0 else done == (|pieces| - 1) * StreamChunk + pieces[|pieces| - 1]
    {
      EntryStreamStep(p, ctx, e, hops, done);
      var want := Min(StreamChunk, e.nbytes - done);
      var got := ReadRange(p, ctx, e.group, done, Zeros(want), hops);
      if got.Err? {
        PrependStops(out, got.error);
        return Err(got.error), pieces;
      }
      if got.value.n != want {
        PrependStops(out, MalformedObject);
        return Err(MalformedObject), pieces;
      }
      pieces := pieces + [want];
      PrependTwice(out, got.value.out, EntryStream(p, ctx, e, hops, done + want));
      out := out + got.value.out;
      done := done + want;
    }
    EntryStreamStep(p, ctx, e, hops, done);
    PrependEnds(out);
    return Ok(out), pieces;
  }

  lemma PrependStops(front: seq<Byte>, e: Error)
    ensures Prepend(front, Err(e)) == Err(e)
  {}

  lemma PrependEnds(front: seq<Byte>)
    ensures Prepend(front, Ok([])) == Ok(front)
  {
    assert front + [] == front;
  }

  /** reconstruct_file, the sink collecting what it is given. */
  method ReconstructFile(p: Prims, ctx: Ctx, hops: nat) returns (r: Result<seq<Byte>>)
    ensures r == StreamOf(p, ctx, hops)
  {
    hide GetHeader, EntryStream, Prepend;
    var m := ctx.manifest;
    var header := GetHeader(p, ctx.store, m.headerBlock);
    if header.Err? {
      return header;
    }
    var data: seq<Byte>, i := header.value, 0;
    while i < |m.buffer|
      invariant 0 <= i <= |m.buffer| && StreamOf(p, ctx, hops) == Prepend(data, DataStream(p, ctx, hops, i))
    {
      var e := m.buffer[i];
      if e.group !in m.groups {
        PrependStops(data, MalformedObject);
        return Err(MalformedObject);
      }
      var piece; ghost var sizes;
      piece, sizes := StreamEntry(p, ctx, e, hops);
      if piece.Err? {
        PrependStops(data, piece.error);
        return piece;
      }
      PrependTwice(data, piece.value, DataStream(p, ctx, hops, i + 1));
      data := data + piece.value;
      i := i + 1;
    }
    PrependEnds(data);
    return Ok(data);
  }

  /** The pieces of a served group add up to it. */
  lemma {:induction false} EntryStreams(p: Prims, ctx: Ctx, e: BufferEntry, hops: nat, bytes: seq<Byte>, done: nat)
    requires Serves(p, ctx, e.group, bytes, hops) && done <= e.nbytes <= |bytes|
    ensures EntryStream(p, ctx, e, hops, done) == Ok(bytes[done..e.nbytes])
    decreases e.nbytes - done
  {
    hide Serves, ReadRange, EntryStream;
    EntryStreamStep(p, ctx, e, hops, done);
    if done < e.nbytes {
      var want := Min(StreamChunk, e.nbytes - done);
      ServedWhole(p, ctx, e.group, bytes, hops, done, want);
      EntryStreams(p, ctx, e, hops, bytes, done + want);
      assert bytes[done..done + want] + bytes[done + want..e.nbytes] == bytes[done..e.nbytes];
    } else {
      assert bytes[done..e.nbytes] == [];
    }
  }

  lemma {:induction false} DataStreams(p: Prims, ctx: Ctx, hops: nat, contents: Contents, i: nat)
    requires GroupsServe(p, ctx, contents, hops) && i <= |ctx.manifest.buffer|
    requires forall k :: 0 <= k < |ctx.manifest.buffer| ==> ctx.manifest.buffer[k].group in ctx.manifest.groups
    ensures DataStream(p, ctx, hops, i).Ok?
    ensures DataBytes(ctx.manifest.buffer, contents, i) + DataStream(p, ctx, hops,
        i).value == DataBytes(ctx.manifest.buffer, contents, |ctx.manifest.buffer|)
    decreases |ctx.manifest.buffer| - i
  {
    hide Serves, EntryStream;
    if i < |ctx.manifest.buffer| {
      var e := ctx.manifest.buffer[i];
      DataStreams(p, ctx, hops, contents, i + 1);
      EntryStreams(p, ctx, e, hops, contents[e.group], 0);
      var piece, rest := contents[e.group][..e.nbytes], DataStream(p, ctx, hops, i + 1).value;
      assert contents[e.group][0..e.nbytes] == piece;
      assert DataBytes(ctx.manifest.buffer, contents,
          i) + (piece + rest) == (DataBytes(ctx.manifest.buffer, contents, i) + piece) + rest;
    }
  }

  /** reconstruct_file on readable groups: the header, then each entry from the start of its group. */
  lemma StreamIs(p: Prims, ctx: Ctx, hops: nat, contents: Contents)
    requires GroupsServe(p, ctx, contents, hops) && GetHeader(p, ctx.store, ctx.manifest.headerBlock).Ok?
    requires forall k :: 0 <= k < |ctx.manifest.buffer| ==> ctx.manifest.buffer[k].group in ctx.manifest.groups
    ensures StreamOf(p, ctx,
        hops) == Ok(Stream(GetHeader(p, ctx.store, ctx.manifest.headerBlock).value, ctx.manifest.buffer, contents))
  {
    hide GetHeader, DataStream, Serves;
    DataStreams(p, ctx, hops, contents, 0);
    var data := DataStream(p, ctx, hops, 0).value;
    assert DataBytes(ctx.manifest.buffer, contents, 0) == [];
    assert [] + data == data;
  }

  // ------------------------------------------------------------- the mounted read

  datatype Mount = Mount(ctx: Ctx, table: Table, artifact: Oid)

  /** Answers of the frame cache to the successive calls of one read. */
  type Leases = (nat, Key) -> Result<seq<Byte>>

  function FrameBytesOf(p: Prims, fs: Mount, hops: nat, key: Key): Result<Got> {
    if key.tensor >= |fs.table.groups| then Err(Internal) else
      ReadRange(p, fs.ctx, fs.table.groups[key.tensor], key.frame * FrameSize, Zeros(FrameSize), hops)
  }

  /** A lease, when one is given out, shows what the fill for its key writes. */
  ghost predicate Truthful(p: Prims, fs: Mount, hops: nat, leases: Leases) {
    forall n: nat, key :: leases(n, key).Ok? ==>
        FrameBytesOf(p, fs, hops, key).Ok? && leases(n, key).value == FrameBytesOf(p, fs, hops, key).value.out
  }

  /** The offset lies in the interval. */
  predicate InInterval(v: Interval, cur: nat) { v.fileOffset <= cur < v.fileOffset + v.length }

  /** The frame that a tensor's interval takes the byte at `cur` from. */
  function KeyOf(fs: Mount, v: Interval, cur: nat): Key
    requires InInterval(v, cur)
  {
    Key(fs.artifact, v.groupIndex, (v.groupOffset + (cur - v.fileOffset)) / FrameSize)
  }

  /** Some byte of the n from `offset` on is in this frame. */
  ghost predicate Needed(fs: Mount, offset: nat, n: nat, key: Key) {
    exists v, cur: nat :: v in fs.table.intervals && !v.isHeader && InInterval(v, cur)
      && offset <= cur < offset + n && key == KeyOf(fs, v, cur)
  }

  /** The cache refused a frame that the range needs. */
  ghost predicate Refused(fs: Mount, leases: Leases, offset: nat, n: nat) {
    exists step: nat, key :: Needed(fs, offset, n, key) && leases(step, key).Err?
  }

  /** Ranged read of the header block. */
  function ReadHeader(store: Store, oid: Oid, off: nat, out: seq<Byte>): (r: Result<Got>)
    ensures r.Ok? ==> |r.value.out| == |out| && r.value.n <= |out|
  {
    if oid !in store then Err(ObjectNotFound) else
    if !store[oid].HeaderBlock? then Err(ObjectKindMismatch) else Ok(Clip(store[oid].bytes, off, out))
  }

  /** One turn of the read loop: the bytes it adds, none when it must stop. */
  function NextPiece(fs: Mount, v: Interval, cur: nat, remaining: nat, leases: Leases,
      step: nat): (r: Result<seq<Byte>>)
    requires InInterval(v, cur) && remaining > 0
    ensures r.Ok? ==> |r.value| <= remaining
  {
    var within := cur - v.fileOffset;
    var avail := v.length - within;
    if v.isHeader then
      var want := Min(remaining, avail);
      var got :- ReadHeader(fs.ctx.store, fs.ctx.manifest.headerBlock, within, Zeros(want));
      Ok(got.out[..got.n])
    else
      var groupOff := v.groupOffset + within;
      var key := KeyOf(fs, v, cur);
      var inFrame := groupOff - key.frame * FrameSize;
      var want := Min(Min(remaining, avail), FrameSize - inFrame);
      var bytes :- leases(step, key);
      if |bytes| < inFrame + want then Err(Internal) else Ok(bytes[inFrame..inFrame + want])
  }

  /** What the mount rests on: distinct groups, a header as long as the first offset, and readable groups. */
  ghost predicate Sound(p: Prims, fs: Mount, hops: nat, header: seq<Byte>, contents: Contents) {
    && Describes(fs.table, fs.ctx.manifest) && DistinctGroups(fs.ctx.manifest) && GroupsServe(p, fs.ctx, contents, hops)
    && fs.ctx.manifest.headerBlock in fs.ctx.store && fs.ctx.store[fs.ctx.manifest.headerBlock] == HeaderBlock(header)
    && |header| == fs.ctx.manifest.buffer[0].off
  }

  ghost function File(fs: Mount, header: seq<Byte>, contents: Contents): seq<Byte>
    requires Supplied(fs.ctx.manifest.buffer, contents)
  {
    Stream(header, fs.ctx.manifest.buffer, contents)
  }

  lemma HeaderPiece(p: Prims, fs: Mount, hops: nat, header: seq<Byte>, contents: Contents, v: Interval, cur: nat,
      remaining: nat, leases: Leases, step: nat)
    requires Sound(p, fs, hops, header, contents) && v == Interval(0, |header|, 0, 0, true) && cur < |header|
        && remaining > 0
    ensures var want := Min(remaining, |header| - cur);
      cur + want <= |File(fs, header, contents)|
          && NextPiece(fs, v, cur, remaining, leases, step) == Ok(File(fs, header, contents)[cur..cur + want])
  {
    hide GroupsServe, Describes, DistinctGroups;
    var want := Min(remaining, |header| - cur);
    SupplyOf(p, fs, hops, contents);
    var file := File(fs, header, contents);
    assert file[cur..cur + want] == header[cur..cur + want];
    assert Clip(header, cur, Zeros(want)) == Got(want, header[cur..cur + want] + []);
  }

  lemma SupplyOf(p: Prims, fs: Mount, hops: nat, contents: Contents)
    requires GroupsServe(p, fs.ctx, contents, hops)
    ensures Supplied(fs.ctx.manifest.buffer, contents)
  {}

  /** A frame holds its part of the tensor, as far as the tensor reaches. */
  lemma FrameShows(p: Prims, fs: Mount, hops: nat, bytes: seq<Byte>, key: Key, inFrame: nat, want: nat)
    requires key.tensor < |fs.table.groups| && Serves(p, fs.ctx, fs.table.groups[key.tensor], bytes, hops)
    requires inFrame + want <= FrameSize && key.frame * FrameSize + inFrame + want <= |bytes|
    ensures FrameBytesOf(p, fs, hops, key).Ok? && |FrameBytesOf(p, fs, hops, key).value.out| == FrameSize
    ensures
      var at := key.frame * FrameSize + inFrame;
      FrameBytesOf(p, fs, hops, key).value.out[inFrame..inFrame + want] == bytes[at..at + want]
  {
    var start := key.frame * FrameSize;
    assert FrameBytesOf(p, fs, hops, key) == Ok(Clip(bytes, start, Zeros(FrameSize)));
    hide ReadRange, FrameBytesOf, Serves;
    ClipShows(bytes, start, FrameSize, inFrame, want);
  }

  lemma ClipShows(bytes: seq<Byte>, start: nat, size: nat, a: nat, k: nat)
    requires a + k <= size && start + a + k <= |bytes|
    ensures |Clip(bytes, start, Zeros(size)).out| == size
    ensures Clip(bytes, start, Zeros(size)).out[a..a + k] == bytes[start + a..start + a + k]
  {
    var n := Min(size, |bytes| - start);
    var part := bytes[start..start + n];
    var out := part + Zeros(size)[n..];
    assert Clip(bytes, start, Zeros(size)).out == out;
    assert out[a..a + k] == part[a..a + k];
    SubSlice(bytes, start, n, a, k);
  }

  /** What the table and the store say about entry i. */
  lemma EntryFacts(p: Prims, fs: Mount, hops: nat, header: seq<Byte>, contents: Contents, v: Interval, i: nat)
    requires Sound(p, fs, hops, header, contents) && i < |fs.ctx.manifest.buffer|
        && EntryInterval(fs.ctx.manifest, fs.table.groups, i, v)
    ensures Supplied(fs.ctx.manifest.buffer, contents) && v.groupOffset == 0 && !v.isHeader
        && v.groupIndex < |fs.table.groups|
    ensures var e := fs.ctx.manifest.buffer[i];
      && fs.table.groups[v.groupIndex] == e.group && e.group in contents && e.nbytes <= |contents[e.group]|
          && v.length == e.nbytes
      && Serves(p, fs.ctx, e.group, contents[e.group], hops)
      && v.fileOffset + v.length <= |File(fs, header, contents)|
      && File(fs, header, contents)[v.fileOffset..v.fileOffset + v.length] == contents[e.group][..e.nbytes]
  {
    hide Stream, WellLaid, GroupBytes, Serves, DistinctGroups, GroupsServe;
    var m := fs.ctx.manifest;
    FirstOfGroup(m, i);
    SupplyOf(p, fs, hops, contents);
    ServedEntry(p, fs, hops, contents, i);
    EntryInStream(m, header, contents, i);
  }

  lemma FirstOfGroup(m: Manifest, i: nat)
    requires WellLaid(m) && DistinctGroups(m) && i < |m.buffer|
    ensures GroupBytes(m.buffer, i, m.buffer[i].group) == 0
  {
    OffsetsAreZero(m);
  }

  lemma ServedEntry(p: Prims, fs: Mount, hops: nat, contents: Contents, i: nat)
    requires GroupsServe(p, fs.ctx, contents, hops) && i < |fs.ctx.manifest.buffer|
    ensures var e := fs.ctx.manifest.buffer[i];
      e.group in contents && e.nbytes <= |contents[e.group]| && Serves(p, fs.ctx, e.group, contents[e.group], hops)
  {
    hide Serves;
  }

  /** The frames of a tensor add up to the tensor. */
  lemma PieceOfTensor(p: Prims, fs: Mount, hops: nat, bytes: seq<Byte>, v: Interval, cur: nat, remaining: nat,
      leases: Leases, step: nat)
    requires Truthful(p, fs, hops, leases) && v.groupOffset == 0 && !v.isHeader && v.groupIndex < |fs.table.groups|
    requires Serves(p, fs.ctx, fs.table.groups[v.groupIndex], bytes, hops) && v.length <= |bytes|
    requires InInterval(v, cur) && remaining > 0
    ensures var r := NextPiece(fs, v, cur, remaining, leases, step);
      var within := cur - v.fileOffset;
      (r.Err? ==> leases(step, KeyOf(fs, v, cur)).Err?)
          && (r.Ok? ==> r.value != [] && within + |r.value| <= v.length && r.value == bytes[within..within + |r.value|])
  {
    hide Serves, FrameBytesOf;
    var within := cur - v.fileOffset;
    var frame := within / FrameSize;
    var inFrame := within - frame * FrameSize;
    var want := Min(Min(remaining, v.length - within), FrameSize - inFrame);
    var key := KeyOf(fs, v, cur);
    var lease := leases(step, key);
    assert lease.Ok? ==> FrameBytesOf(p, fs, hops, key).Ok? && lease.value == FrameBytesOf(p, fs, hops, key).value.out;
    hide Truthful;
    FrameShows(p, fs, hops, bytes, key, inFrame, want);
    if lease.Ok? {
      var show := lease.value;
      assert NextPiece(fs, v, cur, remaining, leases, step) == Ok(show[inFrame..inFrame + want]);
      assert show[inFrame..inFrame + want] == bytes[within..within + want];
    }
  }

  /** A non-empty part of the file. */
  ghost predicate IsPiece(file: seq<Byte>, cur: nat, piece: seq<Byte>) {
    piece != [] && cur + |piece| <= |file| && piece == file[cur..cur + |piece|]
  }

  lemma DataPiece(p: Prims, fs: Mount, hops: nat, header: seq<Byte>, contents: Contents, v: Interval, i: nat,
      cur: nat, remaining: nat, leases: Leases, step: nat)
    requires Sound(p, fs, hops, header, contents) && Truthful(p, fs, hops, leases) && i < |fs.ctx.manifest.buffer|
    requires EntryInterval(fs.ctx.manifest, fs.table.groups, i, v) && InInterval(v, cur) && remaining > 0
    ensures Supplied(fs.ctx.manifest.buffer, contents) && !v.isHeader
    ensures var r := NextPiece(fs, v, cur, remaining, leases, step);
      && (r.Err? ==> leases(step, KeyOf(fs, v, cur)).Err?)
      && (r.Ok? ==> IsPiece(File(fs, header, contents), cur, r.value))
  {
    hide Sound, Truthful, EntryInterval, NextPiece, File, KeyOf, Serves, Supplied;
    EntryFacts(p, fs, hops, header, contents, v, i);
    var e := fs.ctx.manifest.buffer[i];
    var bytes, file := contents[e.group], File(fs, header, contents);
    PieceOfTensor(p, fs, hops, bytes, v, cur, remaining, leases, step);
    var r := NextPiece(fs, v, cur, remaining, leases, step);
    if r.Ok? {
      var within, n := cur - v.fileOffset, |r.value|;
      SliceAgain(file, v.fileOffset, v.fileOffset + v.length, cur, cur + n);
      SliceAgain(bytes, 0, e.nbytes, within, within + n);
      assert bytes[0..e.nbytes] == bytes[..e.nbytes];
    }
  }

  lemma PieceIs(p: Prims, fs: Mount, hops: nat, header: seq<Byte>, contents: Contents, v: Interval, cur: nat,
      remaining: nat, leases: Leases, step: nat)
    requires Sound(p, fs, hops, header, contents) && Truthful(p, fs, hops, leases)
    requires v in fs.table.intervals && InInterval(v, cur) && remaining > 0
    ensures Supplied(fs.ctx.manifest.buffer, contents)
    ensures var r := NextPiece(fs, v, cur, remaining, leases, step);
      && (r.Err? ==> !v.isHeader && leases(step, KeyOf(fs, v, cur)).Err?)
      && (r.Ok? ==> IsPiece(File(fs, header, contents), cur, r.value))
  {
    SupplyOf(p, fs, hops, contents);
    var i := WhichInterval(fs.table, fs.ctx.manifest, v);
    assert |header| == fs.ctx.manifest.buffer[0].off;
    hide Sound, Truthful, NextPiece, File, EntryInterval, KeyOf, Supplied;
    if v.isHeader {
      HeaderPiece(p, fs, hops, header, contents, v, cur, remaining, leases, step);
    } else {
      DataPiece(p, fs, hops, header, contents, v, i, cur, remaining, leases, step);
    }
  }

  /** A read of a byte range of the file asks for frames that hold the group's bytes. */
  lemma NeededIsServed(p: Prims, fs: Mount, hops: nat, header: seq<Byte>, contents: Contents, offset: nat, n: nat,
      key: Key)
    requires Sound(p, fs, hops, header, contents) && Needed(fs, offset, n, key)
    ensures FrameBytesOf(p, fs, hops, key).Ok?
  {
    var v, cur: nat :| v in fs.table.intervals && !v.isHeader && InInterval(v, cur)
      && offset <= cur < offset + n && key == KeyOf(fs, v, cur);
    var i := WhichInterval(fs.table, fs.ctx.manifest, v);
    hide Sound, EntryInterval, FrameBytesOf, Serves, File;
    EntryFacts(p, fs, hops, header, contents, v, i);
    var within := cur - v.fileOffset;
    FrameShows(p, fs, hops, contents[fs.ctx.manifest.buffer[i].group], key, within - key.frame * FrameSize, 1);
  }

  /** SynapseFs::read: when it succeeds, it has copied exactly the slice of the streamed file that exists, whatever
      the cache held or had dropped; it fails only when the cache refuses a frame of that slice. */
  method Read(p: Prims, fs: Mount, offset: nat, out: seq<Byte>, leases: Leases, hops: nat, ghost header: seq<Byte>,
      ghost contents: Contents)
    returns (r: Result<Got>)
    requires Covers(fs.table)
    ensures (Sound(p, fs, hops, header, contents) && Truthful(p, fs, hops, leases)) ==>
      && Supplied(fs.ctx.manifest.buffer, contents)
      && (r.Ok? ==> r.value == Clip(File(fs, header, contents), offset, out))
      && (r.Err? ==> Refused(fs, leases, offset, |out|))
  {
    hide Sound, Truthful, NextPiece, File, Overwrite, Refused, KeyOf;
    ghost var good := Sound(p, fs, hops, header, contents) && Truthful(p, fs, hops, leases);
    if good {
      FileSize(p, fs, hops, header, contents);
    }
    ghost var file := if good then File(fs, header, contents) else [];
    if offset >= fs.table.total || out == [] {
      return Ok(Got(0, out));
    }
    var cur, done, buf, step := offset, 0, out, 0;
    if good {
      ReadStarts(file, offset, out);
    }
    hide Filled, Clip;
    while done < |out| && cur < fs.table.total
      invariant 0 <= done <= |out| == |buf| && cur == offset + done
      invariant good ==> cur <= |file| == fs.table.total && Got(done, buf) == Filled(file, offset, out, cur)
      decreases |out| - done
    {
      var v := Find(fs.table, cur);
      var piece := NextPiece(fs, v.value, cur, |out| - done, leases, step);
      if good {
        PieceIs(p, fs, hops, header, contents, v.value, cur, |out| - done, leases, step);
      }
      if piece.Err? {
        if good {
          RefusedAt(fs, leases, offset, |out|, v.value, cur, step);
        }
        return Err(piece.error);
      }
      if good {
        FillPiece(file, offset, out, cur, cur + |piece.value|);
      }
      if piece.value == [] {
        return Ok(Got(done, buf));
      }
      buf := Overwrite(buf, done, piece.value);
      cur, done, step := cur + |piece.value|, done + |piece.value|, step + 1;
    }
    if good {
      ReadEnds(file, offset, cur, out);
    }
    return Ok(Got(done, buf));
  }

  lemma RefusedAt(fs: Mount, leases: Leases, offset: nat, n: nat, v: Interval, cur: nat, step: nat)
    requires v in fs.table.intervals && !v.isHeader && InInterval(v, cur) && offset <= cur < offset + n
    requires leases(step, KeyOf(fs, v, cur)).Err?
    ensures Refused(fs, leases, offset, n)
  {
    assert Needed(fs, offset, n, KeyOf(fs, v, cur));
  }

  lemma ReadStarts(file: seq<Byte>, offset: nat, out: seq<Byte>)
    requires offset <= |file|
    ensures Filled(file, offset, out, offset) == Got(0, out)
  {}

  lemma ReadEnds(file: seq<Byte>, offset: nat, cur: nat, out: seq<Byte>)
    requires offset <= cur <= |file| && (cur == offset + |out| || cur == |file|)
    ensures Filled(file, offset, out, cur) == Clip(file, offset, out)
  {
    FilledIsClip(file, offset, out);
  }

  lemma FileSize(p: Prims, fs: Mount, hops: nat, header: seq<Byte>, contents: Contents)
    requires Sound(p, fs, hops, header, contents)
    ensures Supplied(fs.ctx.manifest.buffer, contents) && |File(fs, header, contents)| == fs.table.total
  {
    SupplyOf(p, fs, hops, contents);
    hide GroupsServe, DistinctGroups, Stream, WellLaid;
    EntryInStream(fs.ctx.manifest, header, contents, 0);
  }

  // ------------------------------------------------------------- a group twice in the buffer

  /** Why groups must be distinct: with one group twice in the buffer the stream starts it again for the second entry,
      while the mounted file goes on where the first entry left off. */
  lemma RepeatedGroupDiffers(p: Prims, fs: Mount, hops: nat, g: string, leases: Leases, step: nat)
    requires fs.ctx.manifest.buffer == [BufferEntry("a", 0, 1, g), BufferEntry("b", 1, 1, g)]
        && Describes(fs.table, fs.ctx.manifest)
    requires g in fs.ctx.manifest.groups && fs.ctx.manifest.groups[g].Full?
        && fs.ctx.manifest.groups[g].block in fs.ctx.store
    requires fs.ctx.store[fs.ctx.manifest.groups[g].block] == Raw([1, 2])
        && GetHeader(p, fs.ctx.store, fs.ctx.manifest.headerBlock) == Ok([])
    requires Truthful(p, fs, hops, leases)
    ensures StreamOf(p, fs.ctx, hops) == Ok([1, 1])
    ensures |fs.table.intervals| == 2 && fs.table.intervals[1].fileOffset == 1 && fs.table.intervals[1].length == 1
    ensures leases(step, Key(fs.artifact, fs.table.intervals[1].groupIndex, 0)).Ok? ==>
      NextPiece(fs, fs.table.intervals[1], 1, 1, leases, step) == Ok([2])
  {
    hide *;
    var bytes: seq<Byte> := [1, 2];
    FullServes(p, fs.ctx, g, bytes, hops);
    RepeatedStream(p, fs.ctx, hops, g, bytes);
    var v := RepeatedTable(fs.table, fs.ctx.manifest, g);
    RepeatedPiece(p, fs, hops, bytes, v, leases, step);
  }

  /** The second interval goes on at the second byte of the group. */
  lemma RepeatedTable(t: Table, m: Manifest, g: string) returns (v: Interval)
    requires m.buffer == [BufferEntry("a", 0, 1, g), BufferEntry("b", 1, 1, g)] && Describes(t, m)
    ensures |t.intervals| == 2 && v == t.intervals[1] && v.fileOffset == 1 && v.length == 1 && v.groupOffset == 1
    ensures !v.isHeader && v.groupIndex < |t.groups| && t.groups[v.groupIndex] == g
  {
    hide WellLaid, Distinct;
    assert HeaderPart(m) == [];
    assert t.intervals[|HeaderPart(m)|..] == t.intervals;
    v := t.intervals[1];
    assert EntryInterval(m, t.groups, 1, v);
    assert GroupBytes(m.buffer, 0, g) == 0;
  }

  lemma RepeatedPiece(p: Prims, fs: Mount, hops: nat, bytes: seq<Byte>, v: Interval, leases: Leases, step: nat)
    requires Truthful(p, fs, hops, leases) && v.fileOffset == 1 && v.length == 1 && v.groupOffset == 1 && !v.isHeader
    requires v.groupIndex < |fs.table.groups| && Serves(p, fs.ctx, fs.table.groups[v.groupIndex], bytes, hops)
    requires bytes == [1, 2]
    ensures leases(step, Key(fs.artifact, v.groupIndex, 0)).Ok? ==> NextPiece(fs, v, 1, 1, leases, step) == Ok([2])
  {
    var key := Key(fs.artifact, v.groupIndex, 0);
    hide FrameBytesOf, Serves;
    assert leases(step, key).Ok? ==>
      FrameBytesOf(p, fs, hops, key).Ok? && leases(step, key).value == FrameBytesOf(p, fs, hops, key).value.out;
    hide Truthful;
    FrameShows(p, fs, hops, bytes, key, 1, 1);
    assert bytes[1..2] == [2];
    assert KeyOf(fs, v, 1) == key;
  }

  lemma RepeatedStream(p: Prims, ctx: Ctx, hops: nat, g: string, bytes: seq<Byte>)
    requires ctx.manifest.buffer == [BufferEntry("a", 0, 1, g), BufferEntry("b", 1, 1, g)] && g in ctx.manifest.groups
    requires Serves(p, ctx, g, bytes, hops) && bytes == [1, 2]
        && GetHeader(p, ctx.store, ctx.manifest.headerBlock) == Ok([])
    ensures StreamOf(p, ctx, hops) == Ok([1, 1])
  {
    hide Serves, ReadRange, GetHeader, StreamOf;
    var contents := map[g := bytes];
    assert GroupsServe(p, ctx, contents, hops);
    StreamIs(p, ctx, hops, contents);
    var buffer := ctx.manifest.buffer;
    assert bytes[..1] == [1];
    assert DataBytes(buffer, contents, 0) == [];
    assert DataBytes(buffer, contents, 1) == [1];
    assert DataBytes(buffer, contents, 2) == [1, 1];
    var none: seq<Byte> := [];
    assert none + DataBytes(buffer, contents, 2) == [1, 1];
  }
}
