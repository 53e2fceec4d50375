/** The loose-object container (modules/format/src/object.cpp): a 40-byte header, a table of chunk digests, the
    payload. */
module Container {
  import opened Common
  import opened Arith
  import opened Endian
  import opened Gather
  import opened Records

  const DigestBytes: nat := 32
  const HeaderBytes: nat := 40
  const Magic: seq<Byte> := [0x53, 0x46, 0x53, 0x4F, 0x42, 0x4A, 0, 1]

  /** Hashing is library code; a digest is 32 bytes. */
  datatype Hashes = Hashes(prefix: (Byte, nat) -> seq<Byte>, hash: seq<Byte> -> Oid, digest: seq<Byte> -> seq<Byte>)

  ghost predicate DigestsFit(h: Hashes) { forall x :: |h.digest(x)| == DigestBytes }

  /** The address of an object: the hash of its frame, kind and length first. */
  function Address(h: Hashes, kind: Byte, payload: seq<Byte>): Oid {
    h.hash(h.prefix(kind, |payload|) + payload)
  }

  // ------------------------------------------------------------- the header

  datatype ObjectHeader = ObjectHeader(kind: Byte, compression: Byte, chunkLog: nat, payloadLen: nat, storedLen: nat,
      chunkCount: nat)

  /** Fields are cut to their width. */
  function EncodeHeader(o: ObjectHeader): (r: seq<Byte>)
    ensures |r| == HeaderBytes
  {
    Magic + [o.kind, o.compression] + StoreLe(o.chunkLog, 4) + StoreLe(o.payloadLen, 8) + StoreLe(o.storedLen,
        8) + StoreLe(o.chunkCount, 4) + Zeros(6)
  }

  function DecodeHeader(b: seq<Byte>): Result<ObjectHeader> {
    if |b| < HeaderBytes || b[..8] != Magic then Err(MalformedObject) else
      Ok(ObjectHeader(b[8], b[9], LoadLe(b[10..14]), LoadLe(b[14..22]), LoadLe(b[22..30]), LoadLe(b[30..34])))
  }

  ghost predicate FieldsFit(o: ObjectHeader) {
    o.chunkLog < Radix(4) && o.payloadLen < Radix(8) && o.storedLen < Radix(8) && o.chunkCount < Radix(4)
  }

  /** A header reads back from the front of any file it starts. */
  lemma HeaderRoundTrip(o: ObjectHeader, rest: seq<Byte>)
    requires FieldsFit(o)
    ensures DecodeHeader(EncodeHeader(o) + rest) == Ok(o)
  {
    hide StoreLe, LoadLe, Radix;
    var a, b, c, d := StoreLe(o.chunkLog, 4), StoreLe(o.payloadLen, 8), StoreLe(o.storedLen, 8),
        StoreLe(o.chunkCount, 4);
    LoadStore(o.chunkLog, 4);
    LoadStore(o.payloadLen, 8);
    LoadStore(o.storedLen, 8);
    LoadStore(o.chunkCount, 4);
    var all := EncodeHeader(o) + rest;
    assert all[..8] == Magic && all[8] == o.kind && all[9] == o.compression;
    assert all[10..14] == a;
    assert all[14..22] == b;
    assert all[22..30] == c;
    assert all[30..34] == d;
  }

  /** A header is accepted exactly when it is long enough and starts with the magic bytes, and then it is the header
      that was written: encoding it again gives the same fields. */
  lemma HeaderAccepted(b: seq<Byte>)
    ensures DecodeHeader(b).Ok? <==> |b| >= 40 && b[..8] == [0x53, 0x46, 0x53, 0x4F, 0x42, 0x4A, 0x00, 0x01]
    ensures DecodeHeader(b).Ok? ==> EncodeHeader(DecodeHeader(b).value)[..34] == b[..34]
  {
    hide StoreLe, LoadLe;
    if DecodeHeader(b).Ok? {
      StoreLoad(b[10..14]);
      StoreLoad(b[14..22]);
      StoreLoad(b[22..30]);
      StoreLoad(b[30..34]);
      EncodedFront(DecodeHeader(b).value);
      hide DecodeHeader, EncodeHeader;
      FrontParts(b);
    }
  }

  lemma EncodedFront(o: ObjectHeader)
    ensures EncodeHeader(o)[..34] == Magic + [o.kind, o.compression] + StoreLe(o.chunkLog, 4)
        + StoreLe(o.payloadLen, 8) + StoreLe(o.storedLen, 8) + StoreLe(o.chunkCount, 4)
  {
    hide StoreLe;
    var front := Magic + [o.kind, o.compression] + StoreLe(o.chunkLog, 4) + StoreLe(o.payloadLen, 8)
        + StoreLe(o.storedLen, 8) + StoreLe(o.chunkCount, 4);
    assert EncodeHeader(o) == front + Zeros(6);
  }

  lemma FrontParts(b: seq<Byte>)
    requires |b| >= 34
    ensures b[..34] == b[..8] + [b[8], b[9]] + b[10..14] + b[14..22] + b[22..30] + b[30..34]
  {
    assert b[..10] == b[..8] + [b[8], b[9]];
    assert b[..14] == b[..10] + b[10..14];
    assert b[..22] == b[..14] + b[14..22];
    assert b[..30] == b[..22] + b[22..30];
    assert b[..34] == b[..30] + b[30..34];
  }

  /** Where the fields lie: magic, kind, compression, then little-endian numbers of 4, 8, 8 and 4 bytes, then zeros.
      */
  lemma HeaderLayout(o: ObjectHeader)
    requires FieldsFit(o)
    ensures var b := EncodeHeader(o);
      && b[..8] == [0x53, 0x46, 0x53, 0x4F, 0x42, 0x4A, 0x00, 0x01] && b[8] == o.kind && b[9] == o.compression
      && LoadLe(b[10..14]) == o.chunkLog && LoadLe(b[14..22]) == o.payloadLen
      && LoadLe(b[22..30]) == o.storedLen && LoadLe(b[30..34]) == o.chunkCount
      && forall i :: 34 <= i < 40 ==> b[i] == 0
  {
    hide LoadLe, StoreLe, FieldsFit;
    var b := EncodeHeader(o);
    HeaderRoundTrip(o, []);
    assert b + [] == b;
  }

  // ------------------------------------------------------------- chunk digests

  /** The next chunk of a payload. */
  function Chunk(payload: seq<Byte>, c: nat): (r: seq<Byte>)
    requires c > 0
    ensures payload != [] ==> r != [] && |r| <= |payload|
  {
    payload[..Min(c, |payload|)]
  }

  function Digests(h: Hashes, payload: seq<Byte>, c: nat): seq<Byte>
    requires c > 0
  {
    if payload == [] then [] else h.digest(Chunk(payload, c)) + Digests(h, payload[|Chunk(payload, c)|..], c)
  }

  /** How many chunks a payload has. */
  function ChunkCount(n: nat, c: nat): nat
    requires c > 0
  {
    (n + c - 1) / c
  }

  lemma CountStep(n: nat, c: nat)
    requires c > 0 && n > 0
    ensures ChunkCount(n, c) == 1 + ChunkCount(n - Min(c, n), c) && ChunkCount(0, c) == 0
  {
    if n <= c {
      DivUnique(1, n - 1, c);
      DivUnique(0, c - 1, c);
    } else {
      var q, r := (n - 1) / c, (n - 1) % c;
      assert n - 1 == q * c + r;
      DivUnique(q + 1, r, c);
      MulSucc(q, c);
      DivUnique(q, r, c);
      DivUnique(0, c - 1, c);
    }
  }

  lemma {:induction false} DigestsSize(h: Hashes, payload: seq<Byte>, c: nat)
    requires DigestsFit(h) && c > 0
    ensures |Digests(h, payload, c)| == ChunkCount(|payload|, c) * DigestBytes
    decreases |payload|
  {
    hide ChunkCount;
    if payload == [] {
      CountStep(1, c);
    } else {
      CountStep(|payload|, c);
      DigestsSize(h, payload[|Chunk(payload, c)|..], c);
    }
  }

  /** Chunk i of a payload, by position. */
  function ChunkAt(payload: seq<Byte>, c: nat, i: nat): seq<Byte>
    requires i * c < |payload|
  {
    payload[i * c..Min(i * c + c, |payload|)]
  }

  /** Entry i of the table is the digest of chunk i. */
  lemma {:induction false} DigestAt(h: Hashes, payload: seq<Byte>, c: nat, i: nat)
    requires DigestsFit(h) && c > 0 && i * c < |payload|
    ensures i * DigestBytes + DigestBytes <= |Digests(h, payload, c)|
    ensures Digests(h, payload, c)[i * DigestBytes..i * DigestBytes + DigestBytes] == h.digest(ChunkAt(payload, c, i))
    decreases i
  {
    var first := Chunk(payload, c);
    if i == 0 {
      assert ChunkAt(payload, c, 0) == first;
      assert Digests(h, payload, c)[..DigestBytes] == h.digest(first);
    } else {
      MulSucc(i - 1, c);
      assert |first| == c;
      var rest := payload[c..];
      DigestAt(h, rest, c, i - 1);
      NextChunk(payload, c, i);
      SliceOfConcat(h.digest(first), Digests(h, rest, c), (i - 1) * DigestBytes, DigestBytes);
    }
  }

  lemma NextChunk(payload: seq<Byte>, c: nat, i: nat)
    requires c > 0 && i > 0 && i * c < |payload| && c <= |payload| && (i - 1) * c < |payload[c..]|
    ensures ChunkAt(payload[c..], c, i - 1) == ChunkAt(payload, c, i)
  {
    MulSucc(i - 1, c);
  }

  /** Digests of whole chunks, then of what follows them. */
  lemma {:induction false} DigestsAppend(h: Hashes, full: seq<Byte>, n: nat, c: nat, tail: seq<Byte>)
    requires c > 0 && |full| == n * c
    ensures Digests(h, full + tail, c) == Digests(h, full, c) + Digests(h, tail, c)
    decreases n
  {
    if n == 0 {
      assert full == [] && full + tail == tail;
    } else {
      MulSucc(n - 1, c);
      MulLe(0, n - 1, c);
      var all := full + tail;
      assert |Chunk(all, c)| == c && Chunk(all, c) == Chunk(full, c);
      assert all[c..] == full[c..] + tail;
      DigestsAppend(h, full[c..], n - 1, c, tail);
    }
  }

  lemma OneChunk(h: Hashes, chunk: seq<Byte>, c: nat)
    requires c > 0 && 0 < |chunk| <= c
    ensures Digests(h, chunk, c) == h.digest(chunk)
  {
    assert Chunk(chunk, c) == chunk;
    assert chunk[|chunk|..] == [];
    assert Digests(h, [], c) == [];
  }

  /** compute_chunk_digests: one digest per chunk, in order. */
  method ComputeDigests(h: Hashes, payload: seq<Byte>, c: nat) returns (out: seq<Byte>)
    requires c > 0
    ensures out == Digests(h, payload, c)
  {
    out := [];
    var off := 0;
    assert payload[0..] == payload;
    while off < |payload|
      invariant 0 <= off <= |payload| && out + Digests(h, payload[off..], c) == Digests(h, payload, c)
    {
      var n := Min(c, |payload| - off);
      var rest := payload[off..];
      assert Chunk(rest, c) == payload[off..off + n];
      assert rest[n..] == payload[off + n..];
      out := out + h.digest(payload[off..off + n]);
      off := off + n;
    }
    assert payload[off..] == [];
  }

  // ------------------------------------------------------------- the file

  /** 2 to the power k. */
  function Pow2(k: nat): (r: nat)
    ensures r >= 1
  {
    if k == 0 then 1 else 2 * Pow2(k - 1)
  }

  lemma {:induction false} Pow2Adds(j: nat, k: nat)
    ensures Pow2(j + k) == Pow2(j) * Pow2(k) && Pow2(1) == 2
  {
    if k > 0 {
      Pow2Adds(j, k - 1);
    }
  }

  function HeaderOf(h: Hashes, kind: Byte, payload: seq<Byte>, log: nat): ObjectHeader {
    ObjectHeader(kind, 0, log, |payload|, |payload|, |Digests(h, payload, Pow2(log))| / DigestBytes)
  }

  /** The whole file of an object. */
  function FileOf(h: Hashes, kind: Byte, payload: seq<Byte>, log: nat): seq<Byte> {
    EncodeHeader(HeaderOf(h, kind, payload, log)) + Digests(h, payload, Pow2(log)) + payload
  }

  /** Content addressing: an existing file is left as it is. */
  function PutFile(files: map<Oid, seq<Byte>>, h: Hashes, kind: Byte, payload: seq<Byte>, log: nat): map<Oid,
      seq<Byte>> {
    var oid := Address(h, kind, payload);
    if oid in files then files else files[oid := FileOf(h, kind, payload, log)]
  }

  /** The object directory. */
  class Directory {
    var files: map<Oid, seq<Byte>>

    constructor ()
      ensures files == map[]
    {
      files := map[];
    }

    /** put: the whole payload at once. */
    method Store(h: Hashes, kind: Byte, payload: seq<Byte>, log: nat) returns (oid: Oid)
      modifies this
      ensures oid == Address(h, kind, payload) && files == PutFile(old(files), h, kind, payload, log)
    {
      oid := Address(h, kind, payload);
      if oid !in files {
        var digests := ComputeDigests(h, payload, Pow2(log));
        files := files[oid := EncodeHeader(ObjectHeader(kind, 0, log, |payload|, |payload|,
            |digests| / DigestBytes)) + digests + payload];
      }
    }
  }

  // ------------------------------------------------------------- the streaming writer

  /** n whole chunks have been digested. */
  ghost predicate Digested(h: Hashes, c: nat, full: seq<Byte>, n: nat, digests: seq<Byte>) {
    c > 0 && |full| == n * c && digests == Digests(h, full, c)
  }

  /** One more whole chunk: one more digest. */
  lemma TakeChunk(h: Hashes, c: nat, full: seq<Byte>, n: nat, digests: seq<Byte>, chunk: seq<Byte>)
    requires Digested(h, c, full, n, digests) && |chunk| == c
    ensures Digested(h, c, full + chunk, n + 1, digests + h.digest(chunk))
  {
    DigestsAppend(h, full, n, c, chunk);
    OneChunk(h, chunk, c);
    MulSucc(n, c);
  }

  /** The last, partial chunk. */
  lemma FlushLast(h: Hashes, c: nat, full: seq<Byte>, n: nat, digests: seq<Byte>, buffer: seq<Byte>)
    requires Digested(h, c, full, n, digests) && |buffer| < c
    ensures Digests(h, full + buffer, c) == if buffer == [] then digests else digests + h.digest(buffer)
  {
    if buffer == [] {
      assert full + buffer == full;
    } else {
      DigestsAppend(h, full, n, c, buffer);
      OneChunk(h, buffer, c);
    }
  }

  class StreamingWriter {
    const h: Hashes
    const kind: Byte
    const log: nat
    const expected: nat
    /** The temporary file. */
    var file: seq<Byte>
    var written: nat
    /** What the hasher has been fed. */
    var hashed: seq<Byte>
    var buffer: seq<Byte>
    var digests: seq<Byte>
    /** The chunks already digested. */
    ghost var full: seq<Byte>
    ghost var chunks: nat

    ghost predicate Valid()
      reads this
    {
      && written == |file| && hashed == h.prefix(kind, expected) + file
      && file == full + buffer && |buffer| < Pow2(log) && Digested(h, Pow2(log), full, chunks, digests)
    }

    constructor (h: Hashes, kind: Byte, log: nat, expected: nat)
      ensures Valid() && file == [] && this.h == h && this.kind == kind && this.log == log && this.expected == expected
    {
      this.h, this.kind, this.log, this.expected := h, kind, log, expected;
      file, written, hashed, buffer, digests, full, chunks := [], 0, h.prefix(kind, expected), [], [], [], 0;
    }

    /** Fold data into the open chunk, closing a digest at every boundary. */
    method Write(data: seq<Byte>)
      requires Valid()
      modifies this
      ensures Valid() && file == old(file) + data
    {
      hide Digested, Pow2;
      ghost var before := file;
      var c := Pow2(log);
      hashed := hashed + data;
      var off := 0;
      while off < |data|
        invariant 0 <= off <= |data| && |buffer| < c && Digested(h, c, full, chunks, digests)
            && full + buffer == before + data[..off]
        invariant file == before && written == |before| && hashed == h.prefix(kind, expected) + before + data
      {
        var take := Min(c - |buffer|, |data| - off);
        var more := data[off..off + take];
        assert data[..off + take] == data[..off] + more;
        assert full + (buffer + more) == (full + buffer) + more == before + (data[..off] + more);
        buffer := buffer + more;
        off := off + take;
        if |buffer| == c {
          TakeChunk(h, c, full, chunks, digests, buffer);
          digests := digests + h.digest(buffer);
          full, chunks := full + buffer, chunks + 1;
          buffer := [];
          assert full + buffer == full;
        }
      }
      assert data[..off] == data;
      file, written := file + data, written + |data|;
    }

    /** commit: the same address and the same file as a one-shot put of everything written. */
    method Commit(dir: Directory) returns (r: Result<Oid>)
      requires Valid()
      modifies this, dir
      ensures |old(file)| != expected ==> r == Err(Internal) && dir.files == old(dir.files)
      ensures |old(file)| == expected ==>
          r == Ok(Address(h, kind, old(file))) && dir.files == PutFile(old(dir.files), h, kind, old(file), log)
    {
      FlushLast(h, Pow2(log), full, chunks, digests, buffer);
      if buffer != [] {
        digests, buffer := digests + h.digest(buffer), [];
      }
      if written != expected {
        return Err(Internal);
      }
      var oid := h.hash(hashed);
      if oid !in dir.files {
        var header := ObjectHeader(kind, 0, log, expected, expected, |digests| / DigestBytes);
        dir.files := dir.files[oid := EncodeHeader(header) + digests + file];
      }
      return Ok(oid);
    }
  }

  // ------------------------------------------------------------- any split

  function Joined(parts: seq<seq<Byte>>): seq<Byte> {
    if parts == [] then [] else Joined(parts[..|parts| - 1]) + parts[|parts| - 1]
  }

  /** However a payload is cut into pieces, streaming it is putting it. */
  method StreamParts(dir: Directory, h: Hashes, kind: Byte, parts: seq<seq<Byte>>, log: nat) returns (r: Result<Oid>)
    modifies dir
    ensures r == Ok(Address(h, kind, Joined(parts)))
        && dir.files == PutFile(old(dir.files), h, kind, Joined(parts), log)
  {
    var total := 0;
    var k := 0;
    while k < |parts|
      invariant 0 <= k <= |parts| && total == |Joined(parts[..k])|
    {
      assert parts[..k + 1][..k] == parts[..k];
      total := total + |parts[k]|;
      k := k + 1;
    }
    assert parts[..k] == parts;
    var w := new StreamingWriter(h, kind, log, total);
    k := 0;
    while k < |parts|
      invariant 0 <= k <= |parts| && w.Valid() && fresh(w) && w.file == Joined(parts[..k])
          && dir.files == old(dir.files)
    {
      assert parts[..k + 1][..k] == parts[..k];
      w.Write(parts[k]);
      k := k + 1;
    }
    assert parts[..k] == parts;
    r := w.Commit(dir);
  }

  // ------------------------------------------------------------- ranged reads

  /** chunks_covering, for a range that is not empty: first and last chunk. */
  function ChunksCovering(off: nat, len: nat, c: nat): (r: (nat, nat))
    requires c > 0
  {
    if len == 0 then (0, 0) else (off / c, (off + len - 1) / c)
  }

  /** chunk_extent: where a chunk starts and how long it is. */
  function ChunkExtent(i: nat, c: nat, total: nat): (r: (nat, nat))
    requires i * c <= total
  {
    (i * c, if i * c + c > total then total - i * c else c)
  }

  /** The extents name the chunks, and lie next to each other. */
  lemma ExtentIsChunk(payload: seq<Byte>, c: nat, i: nat)
    requires i * c < |payload|
    ensures
      var e := ChunkExtent(i, c, |payload|);
      e.0 + e.1 <= |payload| && ChunkAt(payload, c, i) == payload[e.0..e.0 + e.1]
  {}

  /** verify_chunk. */
  function VerifyChunk(h: Hashes, chunk: seq<Byte>, table: seq<Byte>, i: nat): Option<Error> {
    if i * DigestBytes + DigestBytes > |table| then Some(MalformedObject) else
    if h.digest(chunk) != table[i * DigestBytes..i * DigestBytes + DigestBytes] then Some(ChunkDigestMismatch) else None
  }

  /** What read_range finds in a file: its header, checked. */
  function OpenFile(file: seq<Byte>, kind: Byte): Result<ObjectHeader> {
    var o :- DecodeHeader(file);
    if o.kind != kind then Err(ObjectKindMismatch) else if o.compression != 0 then Err(NotImplemented) else Ok(o)
  }

  /** Only an object of the kind asked for, stored as it is, is read. */
  lemma OpenedHasKind(file: seq<Byte>, kind: Byte)
    requires OpenFile(file, kind).Ok?
    ensures |file| >= 40 && file[8] == kind && file[9] == 0
  {
    hide LoadLe;
  }

  ghost predicate SizesFit(h: Hashes, payload: seq<Byte>, log: nat) {
    log < Radix(4) && |payload| < Radix(8) && ChunkCount(|payload|, Pow2(log)) < Radix(4)
  }

  lemma OpenIs(h: Hashes, kind: Byte, payload: seq<Byte>, log: nat)
    requires DigestsFit(h) && SizesFit(h, payload, log)
    ensures var file, table := FileOf(h, kind, payload, log), Digests(h, payload, Pow2(log));
      && OpenFile(file, kind) == Ok(ObjectHeader(kind, 0, log, |payload|, |payload|, ChunkCount(|payload|, Pow2(log))))
      && |table| == ChunkCount(|payload|, Pow2(log)) * DigestBytes && |file| == HeaderBytes + |table| + |payload|
      && file[HeaderBytes..HeaderBytes + |table|] == table && file[HeaderBytes + |table|..] == payload
  {
    hide Radix, ChunkCount, Digests, EncodeHeader, DecodeHeader;
    var o, table := HeaderOf(h, kind, payload, log), Digests(h, payload, Pow2(log));
    DigestsSize(h, payload, Pow2(log));
    DivUnique(ChunkCount(|payload|, Pow2(log)), 0, DigestBytes);
    assert o.chunkCount == ChunkCount(|payload|, Pow2(log));
    HeaderRoundTrip(o, table + payload);
    var head := EncodeHeader(o);
    assert FileOf(h, kind, payload, log) == head + (table + payload);
    SliceOfConcat(head, table + payload, 0, |table|);
    assert (table + payload)[..|table|] == table;
  }

  /** A put file is intact, and its header says how to read it. */
  lemma PutIsIntact(h: Hashes, kind: Byte, payload: seq<Byte>, log: nat, file: seq<Byte>)
    requires DigestsFit(h) && SizesFit(h, payload, log) && file == FileOf(h, kind, payload, log)
    ensures OpenFile(file, kind).Ok?
    ensures var o := OpenFile(file, kind).value;
      && o.payloadLen == |payload| && o.chunkLog == log && HeaderBytes + o.chunkCount * DigestBytes <= |file|
      && Intact(h, file, o, file[HeaderBytes..HeaderBytes + o.chunkCount * DigestBytes], Pow2(log), payload)
  {
    OpenIs(h, kind, payload, log);
    hide Digests, ChunkCount, FileOf, OpenFile;
  }

  /** The chunk a position lies in, and where that chunk would end. */
  function ChunkOf(pos: nat, c: nat): nat
    requires c > 0
  {
    pos / c
  }

  function ChunkEnd(pos: nat, c: nat): int
    requires c > 0
  {
    (pos / c) * c + c
  }

  lemma InChunk(pos: nat, c: nat, total: nat)
    requires c > 0 && pos < total
    ensures 0 <= (pos / c) * c <= pos < (pos / c) * c + c && (pos / c) * c < total
  {
    assert pos == (pos / c) * c + pos % c;
  }

  /** The next position is in the next chunk, or the range is done. */
  lemma NextPosition(pos: nat, take: nat, c: nat)
    requires c > 0 && pos + take == (pos / c) * c + c
    ensures (pos + take) / c == pos / c + 1 && (pos + take - 1) / c == pos / c
  {
    var q := pos / c;
    MulSucc(q, c);
    DivUnique(q + 1, 0, c);
    DivUnique(q, c - 1, c);
  }

  /** Consecutive chunk numbers. */
  function Numbers(first: nat, last: nat): (r: seq<nat>)
    requires first <= last + 1
  {
    seq(last + 1 - first, i requires 0 <= i < last + 1 - first => first + i)
  }

  /** What a good file and its header promise the reader. */
  ghost predicate Intact(h: Hashes, file: seq<Byte>, o: ObjectHeader, table: seq<Byte>, c: nat, payload: seq<Byte>) {
    && DigestsFit(h) && o.payloadLen == |payload| && c > 0 && table == Digests(h, payload, c) && |file| >= |payload|
    && HeaderBytes + o.chunkCount * DigestBytes + |payload| == |file|
        && file[HeaderBytes + o.chunkCount * DigestBytes..] == payload
  }

  /** No two byte strings share a digest. */
  ghost predicate DigestsDiffer(h: Hashes) { forall x, y :: h.digest(x) == h.digest(y) ==> x == y }

  /** Header and digest table are the object's; what follows may be anything. */
  ghost predicate Labelled(h: Hashes, o: ObjectHeader, table: seq<Byte>, c: nat, payload: seq<Byte>) {
    DigestsFit(h) && DigestsDiffer(h) && o.payloadLen == |payload| && c > 0 && table == Digests(h, payload, c)
  }

  /** One chunk of a ranged read: read it, check it, give the part asked for. */
  method ReadChunk(h: Hashes, file: seq<Byte>, o: ObjectHeader, table: seq<Byte>, c: nat, pos: nat, left: nat,
      ghost payload: seq<Byte>)
    returns (r: Result<seq<Byte>>)
    requires c > 0 && left > 0 && pos + left <= o.payloadLen
    ensures r.Ok? ==> 0 < |r.value| <= left
    ensures Intact(h, file, o, table, c, payload) ==>
      && pos < |payload| && r.Ok? && |r.value| == Min(left, ChunkEnd(pos, c) - pos) && pos + |r.value| <= |payload|
          && r.value == payload[pos..pos + |r.value|]
    ensures Labelled(h, o, table, c, payload) && r.Ok? ==>
      && pos < |payload| && |r.value| == Min(left, ChunkEnd(pos, c) - pos) && pos + |r.value| <= |payload|
      && r.value == payload[pos..pos + |r.value|]
  {
    hide Intact, Labelled, Digests, VerifyChunk, ChunkAt;
    InChunk(pos, c, o.payloadLen);
    var i := pos / c;
    var start := i * c;
    var len := Min(c, o.payloadLen - start);
    var at := HeaderBytes + o.chunkCount * DigestBytes + start;
    ghost var good, labelled := Intact(h, file, o, table, c, payload), Labelled(h, o, table, c, payload);
    if good {
      ChunkIsGood(h, file, o, table, c, payload, i);
    }
    if at + len > |file| {
      return Err(Internal);
    }
    var chunk := file[at..at + len];
    var bad := VerifyChunk(h, chunk, table, i);
    if bad.Some? {
      return Err(bad.value);
    }
    if labelled {
      ChunkIsRight(h, o, table, c, payload, i, chunk);
    }
    var within := pos - start;
    var take := Min(left, len - within);
    if good || labelled {
      PartOfChunk(payload, start, len, within, take);
    }
    return Ok(chunk[within..within + take]);
  }

  /** A chunk of an intact file is the payload's and passes the check. */
  lemma ChunkIsGood(h: Hashes, file: seq<Byte>, o: ObjectHeader, table: seq<Byte>, c: nat, payload: seq<Byte>, i: nat)
    requires Intact(h, file, o, table, c, payload) && i * c < o.payloadLen
    ensures o.payloadLen == |payload|
    ensures var at, len := HeaderBytes + o.chunkCount * DigestBytes + i * c, Min(c, |payload| - i * c);
      && 0 <= i * c && 0 <= at && at + len <= |file| && file[at..at + len] == payload[i * c..i * c + len]
      && VerifyChunk(h, file[at..at + len], table, i).None?
  {
    DigestAt(h, payload, c, i);
    ChunkIsThere(file, payload, HeaderBytes + o.chunkCount * DigestBytes, c, i, Min(c, |payload| - i * c));
    hide Digests;
  }

  /** A chunk that passes the check is the payload's. */
  lemma ChunkIsRight(h: Hashes, o: ObjectHeader, table: seq<Byte>, c: nat, payload: seq<Byte>, i: nat,
      chunk: seq<Byte>)
    requires Labelled(h, o, table, c, payload) && i * c < o.payloadLen && VerifyChunk(h, chunk, table, i).None?
    ensures o.payloadLen == |payload| && chunk == payload[i * c..i * c + Min(c, |payload| - i * c)]
  {
    DigestAt(h, payload, c, i);
    hide Digests;
  }

  lemma ChunkIsThere(file: seq<Byte>, payload: seq<Byte>, at: nat, c: nat, i: nat, len: nat)
    requires at + |payload| == |file| && file[at..] == payload && i * c < |payload| && len == Min(c, |payload| - i * c)
    ensures 0 <= i * c && file[at + i * c..at + i * c + len] == ChunkAt(payload, c, i) == payload[i * c..i * c + len]
  {
    var s := i * c;
    assert file[at..][s..s + len] == file[at + s..at + s + len];
  }

  lemma PartOfChunk(payload: seq<Byte>, start: nat, len: nat, within: nat, take: nat)
    requires start + len <= |payload| && within + take <= len
    ensures payload[start..start + len][within..within + take] == payload[start + within..start + within + take]
  {
    SubSlice(payload, start, len, within, take);
  }
}
