/** Ranged reads of a stored object (modules/store/src/loose.cpp): the slice asked for, and no chunk verified that it
    does not touch. */
module ObjectReads {
  import opened Common
  import opened Arith
  import opened Records
  import opened Reader
  import opened ReadBack
  import opened Container

  /** Chunks from that of byte `off` on have been checked, up to but not including that of the next byte to read. */
  ghost predicate Checked(verified: seq<nat>, off: nat, c: nat, done: nat, want: nat)
    requires c > 0
  {
    && (forall i :: 0 <= i < |verified| ==> verified[i] == off / c + i)
    && (done < want ==> (off + done) / c == off / c + |verified|)
    && (done == want && done > 0 ==> verified != [] && (off + want - 1) / c == off / c + |verified| - 1)
  }

  lemma CheckedNext(verified: seq<nat>, off: nat, c: nat, done: nat, want: nat, take: nat)
    requires c > 0 && Checked(verified, off, c, done, want) && done < want && take > 0
    requires take == Min(want - done, ChunkEnd(off + done, c) - (off + done))
    ensures Checked(verified + [ChunkOf(off + done, c)], off, c, done + take, want)
  {
    var pos := off + done;
    var q := pos / c;
    if done + take < want {
      NextPosition(pos, take, c);
    } else {
      assert pos == q * c + pos % c;
      DivUnique(q, pos + take - 1 - q * c, c);
    }
  }

  lemma CheckedAll(verified: seq<nat>, off: nat, c: nat, want: nat)
    requires c > 0 && want > 0 && Checked(verified, off, c, want, want)
    ensures var r := ChunksCovering(off, want, c); r.0 <= r.1 && verified == Numbers(r.0, r.1)
  {}

  /** The chunk loop. */
  method ReadChunks(h: Hashes, file: seq<Byte>, o: ObjectHeader, table: seq<Byte>, c: nat, offset: nat,
      out: seq<Byte>, want: nat, ghost payload: seq<Byte>)
    returns (r: Result<Got>, ghost verified: seq<nat>)
    requires c > 0 && want <= |out| && offset + want <= o.payloadLen
    ensures want == 0 ==> verified == []
    ensures Intact(h, file, o, table, c, payload) ==> r == Ok(Filled(payload, offset, out, offset + want))
    ensures Intact(h, file, o, table, c, payload) ==> Checked(verified, offset, c, want, want)
    ensures Labelled(h, o, table, c, payload) && r.Ok? ==> r.value == Filled(payload, offset, out, offset + want)
  {
    hide Filled, Checked, Overwrite, Intact, Min, ChunkEnd, ChunkOf, Labelled;
    ghost var intact := Intact(h, file, o, table, c, payload);
    ghost var good := intact || Labelled(h, o, table, c, payload);
    var buf, done := out, 0;
    verified := [];
    if good {
      IntactSize(h, file, o, table, c, payload);
      FilledStart(payload, offset, out);
    }
    NoneChecked(offset, c, want);
    while done < want
      invariant 0 <= done <= want && |buf| == |out|
          && (good ==> Got(done, buf) == Filled(payload, offset, out, offset + done))
      invariant (good ==> Checked(verified, offset, c, done, want)) && (done == 0 ==> verified == [])
    {
      var piece := ReadChunk(h, file, o, table, c, offset + done, want - done, payload);
      if piece.Err? {
        return Err(piece.error), verified;
      }
      var take := |piece.value|;
      if good {
        FillPiece(payload, offset, out, offset + done, offset + done + take);
        CheckedNext(verified, offset, c, done, want, take);
      }
      verified := verified + [ChunkOf(offset + done, c)];
      buf := Overwrite(buf, done, piece.value);
      done := done + take;
    }
    return Ok(Got(done, buf)), verified;
  }

  lemma IntactSize(h: Hashes, file: seq<Byte>, o: ObjectHeader, table: seq<Byte>, c: nat, payload: seq<Byte>)
    requires Intact(h, file, o, table, c, payload) || Labelled(h, o, table, c, payload)
    ensures |payload| == o.payloadLen
  {}

  lemma NoneChecked(off: nat, c: nat, want: nat)
    requires c > 0
    ensures Checked([], off, c, 0, want)
  {}

  lemma FilledStart(payload: seq<Byte>, offset: nat, out: seq<Byte>)
    requires offset <= |payload|
    ensures Filled(payload, offset, out, offset) == Got(0, out)
  {}

  lemma FilledAll(payload: seq<Byte>, offset: nat, out: seq<Byte>, want: nat)
    requires offset < |payload| && want == Min(|out|, |payload| - offset)
    ensures Filled(payload, offset, out, offset + want) == Clip(payload, offset, out)
  {
    FilledIsClip(payload, offset, out);
  }

  /** read_range: exactly the slice that exists, and exactly the covering chunks verified, each once. */
  method ReadObject(h: Hashes, file: seq<Byte>, kind: Byte, offset: nat, out: seq<Byte>, ghost payload: seq<Byte>,
      ghost log: nat)
    returns (r: Result<Got>, ghost verified: seq<nat>)
    ensures (DigestsFit(h) && SizesFit(h, payload, log) && file == FileOf(h, kind, payload, log)) ==>
        r == Ok(Clip(payload, offset, out))
    ensures (DigestsFit(h) && SizesFit(h, payload, log) && file == FileOf(h, kind, payload, log)) ==>
      && var want := Clipped(|payload|, offset, |out|);
         (want == 0 ==> verified == []) &&
         (want > 0 ==> var c := ChunksCovering(offset, want, Pow2(log)); c.0 <= c.1 && verified == Numbers(c.0, c.1))
    ensures (DigestsFit(h) && DigestsDiffer(h) && SizesFit(h, payload, log) && FrontKept(h, kind, payload, log, file)
             && r.Ok?) ==>
        r.value == Clip(payload, offset, out)
  {
    hide FileOf, OpenFile, Digests, Filled, Checked, SizesFit, DigestsFit, Intact, Clip, ChunksCovering, Pow2,
        DigestsDiffer, Labelled, FrontKept;
    verified := [];
    ghost var intact := DigestsFit(h) && SizesFit(h, payload, log) && file == FileOf(h, kind, payload, log);
    ghost var kept := DigestsFit(h) && DigestsDiffer(h) && SizesFit(h, payload, log)
        && FrontKept(h, kind, payload, log, file);
    ghost var good := intact || kept;
    if intact {
      PutIsIntact(h, kind, payload, log, file);
    }
    if kept {
      FrontIsLabelled(h, kind, payload, log, file);
    }
    var found := OpenFile(file, kind);
    if found.Err? {
      return Err(found.error), verified;
    }
    var o := found.value;
    if offset >= o.payloadLen {
      NothingThere(payload, offset, out);
      return Ok(Got(0, out)), verified;
    }
    var want := Min(|out|, o.payloadLen - offset);
    var tableBytes := o.chunkCount * DigestBytes;
    if HeaderBytes + tableBytes > |file| {
      return Err(MalformedObject), verified;
    }
    var table := file[HeaderBytes..HeaderBytes + tableBytes];
    var c := Pow2(o.chunkLog);
    r, verified := ReadChunks(h, file, o, table, c, offset, out, want, payload);
    if good {
      FilledAll(payload, offset, out, want);
      if want > 0 && intact {
        CheckedAll(verified, offset, c, want);
      }
    }
  }

  /** The file still begins with the header and the digest table it was written with. */
  ghost predicate FrontKept(h: Hashes, kind: Byte, payload: seq<Byte>, log: nat, file: seq<Byte>) {
    EncodeHeader(HeaderOf(h, kind, payload, log)) + Digests(h, payload, Pow2(log)) <= file
  }

  lemma FrontIsLabelled(h: Hashes, kind: Byte, payload: seq<Byte>, log: nat, file: seq<Byte>)
    requires DigestsFit(h) && DigestsDiffer(h) && SizesFit(h, payload, log) && FrontKept(h, kind, payload, log, file)
    ensures OpenFile(file, kind).Ok?
    ensures var o := OpenFile(file, kind).value;
      && o.payloadLen == |payload| && o.chunkLog == log && HeaderBytes + o.chunkCount * DigestBytes <= |file|
      && Labelled(h, o, file[HeaderBytes..HeaderBytes + o.chunkCount * DigestBytes], Pow2(log), payload)
  {
    hide Digests, ChunkCount, EncodeHeader, DecodeHeader, DigestsDiffer, Pow2;
    var o, table := HeaderOf(h, kind, payload, log), Digests(h, payload, Pow2(log));
    DigestsSize(h, payload, Pow2(log));
    DivUnique(ChunkCount(|payload|, Pow2(log)), 0, DigestBytes);
    assert o.chunkCount == ChunkCount(|payload|, Pow2(log));
    var head := EncodeHeader(o);
    var rest := file[|head| + |table|..];
    assert file == head + (table + rest);
    HeaderRoundTrip(o, table + rest);
    assert file[|head|..|head| + |table|] == table;
  }

  lemma NothingThere(payload: seq<Byte>, offset: nat, out: seq<Byte>)
    ensures offset >= |payload| ==> Clip(payload, offset, out) == Got(0, out)
  {
    assert out[0..] == out;
    assert payload[|payload|..|payload| + 0] == [];
  }
}
