/** The loose object store (modules/store/src/loose.cpp): what was put under an address is what is read there,
    whatever else is put before or after. */
module LooseStore {
  import opened Common
  import opened Records
  import opened Container
  import opened ObjectReads

  /** One call of put; `log` is the chunk size it is made with, as a power of two. */
  datatype PutCall = PutCall(kind: Byte, payload: seq<Byte>, log: nat)

  /** Different objects have different addresses: no collision, and the prefix sets kinds and lengths apart. */
  ghost predicate Injective(h: Hashes) {
    && (forall x, y :: h.hash(x) == h.hash(y) ==> x == y)
    && (forall k1, k2, x: seq<Byte>, y: seq<Byte> ::
        h.prefix(k1, |x|) + x == h.prefix(k2, |y|) + y ==> k1 == k2 && x == y)
  }

  lemma AddressNames(h: Hashes, a: PutCall, b: PutCall)
    requires Injective(h) && Address(h, a.kind, a.payload) == Address(h, b.kind, b.payload)
    ensures a.kind == b.kind && a.payload == b.payload
  {}

  ghost predicate Sized(h: Hashes, puts: seq<PutCall>) {
    forall i :: 0 <= i < |puts| ==> SizesFit(h, puts[i].payload, puts[i].log)
  }

  /** The directory after a sequence of puts. */
  ghost function AfterPuts(h: Hashes, puts: seq<PutCall>): map<Oid, seq<Byte>> {
    if puts == [] then map[] else
      var x := puts[|puts| - 1];
      PutFile(AfterPuts(h, puts[..|puts| - 1]), h, x.kind, x.payload, x.log)
  }

  ghost predicate Mentions(h: Hashes, puts: seq<PutCall>, oid: Oid) {
    exists i :: 0 <= i < |puts| && Address(h, puts[i].kind, puts[i].payload) == oid
  }

  /** The first put at this address. */
  ghost predicate IsFirst(h: Hashes, puts: seq<PutCall>, oid: Oid, k: int) {
    && 0 <= k < |puts| && Address(h, puts[k].kind, puts[k].payload) == oid
    && forall m :: 0 <= m < k ==> Address(h, puts[m].kind, puts[m].payload) != oid
  }

  /** The file at the address is the one its first put wrote. */
  ghost predicate Keeps(h: Hashes, files: map<Oid, seq<Byte>>, puts: seq<PutCall>, oid: Oid) {
    && oid in files
    && exists k :: IsFirst(h, puts, oid, k)
        && files[oid] == FileOf(h, puts[k].kind, puts[k].payload, puts[k].log)
  }

  /** Every address that was put is there with the file of its first put, and nothing else is there. */
  lemma {:induction false} PutsAreKept(h: Hashes, puts: seq<PutCall>)
    ensures forall oid :: oid in AfterPuts(h, puts) <==> Mentions(h, puts, oid)
    ensures forall oid :: Mentions(h, puts, oid) ==> Keeps(h, AfterPuts(h, puts), puts, oid)
  {
    hide FileOf, Address;
    if puts != [] {
      var n := |puts| - 1;
      var before, x := puts[..n], puts[n];
      PutsAreKept(h, before);
      assert puts == before + [x];
      forall oid
        ensures oid in AfterPuts(h, puts) <==> Mentions(h, puts, oid)
        ensures Mentions(h, puts, oid) ==> Keeps(h, AfterPuts(h, puts), puts, oid)
      {
        PutKeeps(h, before, x, oid);
      }
    }
  }

  lemma PutKeeps(h: Hashes, before: seq<PutCall>, x: PutCall, oid: Oid)
    requires forall o :: o in AfterPuts(h, before) <==> Mentions(h, before, o)
    requires Mentions(h, before, oid) ==> Keeps(h, AfterPuts(h, before), before, oid)
    ensures oid in AfterPuts(h, before + [x]) <==> Mentions(h, before + [x], oid)
    ensures Mentions(h, before + [x], oid) ==> Keeps(h, AfterPuts(h, before + [x]), before + [x], oid)
  {
    hide FileOf, Address;
    var n, puts := |before|, before + [x];
    assert puts[..n] == before && puts[n] == x;
    if Mentions(h, before, oid) {
      var k :| IsFirst(h, before, oid, k)
        && AfterPuts(h, before)[oid] == FileOf(h, before[k].kind, before[k].payload, before[k].log);
      assert puts[k] == before[k];
      assert IsFirst(h, puts, oid, k);
    } else if Address(h, x.kind, x.payload) == oid {
      assert IsFirst(h, puts, oid, n);
    }
  }

  /** get: the whole payload, hashed again before it is handed out. */
  method Get(dir: Directory, h: Hashes, oid: Oid, kind: Byte) returns (r: Result<seq<Byte>>)
    ensures oid !in dir.files ==> r == Err(ObjectNotFound)
    ensures r.Ok? ==> oid in dir.files && Address(h, kind, r.value) == oid
    ensures oid in dir.files && DigestsFit(h) ==>
      forall payload, log ::
        (SizesFit(h, payload, log) && oid == Address(h, kind, payload)
         && dir.files[oid] == FileOf(h, kind, payload, log)) ==>
        r == Ok(payload)
  {
    hide FileOf, SizesFit, OpenFile, Digests, DigestsFit, Pow2, Address;
    if oid !in dir.files {
      return Err(ObjectNotFound);
    }
    var file := dir.files[oid];
    forall payload, log | DigestsFit(h) && SizesFit(h, payload, log) && file == FileOf(h, kind, payload, log)
      ensures OpenFile(file, kind).Ok? && WholePayload(file, OpenFile(file, kind).value) == Ok(payload)
    {
      WholeIs(h, kind, payload, log, file);
    }
    var found := OpenFile(file, kind);
    if found.Err? {
      return Err(found.error);
    }
    var payload := WholePayload(file, found.value);
    if payload.Err? {
      return payload;
    }
    r := if Address(h, kind, payload.value) == oid then payload else Err(HashMismatch);
  }

  /** What follows the digest table, if the file is exactly as long as its header says. */
  function WholePayload(file: seq<Byte>, o: ObjectHeader): Result<seq<Byte>> {
    var off := HeaderBytes + o.chunkCount * DigestBytes;
    if |file| != off + o.payloadLen then Err(MalformedObject) else Ok(file[off..])
  }

  lemma WholeIs(h: Hashes, kind: Byte, payload: seq<Byte>, log: nat, file: seq<Byte>)
    requires DigestsFit(h) && SizesFit(h, payload, log) && file == FileOf(h, kind, payload, log)
    ensures OpenFile(file, kind).Ok? && WholePayload(file, OpenFile(file, kind).value) == Ok(payload)
  {
    PutIsIntact(h, kind, payload, log, file);
    hide OpenFile, FileOf, SizesFit, DigestsFit;
  }

  /** read_range by address. */
  method ReadRangeAt(dir: Directory, h: Hashes, oid: Oid, kind: Byte, offset: nat, out: seq<Byte>,
      ghost payload: seq<Byte>, ghost log: nat)
    returns (r: Result<Got>)
    ensures oid !in dir.files ==> r == Err(ObjectNotFound)
    ensures (DigestsFit(h) && SizesFit(h, payload, log) && oid in dir.files
             && dir.files[oid] == FileOf(h, kind, payload, log)) ==>
      r == Ok(Clip(payload, offset, out))
  {
    if oid !in dir.files {
      return Err(ObjectNotFound);
    }
    hide *;
    ghost var verified;
    r, verified := ReadObject(h, dir.files[oid], kind, offset, out, payload, log);
  }

  /** All puts made one after the other, then one object read back in whole and in part. */
  method PutAllThenRead(h: Hashes, puts: seq<PutCall>, i: nat, offset: nat, out: seq<Byte>)
    returns (whole: Result<seq<Byte>>, part: Result<Got>)
    requires Injective(h) && DigestsFit(h) && Sized(h, puts) && i < |puts|
    ensures whole == Ok(puts[i].payload) && part == Ok(Clip(puts[i].payload, offset, out))
  {
    hide *;
    var dir := new Directory();
    var k, oids := 0, [];
    NoPuts(h, puts);
    while k < |puts|
      invariant 0 <= k <= |puts| && |oids| == k && fresh(dir) && dir.files == AfterPuts(h, puts[..k])
      invariant forall m :: 0 <= m < k ==> oids[m] == Address(h, puts[m].kind, puts[m].payload)
    {
      var oid := dir.Store(h, puts[k].kind, puts[k].payload, puts[k].log);
      NextPut(h, puts, k);
      oids := oids + [oid];
      k := k + 1;
    }
    assert puts[..k] == puts;
    var x := puts[i];
    ghost var log := KeptAs(h, puts, i);
    whole := Get(dir, h, oids[i], x.kind);
    part := ReadRangeAt(dir, h, oids[i], x.kind, offset, out, x.payload, log);
  }

  lemma NoPuts(h: Hashes, puts: seq<PutCall>)
    ensures AfterPuts(h, puts[..0]) == map[]
  {}

  lemma NextPut(h: Hashes, puts: seq<PutCall>, k: nat)
    requires k < |puts|
    ensures AfterPuts(h, puts[..k + 1])
         == PutFile(AfterPuts(h, puts[..k]), h, puts[k].kind, puts[k].payload, puts[k].log)
  {
    hide PutFile;
    assert puts[..k + 1][..k] == puts[..k];
  }

  /** An object that was put is at its address, in chunks of the size it was first put with. */
  lemma KeptAs(h: Hashes, puts: seq<PutCall>, i: nat) returns (log: nat)
    requires Injective(h) && Sized(h, puts) && i < |puts|
    ensures var oid := Address(h, puts[i].kind, puts[i].payload);
      && oid in AfterPuts(h, puts) && SizesFit(h, puts[i].payload, log)
      && AfterPuts(h, puts)[oid] == FileOf(h, puts[i].kind, puts[i].payload, log)
  {
    hide FileOf, SizesFit, Address, Injective;
    PutsAreKept(h, puts);
    var oid := Address(h, puts[i].kind, puts[i].payload);
    assert Mentions(h, puts, oid);
    var k :| IsFirst(h, puts, oid, k)
        && AfterPuts(h, puts)[oid] == FileOf(h, puts[k].kind, puts[k].payload, puts[k].log);
    AddressNames(h, puts[k], puts[i]);
    log := puts[k].log;
  }
}
