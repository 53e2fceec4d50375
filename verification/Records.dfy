/** Stored records after parsing, the object store, and the library primitives the codec relies on. */
module Records {
  import opened Common
  import opened Residual

  /** An object address; addresses are as long as it takes to keep objects apart. */
  type Oid = seq<Byte>

  datatype DType = F16 | BF16 | F32 | F64 | I8 | I16 | I32 | I64 | U8 | U16 | U32 | U64 | Bool {
    /** Bytes per element. */
    function Size(): (w: nat)
      ensures Width(w)
    {
      match this
      case F16 | BF16 | I16 | U16 => 2
      case F32 | I32 | U32 => 4
      case F64 | I64 | U64 => 8
      case I8 | U8 | Bool => 1
    }
  }

  // ------------------------------------------------------------- diff artifacts

  datatype ResidualKind = Plain | XorAfterPermute | ZigzagAfterPermute
  datatype Transform = NoTransform | BytePlane | Bitshuffle

  /** Where a group's permutation sits in the payload. */
  datatype PermRef = Identity | Explicit(n: nat, wide: bool, off: nat, len: nat)

  /** One compressed frame over output units [unitBegin, unitEnd). */
  datatype Frame = Frame(unitBegin: nat, unitEnd: nat, off: nat, len: nat, digest: seq<Byte>)

  datatype TensorDiff = TensorDiff(name: string, shape: seq<nat>, dtype: DType, residual: ResidualKind,
      transform: Transform,
                                   frames: seq<Frame>)

  datatype DiffHeader = DiffHeader(group: string, permutation: PermRef, tensors: seq<TensorDiff>)
  datatype Artifact = Artifact(header: DiffHeader, payload: seq<Byte>)

  // ------------------------------------------------------------- manifests and commits

  datatype GroupEntry =
    | Full(block: Oid)
    | Delta(base: Oid, baseGroup: string, diff: Oid, depth: nat)
  {
    function ChainDepth(): nat { if Full? then 0 else depth }
  }

  datatype BufferEntry = BufferEntry(tensor: string, off: nat, nbytes: nat, group: string)
  datatype Manifest = Manifest(headerBlock: Oid, totalBytes: nat, buffer: seq<BufferEntry>,
      groups: map<string, GroupEntry>)

  /** The time stamp stands for its rank in lexicographic order. */
  datatype Commit = Commit(parents: seq<Oid>, manifest: Oid, topology: Oid, stamp: nat)

  // ------------------------------------------------------------- topology

  datatype PermGroup = PermGroup(size: nat, pinned: bool)
  datatype AxisBinding = AxisBinding(dim: nat, group: string, block: nat)

  /** `order` is the iteration order of the tensor hash map. */
  datatype Topology = Topology(groups: map<string, PermGroup>, tensors: map<string, seq<AxisBinding>>,
      order: seq<string>)

  // ------------------------------------------------------------- the object store

  datatype Object =
    | Raw(bytes: seq<Byte>)
    | HeaderBlock(bytes: seq<Byte>)
    | DiffBlock(artifact: Artifact)
    | ManifestBlock(manifest: Manifest)
    | CommitBlock(commit: Commit)
    | TopologyBlock(bytes: seq<Byte>)

  type Store = map<Oid, Object>

  /** What a file header says of a tensor. */
  datatype Meta = Meta(shape: seq<nat>, dtype: DType, nbytes: nat)

  /** Compression, digest and addressing are library code: only their laws are used. `shapes` parses a file header,
      `topology` a stored topology against one. */
  datatype Prims = Prims(
    compress: seq<Byte> -> seq<Byte>,
    decompress: (seq<Byte>, nat) -> Result<seq<Byte>>,
    digest: seq<Byte> -> seq<Byte>,
    address: Object -> Oid,
    headerSize: DiffHeader -> nat,
    shapes: seq<Byte> -> Option<map<string, Meta>>,
    topology: (seq<Byte>, seq<Byte>) -> Option<Topology>)

  ghost predicate Lawful(p: Prims) {
    && (forall x, room: nat :: |x| <= room ==> p.decompress(p.compress(x), room) == Ok(x))
    && (forall a, b :: p.address(a) == p.address(b) ==> a == b)
  }

  ghost predicate Addressed(p: Prims, store: Store) {
    forall o :: o in store ==> p.address(store[o]) == o
  }

  /** Whole objects are kind-checked and re-hashed on load. */
  function Get(p: Prims, store: Store, oid: Oid, kind: Object -> bool): (r: Result<Object>)
    ensures r.Ok? ==> kind(r.value)
  {
    if oid !in store then Err(ObjectNotFound) else
    if !kind(store[oid]) then Err(ObjectKindMismatch) else
    if p.address(store[oid]) != oid then Err(HashMismatch) else Ok(store[oid])
  }

  function GetDiff(p: Prims, store: Store, oid: Oid): Result<Artifact> {
    var o :- Get(p, store, oid, (x: Object) => x.DiffBlock?);
    Ok(o.artifact)
  }

  function GetManifest(p: Prims, store: Store, oid: Oid): Result<Manifest> {
    var o :- Get(p, store, oid, (x: Object) => x.ManifestBlock?);
    Ok(o.manifest)
  }

  function GetCommit(p: Prims, store: Store, oid: Oid): Result<Commit> {
    var o :- Get(p, store, oid, (x: Object) => x.CommitBlock?);
    Ok(o.commit)
  }

  function GetHeader(p: Prims, store: Store, oid: Oid): Result<seq<Byte>> {
    var o :- Get(p, store, oid, (x: Object) => x.HeaderBlock?);
    Ok(o.bytes)
  }

  function GetTopology(p: Prims, store: Store, oid: Oid): Result<seq<Byte>> {
    var o :- Get(p, store, oid, (x: Object) => x.TopologyBlock?);
    Ok(o.bytes)
  }

  /** load_commit_topology: the commit's own topology object, parsed against its header; None rather than an error. */
  function TopologyFor(p: Prims, store: Store, commit: Oid): Option<Topology> {
    var c, m := GetCommit(p, store, commit), ManifestFor(p, store, commit);
    if c.Err? || m.Err? then None else
      var header, bytes := GetHeader(p, store, m.value.headerBlock), GetTopology(p, store, c.value.topology);
      if header.Err? || bytes.Err? then None else p.topology(header.value, bytes.value)
  }

  /** The manifest of a commit. */
  function ManifestFor(p: Prims, store: Store, commit: Oid): Result<Manifest> {
    var c :- GetCommit(p, store, commit);
    GetManifest(p, store, c.manifest)
  }

  /** Bytes written and the buffer they were written to. */
  datatype Got = Got(n: nat, out: seq<Byte>)

  /** `bytes` from `off` on, copied over the front of `out` as far as both reach. */
  function Clip(bytes: seq<Byte>, off: nat, out: seq<Byte>): (r: Got)
    ensures |r.out| == |out| && r.n <= |out|
  {
    var n := Clipped(|bytes|, off, |out|);
    if off <= |bytes| then Got(n, bytes[off..off + n] + out[n..]) else Got(0, out)
  }

  /** Byte i of the buffer is byte off + i of the source while there is one, and as it was after that. */
  lemma ClipIs(bytes: seq<Byte>, off: nat, out: seq<Byte>)
    ensures var r := Clip(bytes, off, out);
      && (off + |out| <= |bytes| ==> r.n == |out|) && (off <= |bytes| < off + |out| ==> r.n == |bytes| - off)
      && (off > |bytes| ==> r.n == 0)
      && (forall i :: 0 <= i < |out| ==> r.out[i] == if off + i < |bytes| then bytes[off + i] else out[i])
  {}

  function Clipped(size: nat, off: nat, want: nat): nat {
    if off >= size then 0 else Min(want, size - off)
  }

  /** A ranged read of a raw block. */
  function ReadRaw(store: Store, oid: Oid, off: nat, out: seq<Byte>): (r: Result<Got>)
    ensures r.Ok? ==> |r.value.out| == |out|
  {
    if oid !in store then Err(ObjectNotFound) else
    if !store[oid].Raw? then Err(ObjectKindMismatch) else Ok(Clip(store[oid].bytes, off, out))
  }

  ghost predicate Grows(a: Store, b: Store) {
    forall o :: o in a ==> o in b && b[o] == a[o]
  }

  function Put(p: Prims, store: Store, x: Object): Store {
    store[p.address(x) := x]
  }

  /** Content addressing: writing never changes what an address means. */
  lemma PutGrows(p: Prims, store: Store, x: Object)
    requires Lawful(p) && Addressed(p, store)
    ensures Grows(store, Put(p, store, x)) && Addressed(p, Put(p, store, x))
  {}

  lemma GrowsOn(a: Store, b: Store, c: Store)
    requires Grows(a, b) && Grows(b, c)
    ensures Grows(a, c)
  {}

  function Zeros(n: nat): (r: seq<Byte>)
    ensures |r| == n
  {
    seq(n, _ => 0)
  }
}
