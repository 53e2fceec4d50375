/** One artifact per permutation group: every tensor whose rows the group permutes (encode_group in
    modules/codec/src/diff_encoder.cpp). */
module GroupEncoder {
  import opened Common
  import opened Permutations
  import opened Gather
  import opened Records
  import opened StoredPerm
  import opened Reader
  import opened ReadBack
  import opened Sources
  import opened Encoder

  /** The axis-0 binding to this group, if the tensor has one. */
  function RowBinding(axes: seq<AxisBinding>, group: string): (r: Option<AxisBinding>)
    ensures r.Some? <==> Owns(axes, group)
    ensures r.Some? ==> r.value in axes && r.value.dim == 0 && r.value.group == group
  {
    if axes == [] then None else
    if axes[0].dim == 0 && axes[0].group == group then Some(axes[0]) else
      assert forall i :: 0 <= i < |axes| - 1 ==> axes[1..][i] == axes[i + 1];
      assert axes == [axes[0]] + axes[1..];
      RowBinding(axes[1..], group)
  }

  // ------------------------------------------------------------- tiling

  /** validate_tiling. */
  predicate ValidTiling(frames: seq<Frame>, size: nat) {
    if frames == [] then size == 0 else
      && frames[0].unitBegin == 0
      && (forall i :: 0 <= i && i + 1 < |frames| ==> frames[i].unitEnd == frames[i + 1].unitBegin)
      && frames[|frames| - 1].unitEnd == size
  }

  /** With no frame running backwards, the check accepts exactly the tilings of [0, size). */
  lemma TilingCheck(frames: seq<Frame>, size: nat)
    requires forall i :: 0 <= i < |frames| ==> frames[i].unitBegin <= frames[i].unitEnd
    ensures ValidTiling(frames, size) <==> Tiles(frames, 0, size)
  {
    TilingFrom(frames, 0, size);
  }

  ghost predicate TilingAt(frames: seq<Frame>, from: nat, size: nat) {
    if frames == [] then size == from else
      && frames[0].unitBegin == from
      && (forall i :: 0 <= i && i + 1 < |frames| ==> frames[i].unitEnd == frames[i + 1].unitBegin)
      && frames[|frames| - 1].unitEnd == size
  }

  lemma {:induction false} TilingFrom(frames: seq<Frame>, from: nat, size: nat)
    requires forall i :: 0 <= i < |frames| ==> frames[i].unitBegin <= frames[i].unitEnd
    ensures TilingAt(frames, from, size) <==> Tiles(frames, from, size)
    ensures Tiles(frames, from, size) ==> from <= size
  {
    if frames != [] {
      var rest := frames[1..];
      assert forall i :: 0 <= i < |rest| ==> rest[i] == frames[i + 1];
      TilingFrom(rest, frames[0].unitEnd, size);
      if TilingAt(frames, from, size) {
        forall i | 0 <= i && i + 1 < |rest| ensures rest[i].unitEnd == rest[i + 1].unitBegin {
          assert frames[i + 1].unitEnd == frames[i + 2].unitBegin;
        }
        assert rest != [] ==> frames[0].unitEnd == frames[0 + 1].unitBegin;
        assert TilingAt(rest, frames[0].unitEnd, size);
      }
      if Tiles(frames, from, size) {
        forall i | 0 <= i && i + 1 < |frames| ensures frames[i].unitEnd == frames[i + 1].unitBegin {
          if i > 0 {
            assert rest[i - 1].unitEnd == rest[i - 1 + 1].unitBegin;
          }
        }
      }
    }
  }

  // ------------------------------------------------------------- one tensor

  /** The base and the target supply this tensor, and its axis fits the group permutation. */
  ghost predicate TensorSound(base: Source, target: Source, name: string, block: nat, perm: seq<int>, t: Tensor,
      moved: seq<Byte>) {
    && Supplies(target, name, t) && |moved| == |t.bytes| && Yields(base, name, t.RowBytes(), moved)
    && t.shape[0] == |perm| * block
  }

  /** This entry of the artifact decodes to the tensor, given the base in target column order. */
  ghost predicate TensorWritten(p: Prims, payload: seq<Byte>, d: TensorDiff, rows: seq<int>, t: Tensor,
      moved: seq<Byte>) {
    && t.Valid() && d.shape == t.shape && d.dtype == t.dtype && d.frames != []
    && Written(p, payload, d, t.RowBytes(), t.shape[0], rows, d.frames, moved, t.bytes, t.shape[0])
  }

  lemma WrittenMore(p: Prims, payload: seq<Byte>, more: seq<Byte>, d: TensorDiff, rows: seq<int>, t: Tensor,
      moved: seq<Byte>)
    requires TensorWritten(p, payload, d, rows, t, moved)
    ensures TensorWritten(p, payload + more, d, rows, t, moved)
  {
    hide FrameEncodes;
    var ub, axis := t.RowBytes(), t.shape[0];
    forall i | 0 <= i < |d.frames|
      ensures FrameEncodes(p, FramePlan(payload + more, d, ub, axis, rows), d.frames[i], moved, t.bytes)
    {
      FrameEncodesMore(p, payload, more, d, ub, axis, rows, d.frames[i], moved, t.bytes);
    }
  }

  lemma WrittenFormat(p: Prims, payload: seq<Byte>, d: TensorDiff, e: TensorDiff, ub: nat, axis: nat, rows: seq<int>,
      frames: seq<Frame>, moved: seq<Byte>, bytes: seq<Byte>, upto: nat)
    requires Written(p, payload, d, ub, axis, rows, frames, moved, bytes, upto)
    requires d.residual == e.residual && d.transform == e.transform && d.dtype == e.dtype
    ensures Written(p, payload, e, ub, axis, rows, frames, moved, bytes, upto)
  {
    forall i | 0 <= i < |frames|
      ensures FrameEncodes(p, FramePlan(payload, e, ub, axis, rows), frames[i], moved, bytes)
    {
      assert FrameEncodes(p, FramePlan(payload, d, ub, axis, rows), frames[i], moved, bytes);
    }
  }

  lemma SoundTensor(p: Prims, base: Source, target: Source, d: TensorDiff, block: nat, perm: seq<int>, t: Tensor,
      moved: seq<Byte>)
    requires Lawful(p) && TensorSound(base, target, d.name, block, perm, t, moved) && IsPermutation(perm, |perm|)
        && d.dtype == t.dtype
    ensures UnitBytes(t.Info(), 0) == Ok(t.RowBytes()) && |Expand(perm, block)| == t.shape[0]
    ensures Sound(p, base, target, d, t.RowBytes(), t.shape[0], Expand(perm, block), moved, t.bytes)
  {
    hide Yields;
    RowsOfTensor(t);
    ExpandIsPermutation(perm, |perm|, block);
  }

  /** The entry records the tensor's shape and type and the options' residual and transform, and its frames tile the
      axis and have the size asked for. */
  ghost predicate CutRight(target: Source, opts: EncodeOptions, d: TensorDiff) {
    && d.name in target.metas && d.shape == target.metas[d.name].shape && d.dtype == target.metas[d.name].dtype
    && d.residual == opts.residual && d.transform == opts.transform
    && UnitBytes(target.metas[d.name], 0).Ok?
    && FramesSized(d.frames, UnitBytes(target.metas[d.name], 0).value, opts.frameBytes, d.shape[0])
    && ValidTiling(d.frames, d.shape[0])
  }

  datatype TensorResult = TensorResult(d: TensorDiff, payload: seq<Byte>, fullBytes: nat)

  method EncodeTensor(p: Prims, base: Source, target: Source, name: string, block: nat, perm: seq<int>,
      opts: EncodeOptions, payload: seq<Byte>, ghost t: Tensor, ghost moved: seq<Byte>)
    returns (r: Result<TensorResult>)
    ensures r.Ok? ==> r.value.d.name == name && payload <= r.value.payload
    ensures (Lawful(p) && IsPermutation(perm, |perm|) && TensorSound(base, target, name, block, perm, t, moved)) ==>
      r.Ok? && TensorWritten(p, r.value.payload, r.value.d, Expand(perm, block), t, moved)
          && r.value.fullBytes == |t.bytes|
    ensures Blind(base, name) && !opts.residual.Plain? ==> r.Err?
    ensures r.Ok? ==> CutRight(target, opts, r.value.d)
  {
    ghost var good := Lawful(p) && IsPermutation(perm, |perm|)
        && TensorSound(base, target, name, block, perm, t, moved);
    if name !in target.metas {
      return Err(TensorNotInBufferLayout);
    }
    var meta := target.metas[name];
    var d := TensorDiff(name, meta.shape, meta.dtype, opts.residual, opts.transform, []);
    if good {
      SoundTensor(p, base, target, d, block, perm, t, moved);
    }
    var ub := UnitBytes(meta, 0);
    if ub.Err? {
      return Err(ub.error);
    }
    var rows := ExpandPermutation(perm, block);
    if meta.shape[0] != |rows| {
      return Err(BlockFactorMismatch);
    }
    hide Sound, Written, Supplies, Lawful, Blind, FramesSized, ValidTiling;
    var s := EncodeFrames(p, base, target, d, ub.value, rows, opts, payload, moved, t.bytes);
    if s.Err? {
      return Err(s.error);
    }
    var e := d.(frames := s.value.frames);
    if good {
      WrittenFormat(p, s.value.payload, d, e, ub.value, |rows|, rows, e.frames, moved, t.bytes, |rows|);
      WrittenTiles(p, s.value.payload, e, ub.value, |rows|, rows, e.frames, moved, t.bytes);
    }
    if !ValidTiling(e.frames, |rows|) {
      return Err(MalformedObject);
    }
    return Ok(TensorResult(e, s.value.payload, s.value.fullBytes));
  }

  lemma WrittenTiles(p: Prims, payload: seq<Byte>, d: TensorDiff, ub: nat, axis: nat, rows: seq<int>,
      frames: seq<Frame>, moved: seq<Byte>, bytes: seq<Byte>)
    requires Written(p, payload, d, ub, axis, rows, frames, moved, bytes, axis)
    ensures ValidTiling(frames, axis)
  {
    TilingCheck(frames, axis);
  }

  // ------------------------------------------------------------- the group

  predicate Member(topo: Topology, name: string, group: string) {
    name in topo.order && name in topo.tensors && RowBinding(topo.tensors[name], group).Some?
  }

  ghost predicate MemberSound(base: Source, target: Source, topo: Topology, group: string, perm: seq<int>, file: File,
      moved: map<string, seq<Byte>>, name: string)
    requires Member(topo, name, group)
  {
    && name in file && name in moved
    && TensorSound(base, target, name, RowBinding(topo.tensors[name], group).value.block, perm, file[name], moved[name])
  }

  ghost predicate GroupSound(p: Prims, base: Source, target: Source, topo: Topology, group: string, perm: seq<int>,
      file: File, moved: map<string, seq<Byte>>) {
    && Lawful(p) && IsPermutation(perm, |perm|) && |perm| <= 0x1_0000_0000
    && forall name :: Member(topo, name, group) ==> MemberSound(base, target, topo, group, perm, file, moved, name)
  }

  /** The group permutation can be read back from the artifact, the identity as such. */
  ghost predicate PermStored(art: Artifact, perm: seq<int>) {
    if IsIdentity(perm) then art.header.permutation.Identity? else
      && art.header.permutation.Explicit? && art.header.permutation.n == |perm|
      && ReadPermutation(art.header.permutation, art.payload) == Ok(perm)
  }

  ghost predicate MemberWritten(p: Prims, art: Artifact, topo: Topology, group: string, perm: seq<int>, file: File,
      moved: map<string, seq<Byte>>, name: string)
    requires Member(topo, name, group)
  {
    && name in file && name in moved
    && var d := FindTensor(art.header.tensors, name);
    && d.Some? && TensorWritten(p, art.payload, d.value,
        Expand(perm, RowBinding(topo.tensors[name], group).value.block), file[name], moved[name])
  }

  /** The artifact holds the permutation and every member of the group. */
  ghost predicate ArtifactEncodes(p: Prims, art: Artifact, topo: Topology, group: string, perm: seq<int>, file: File,
      moved: map<string, seq<Byte>>) {
    && PermStored(art, perm)
    && forall name :: Member(topo, name, group) ==> MemberWritten(p, art, topo, group, perm, file, moved, name)
  }

  lemma {:induction false} FindAppend(tensors: seq<TensorDiff>, d: TensorDiff, name: string)
    ensures FindTensor(tensors + [d], name) ==
      if FindTensor(tensors, name).Some? then FindTensor(tensors, name) else if d.name == name then Some(d) else None
  {
    if tensors == [] {
      assert (tensors + [d])[0] == d && (tensors + [d])[1..] == [];
    } else {
      assert (tensors + [d])[1..] == tensors[1..] + [d];
      FindAppend(tensors[1..], d, name);
    }
  }

  /** Members among the first k names are in the artifact; no other tensor is. */
  ghost predicate Progress(p: Prims, payload: seq<Byte>, tensors: seq<TensorDiff>, topo: Topology, group: string,
      perm: seq<int>, file: File, moved: map<string, seq<Byte>>, k: nat)
    requires k <= |topo.order|
  {
    forall i :: 0 <= i < k && Member(topo, topo.order[i], group) ==>
      MemberWritten(p, Artifact(DiffHeader(group, Identity, tensors), payload), topo, group, perm, file, moved,
          topo.order[i])
  }

  ghost predicate NamesBefore(tensors: seq<TensorDiff>, topo: Topology, k: nat)
    requires k <= |topo.order|
  {
    forall i :: k <= i < |topo.order| ==> FindTensor(tensors, topo.order[i]).None?
  }

  lemma ProgressStep(p: Prims, payload: seq<Byte>, more: seq<Byte>, tensors: seq<TensorDiff>, d: TensorDiff,
      topo: Topology, group: string, perm: seq<int>, file: File, moved: map<string, seq<Byte>>, k: nat)
    requires k < |topo.order| && d.name == topo.order[k] && Member(topo, d.name, group) && Distinct(topo.order)
    requires Progress(p, payload, tensors, topo, group, perm, file, moved, k) && NamesBefore(tensors, topo, k)
    requires d.name in file && d.name in moved
    requires TensorWritten(p, payload + more, d, Expand(perm, RowBinding(topo.tensors[d.name], group).value.block),
        file[d.name], moved[d.name])
    ensures Progress(p, payload + more, tensors + [d], topo, group, perm, file, moved, k + 1)
  {
    hide FindTensor, TensorWritten, RowBinding;
    forall i | 0 <= i < k + 1 && Member(topo, topo.order[i], group)
      ensures MemberWritten(p, Artifact(DiffHeader(group, Identity, tensors + [d]), payload + more), topo, group, perm,
          file, moved, topo.order[i])
    {
      var name := topo.order[i];
      FindAppend(tensors, d, name);
      if i < k {
        assert MemberWritten(p, Artifact(DiffHeader(group, Identity, tensors), payload), topo, group, perm, file,
            moved, name);
        WrittenMore(p, payload, more, FindTensor(tensors, name).value,
            Expand(perm, RowBinding(topo.tensors[name], group).value.block), file[name], moved[name]);
      }
    }
  }

  lemma NamesStep(tensors: seq<TensorDiff>, d: TensorDiff, topo: Topology, k: nat)
    requires k < |topo.order| && d.name == topo.order[k] && Distinct(topo.order) && NamesBefore(tensors, topo, k)
    ensures NamesBefore(tensors + [d], topo, k + 1)
  {
    forall i | k + 1 <= i < |topo.order| ensures FindTensor(tensors + [d], topo.order[i]).None? {
      FindAppend(tensors, d, topo.order[i]);
    }
  }

  /** Some tensor of the group cannot be read from the source. */
  ghost predicate BlindMember(src: Source, topo: Topology, group: string) {
    exists name :: Member(topo, name, group) && Blind(src, name)
  }

  /** Every member among the first k tensors can be read. */
  ghost predicate SeenBefore(src: Source, topo: Topology, group: string, k: nat)
    requires k <= |topo.order|
  {
    forall i :: 0 <= i < k && Member(topo, topo.order[i], group) ==> !Blind(src, topo.order[i])
  }

  ghost function NamesOf(tensors: seq<TensorDiff>): (r: seq<string>)
    ensures |r| == |tensors| && forall i :: 0 <= i < |r| ==> r[i] == tensors[i].name
  {
    seq(|tensors|, i requires 0 <= i < |tensors| => tensors[i].name)
  }

  /** The members among the first k tensors, in the order of the map. */
  function MembersBefore(topo: Topology, group: string, k: nat): (r: seq<string>)
    requires k <= |topo.order|
    ensures forall t :: t in r <==> t in topo.order[..k] && Member(topo, t, group)
    ensures Distinct(topo.order) ==> Distinct(r)
  {
    if k == 0 then [] else
      assert topo.order[..k] == topo.order[..k - 1] + [topo.order[k - 1]];
      MembersBefore(topo, group, k - 1) + (if Member(topo, topo.order[k - 1], group) then [topo.order[k - 1]] else [])
  }

  /** The bytes of these tensors together. */
  ghost function BytesOf(file: File, names: seq<string>): nat {
    if names == [] then 0 else
      var name := names[|names| - 1];
      BytesOf(file, names[..|names| - 1]) + (if name in file then |file[name].bytes| else 0)
  }

  lemma NoMembersYet(topo: Topology, group: string, file: File)
    ensures NamesOf([]) == MembersBefore(topo, group, 0) && BytesOf(file, MembersBefore(topo, group, 0)) == 0
  {}

  lemma MemberNext(topo: Topology, group: string, k: nat, tensors: seq<TensorDiff>, d: TensorDiff, file: File)
    requires k < |topo.order| && d.name == topo.order[k] && Member(topo, d.name, group)
    requires NamesOf(tensors) == MembersBefore(topo, group, k)
    ensures NamesOf(tensors + [d]) == MembersBefore(topo, group, k + 1)
    ensures BytesOf(file, MembersBefore(topo, group, k + 1))
         == BytesOf(file, MembersBefore(topo, group, k)) + (if d.name in file then |file[d.name].bytes| else 0)
  {
    hide Member;
    var now := MembersBefore(topo, group, k + 1);
    assert now[..|now| - 1] == MembersBefore(topo, group, k);
    assert NamesOf(tensors + [d]) == NamesOf(tensors) + [d.name];
  }

  lemma MemberSkipped(topo: Topology, group: string, k: nat)
    requires k < |topo.order| && !Member(topo, topo.order[k], group)
    ensures MembersBefore(topo, group, k + 1) == MembersBefore(topo, group, k)
  {
    hide Member;
  }

  lemma GroupStarts(p: Prims, base: Source, start: seq<Byte>, topo: Topology, group: string, perm: seq<int>,
      file: File, moved: map<string, seq<Byte>>)
    ensures NamesBefore([], topo, 0) && Progress(p, start, [], topo, group, perm, file, moved, 0)
    ensures SeenBefore(base, topo, group, 0)
  {}

  lemma IsMember(topo: Topology, name: string, group: string)
    requires name in topo.order && name in topo.tensors && RowBinding(topo.tensors[name], group).Some?
    ensures Member(topo, name, group)
  {}

  lemma NoMember(topo: Topology, name: string, group: string)
    requires name !in topo.tensors || RowBinding(topo.tensors[name], group).None?
    ensures !Member(topo, name, group)
  {}

  lemma SoundPermutation(p: Prims, base: Source, target: Source, topo: Topology, group: string, perm: seq<int>,
      file: File, moved: map<string, seq<Byte>>)
    requires GroupSound(p, base, target, topo, group, perm, file, moved)
    ensures Lawful(p) && IsPermutation(perm, |perm|) && |perm| <= 0x1_0000_0000
  {}

  lemma SoundMember(p: Prims, base: Source, target: Source, topo: Topology, group: string, perm: seq<int>, file: File,
      moved: map<string, seq<Byte>>, name: string)
    requires GroupSound(p, base, target, topo, group, perm, file, moved) && Member(topo, name, group)
    ensures Lawful(p) && IsPermutation(perm, |perm|) && name in file && name in moved && name in topo.tensors
    ensures RowBinding(topo.tensors[name], group).Some?
    ensures TensorSound(base, target, name, RowBinding(topo.tensors[name], group).value.block, perm, file[name],
        moved[name])
  {
    hide TensorSound;
    assert MemberSound(base, target, topo, group, perm, file, moved, name);
  }

  lemma SeeNext(src: Source, topo: Topology, group: string, k: nat)
    requires k < |topo.order| && SeenBefore(src, topo, group, k)
    requires Member(topo, topo.order[k], group) ==> !Blind(src, topo.order[k])
    ensures SeenBefore(src, topo, group, k + 1)
  {
    hide Blind, Member;
  }

  lemma AllSeen(src: Source, topo: Topology, group: string)
    requires SeenBefore(src, topo, group, |topo.order|)
    ensures !BlindMember(src, topo, group)
  {
    hide Blind;
    forall name | Member(topo, name, group) ensures !Blind(src, name) {
      var i :| 0 <= i < |topo.order| && topo.order[i] == name;
    }
  }

  /** encode_group. */
  method EncodeGroup(p: Prims, base: Source, target: Source, topo: Topology, group: string, perm: seq<int>,
      opts: EncodeOptions, ghost file: File, ghost moved: map<string, seq<Byte>>)
    returns (r: Result<Encoded>)
    requires Distinct(topo.order) && forall i :: 0 <= i < |perm| ==> perm[i] >= 0
    ensures GroupSound(p, base, target, topo, group, perm, file, moved) ==>
      r.Ok? && ArtifactEncodes(p, r.value.artifact, topo, group, perm, file, moved)
    ensures BlindMember(base, topo, group) && !opts.residual.Plain? ==> r.Err?
    ensures r.Ok? ==> r.value.artifact.header.group == group
    ensures r.Ok? ==> NamesOf(r.value.artifact.header.tensors) == MembersBefore(topo, group, |topo.order|)
    ensures r.Ok? ==> forall i :: 0 <= i < |r.value.artifact.header.tensors| ==>
              CutRight(target, opts, r.value.artifact.header.tensors[i])
    ensures r.Ok? && GroupSound(p, base, target, topo, group, perm, file, moved) ==>
              r.value.fullBytes == BytesOf(file, MembersBefore(topo, group, |topo.order|))
  {
    hide CutRight, NamesOf, MembersBefore, BytesOf;
    hide Progress, NamesBefore, TensorSound, TensorWritten, FindTensor, Expand, Blind, GroupSound, MemberSound,
        SeenBefore, BlindMember, Member, ArtifactEncodes;
    ghost var good := GroupSound(p, base, target, topo, group, perm, file, moved);
    var ref, start := WritePermutation([], perm);
    GroupStarts(p, base, start, topo, group, perm, file, moved);
    NoMembersYet(topo, group, file);
    var payload, tensors, k := start, [], 0;
    var full: nat := 0;
    while k < |topo.order|
      invariant 0 <= k <= |topo.order| && start <= payload && NamesBefore(tensors, topo, k)
      invariant good ==> Progress(p, payload, tensors, topo, group, perm, file, moved, k)
      invariant !opts.residual.Plain? ==> SeenBefore(base, topo, group, k)
      invariant NamesOf(tensors) == MembersBefore(topo, group, k)
      invariant forall i :: 0 <= i < |tensors| ==> CutRight(target, opts, tensors[i])
      invariant good ==> full == BytesOf(file, MembersBefore(topo, group, k))
    {
      hide RowBinding;
      var name := topo.order[k];
      var binding := if name in topo.tensors then RowBinding(topo.tensors[name], group) else None;
      if binding.Some? {
        ghost var t := if name in file then file[name] else Tensor([], F16, []);
        ghost var mv := if name in moved then moved[name] else [];
        IsMember(topo, name, group);
        if good {
          SoundMember(p, base, target, topo, group, perm, file, moved, name);
        }
        var e := EncodeTensor(p, base, target, name, binding.value.block, perm, opts, payload, t, mv);
        if e.Err? {
          return Err(e.error);
        }
        NamesStep(tensors, e.value.d, topo, k);
        ghost var more := e.value.payload[|payload|..];
        assert e.value.payload == payload + more;
        if good {
          ProgressStep(p, payload, more, tensors, e.value.d, topo, group, perm, file, moved, k);
        }
        if !opts.residual.Plain? {
          SeeNext(base, topo, group, k);
        }
        MemberNext(topo, group, k, tensors, e.value.d, file);
        payload, tensors, full := e.value.payload, tensors + [e.value.d], full + e.value.fullBytes;
      } else {
        NoMember(topo, name, group);
        MemberSkipped(topo, group, k);
        SkipName(p, payload, tensors, topo, group, perm, file, moved, k);
        if !opts.residual.Plain? {
          SeeNext(base, topo, group, k);
        }
      }
      k := k + 1;
    }
    var art := Artifact(DiffHeader(group, ref, tensors), payload);
    if !opts.residual.Plain? {
      AllSeen(base, topo, group);
    }
    if good {
      SoundPermutation(p, base, target, topo, group, perm, file, moved);
      GroupFinish(p, art, topo, group, perm, file, moved, start);
    }
    return Ok(Encoded(art, full));
  }

  lemma SkipName(p: Prims, payload: seq<Byte>, tensors: seq<TensorDiff>, topo: Topology, group: string,
      perm: seq<int>, file: File, moved: map<string, seq<Byte>>, k: nat)
    requires k < |topo.order| && !Member(topo, topo.order[k], group) && NamesBefore(tensors, topo, k)
    ensures NamesBefore(tensors, topo, k + 1)
    ensures Progress(p, payload, tensors, topo, group, perm, file, moved, k) ==>
        Progress(p, payload, tensors, topo, group, perm, file, moved, k + 1)
  {
    hide MemberWritten;
  }

  lemma GroupFinish(p: Prims, art: Artifact, topo: Topology, group: string, perm: seq<int>, file: File,
      moved: map<string, seq<Byte>>, start: seq<Byte>)
    requires IsPermutation(perm, |perm|) && |perm| <= 0x1_0000_0000 && start <= art.payload && art.header.group == group
    requires art.header.permutation.Identity? <==> IsIdentity(perm)
    requires art.header.permutation.Explicit? ==>
      && art.header.permutation == Explicit(|perm|, |perm| > 65536, 0, |perm| * EntryBytes(|perm| > 65536))
      && start == [] + Serialize(perm, |perm| > 65536)
    requires Progress(p, art.payload, art.header.tensors, topo, group, perm, file, moved, |topo.order|)
    ensures ArtifactEncodes(p, art, topo, group, perm, file, moved)
  {
    hide TensorWritten, FindTensor, Serialize;
    forall name | Member(topo, name, group) ensures MemberWritten(p, art, topo, group, perm, file, moved, name) {
      var i :| 0 <= i < |topo.order| && topo.order[i] == name;
      assert MemberWritten(p, Artifact(DiffHeader(group, Identity, art.header.tensors), art.payload), topo, group,
          perm, file, moved, topo.order[i]);
    }
    if !IsIdentity(perm) {
      WidthFits(perm);
      var after := art.payload[|start|..];
      assert art.payload == [] + Serialize(perm, |perm| > 65536) + after;
      PermutationRoundTrip(perm, |perm| > 65536, [], after);
    }
  }
}
