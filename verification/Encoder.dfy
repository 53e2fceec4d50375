/** Building a diff artifact: permutation, framed residuals, digests (modules/codec/src/diff_encoder.cpp). */
module Encoder {
  import opened Common
  import opened Arith
  import opened Runs
  import opened Residual
  import opened Records
  import opened Frames
  import opened Reader
  import opened ReadBack
  import opened Sources

  datatype EncodeOptions = EncodeOptions(residual: ResidualKind, transform: Transform, frameBytes: nat,
      verifyRoundTrip: bool)

  datatype Encoded = Encoded(artifact: Artifact, fullBytes: nat)

  // ------------------------------------------------------------- base units

  function SourceUnits(src: Source, name: string, ub: nat, first: int, count: nat): Result<seq<Byte>> {
    if first < 0 then Err(Internal) else
      var got :- src.read(name, first, count, Zeros(count * ub));
      Ok(got.out)
  }

  function UnitsFrom(src: Source, name: string, ub: nat): UnitReader {
    (first: int, count: nat) => SourceUnits(src, name, ub, first, count)
  }

  lemma YieldsUnits(src: Source, name: string, ub: nat, bytes: seq<Byte>)
    requires Yields(src, name, ub, bytes)
    ensures ServesUnits(UnitsFrom(src, name, ub), bytes, ub)
  {
    forall first: int, count: nat | first >= 0 && 0 <= first * ub <= first * ub + count * ub <= |bytes|
      ensures UnitsFrom(src, name, ub)(first, count) == Ok(bytes[first * ub..first * ub + count * ub])
    {
      assert src.read(name, first, count,
          Zeros(count * ub)) == Ok(Got(count * ub, bytes[first * ub..first * ub + count * ub]));
    }
  }

  lemma GatherAligned(src: Source, name: string, ub: nat, moved: seq<Byte>, rows: seq<int>, axis: nat, a: nat, b: nat)
    requires Yields(src, name, ub, moved) && |moved| == axis * ub && a <= b <= axis && rows != []
        && IsPermutation(rows, axis)
    ensures GatherThroughRuns(UnitsFrom(src, name, ub), rows, a, b - a, ub) == Ok(Aligned(moved, rows, axis, ub, a, b))
  {
    YieldsUnits(src, name, ub, moved);
    RowsExist(moved, rows, axis, ub, a, b);
    assert rows[a..a + (b - a)] == rows[a..b];
    hide Yields, ServesUnits, GatherThroughRuns;
    GatherIsDirect(UnitsFrom(src, name, ub), moved, rows, a, b - a, ub);
  }

  /** Nothing can be gathered from a tensor that cannot be read. */
  lemma BlindGather(src: Source, name: string, ub: nat, rows: seq<int>, a: nat, b: nat)
    requires Blind(src, name) && a < b <= |rows|
    ensures GatherThroughRuns(UnitsFrom(src, name, ub), rows, a, b - a, ub).Err?
  {
    hide Blind, DependencyRuns;
    SomeRun(rows, a, b);
    BlindFetch(src, name, ub, DependencyRuns(rows, a, b - a));
  }

  lemma SomeRun(rows: seq<int>, a: nat, b: nat)
    requires a < b <= |rows|
    ensures DependencyRuns(rows, a, b - a) != []
  {
    hide DependencyRuns;
    DependenciesAre(rows, a, b - a, rows[a]);
    assert rows[a] == rows[a..a + (b - a)][0];
  }

  lemma BlindFetch(src: Source, name: string, ub: nat, runs: seq<UnitRun>)
    requires Blind(src, name) && runs != []
    ensures FetchRuns(UnitsFrom(src, name, ub), runs, ub, Scratch([], map[])).Err?
  {
    assert UnitsFrom(src, name, ub)(runs[0].first, runs[0].count).Err?;
  }

  // ------------------------------------------------------------- one frame

  /** What the encoder must know for its frames to decode: the base yields `moved`, in units of whole elements. */
  ghost predicate Framed(src: Source, name: string, w: nat, ub: nat, axis: nat, rows: seq<int>, moved: seq<Byte>) {
    && Width(w) && ub % w == 0 && rows != [] && IsPermutation(rows, axis) && |moved| == axis * ub
    && Yields(src, name, ub, moved)
  }

  lemma FramedGather(base: Source, name: string, w: nat, ub: nat, axis: nat, rows: seq<int>, moved: seq<Byte>, a: nat,
      b: nat)
    requires Framed(base, name, w, ub, axis, rows, moved) && a <= b <= |rows|
    ensures axis == |rows| && b <= axis && |moved| == axis * ub && (rows == [] || IsPermutation(rows, axis))
    ensures GatherThroughRuns(UnitsFrom(base, name, ub), rows, a, b - a, ub) == Ok(Aligned(moved, rows, axis, ub, a, b))
  {
    hide Yields, Aligned, GatherThroughRuns;
    GatherAligned(base, name, ub, moved, rows, axis, a, b);
  }

  lemma PlainResidual(base: Source, name: string, w: nat, ub: nat, axis: nat, rows: seq<int>, moved: seq<Byte>,
      a: nat, b: nat, bytes: seq<Byte>)
    requires Width(w) && a <= b <= |rows| && |bytes| == (b - a) * ub
    ensures Framed(base, name, w, ub, axis, rows, moved) ==>
      EncodeResidual(Plain, w, Aligned(moved, rows, axis, ub, a, b), bytes) == bytes
  {
    hide Yields, Aligned;
  }

  /** The residual just made, applied to the base it was made from, is the frame again. */
  lemma RoundTripHolds(base: Source, name: string, w: nat, ub: nat, axis: nat, rows: seq<int>, moved: seq<Byte>,
      a: nat, b: nat, kind: ResidualKind, aligned: seq<Byte>, bytes: seq<Byte>, resid: seq<Byte>)
    requires Width(w) && a <= b && Framed(base, name, w, ub, axis, rows, moved)
    requires |aligned| == |bytes| == (b - a) * ub && resid == EncodeResidual(kind, w, aligned, bytes)
    ensures ApplyResidual(kind, NoTransform, w, aligned, resid) == Ok(bytes)
  {
    hide Yields, EncodeResidual, ApplyResidual;
    FrameIsWhole(a, b, ub, w);
    FrameRoundTrip(kind, NoTransform, w, aligned, bytes);
    NothingToTransform(w, resid);
  }

  method FrameResidual(base: Source, name: string, w: nat, ub: nat, rows: seq<int>, a: nat, b: nat, bytes: seq<Byte>,
      opts: EncodeOptions, ghost axis: nat, ghost moved: seq<Byte>)
    returns (r: Result<seq<Byte>>)
    requires Width(w) && a <= b <= |rows| && |bytes| == (b - a) * ub
    ensures r.Ok? ==> |r.value| == |bytes|
    ensures Framed(base, name, w, ub, axis, rows, moved) ==>
      r == Ok(EncodeResidual(opts.residual, w, Aligned(moved, rows, axis, ub, a, b), bytes))
    ensures Blind(base, name) && !opts.residual.Plain? && a < b ==> r.Err?
    ensures opts.residual.Plain? ==> r == Ok(bytes)
    ensures opts.verifyRoundTrip && !opts.residual.Plain? && r.Ok? ==>
      exists aligned ::
        && GatherThroughRuns(UnitsFrom(base, name, ub), rows, a, b - a, ub) == Ok(aligned)
        && ApplyResidual(opts.residual, NoTransform, w, aligned, r.value) == Ok(bytes)
  {
    hide *;
    if opts.residual.Plain? {
      PlainResidual(base, name, w, ub, axis, rows, moved, a, b, bytes);
      return Ok(bytes);
    }
    ghost var good := Framed(base, name, w, ub, axis, rows, moved);
    if good {
      FramedGather(base, name, w, ub, axis, rows, moved, a, b);
    }
    if Blind(base, name) && a < b {
      BlindGather(base, name, ub, rows, a, b);
    }
    var gathered := GatherLoop(UnitsFrom(base, name, ub), rows, a, b - a, ub);
    if gathered.Err? {
      return gathered;
    }
    var resid := EncodeResidualLoop(opts.residual, w, gathered.value, bytes);
    if opts.verifyRoundTrip {
      var again := ApplyResidual(opts.residual, NoTransform, w, gathered.value, resid);
      if good {
        RoundTripHolds(base, name, w, ub, axis, rows, moved, a, b, opts.residual, gathered.value, bytes, resid);
      }
      if again.Err? {
        return again;
      }
      if again.value != bytes {
        return Err(Internal);
      }
    }
    return Ok(resid);
  }

  lemma NothingToTransform(w: nat, x: seq<Byte>)
    ensures Transformed(NoTransform, w, x) == x
  {}

  lemma FrameIsWhole(a: nat, b: nat, ub: nat, w: nat)
    requires Width(w) && ub % w == 0 && a <= b
    ensures ((b - a) * ub) % w == 0
  {
    var n, q := b - a, ub / w;
    assert ub == q * w + ub % w;
    assert n * (q * w) == (n * q) * w;
    assert n * ub == (n * q) * w + 0;
    DivUnique(n * q, 0, w);
  }

  // ------------------------------------------------------------- the frame loop

  ghost function FramePlan(payload: seq<Byte>, t: TensorDiff, ub: nat, axis: nat, rows: seq<int>): Plan {
    Plan(payload, t, ub, axis, rows, NoColumns)
  }

  /** The frames so far cover [0, upto) and decode to `bytes`. */
  ghost predicate Written(p: Prims, payload: seq<Byte>, t: TensorDiff, ub: nat, axis: nat, rows: seq<int>,
      frames: seq<Frame>, moved: seq<Byte>, bytes: seq<Byte>, upto: nat) {
    && (rows == [] || IsPermutation(rows, axis)) && |moved| == |bytes| == axis * ub && upto <= axis
    && Tiles(frames, 0, upto)
    && FramesEncode(p, FramePlan(payload, t, ub, axis, rows), frames, moved, bytes)
  }

  lemma {:induction false} TilesAppend(frames: seq<Frame>, from: nat, f: Frame)
    requires f.unitBegin <= f.unitEnd && from <= f.unitBegin && Tiles(frames, from, f.unitBegin)
    ensures Tiles(frames + [f], from, f.unitEnd)
  {
    if frames == [] {
      assert (frames + [f])[1..] == [];
    } else {
      TilesAppend(frames[1..], frames[0].unitEnd, f);
      assert (frames + [f])[1..] == frames[1..] + [f];
    }
  }

  /** Bytes appended to the payload disturb no earlier frame. */
  lemma FrameEncodesMore(p: Prims, payload: seq<Byte>, more: seq<Byte>, t: TensorDiff, ub: nat, axis: nat,
      rows: seq<int>, f: Frame, moved: seq<Byte>, bytes: seq<Byte>)
    requires (rows == [] || IsPermutation(rows, axis)) && |moved| == |bytes| == axis * ub
        && f.unitBegin <= f.unitEnd <= axis
    requires FrameEncodes(p, FramePlan(payload, t, ub, axis, rows), f, moved, bytes)
    ensures FrameEncodes(p, FramePlan(payload + more, t, ub, axis, rows), f, moved, bytes)
  {
    hide ApplyResidual, Aligned;
    assert (payload + more)[f.off..f.off + f.len] == payload[f.off..f.off + f.len];
  }

  /** What the encoder appends for units [a, b). */
  ghost function Packed(p: Prims, t: TensorDiff, ub: nat, axis: nat, rows: seq<int>, moved: seq<Byte>,
      bytes: seq<Byte>, a: nat, b: nat): seq<Byte>
    requires (rows == [] || IsPermutation(rows, axis)) && |moved| == |bytes| == axis * ub && a <= b <= axis
  {
    SliceBounds(axis, ub, a, b);
    p.compress(Transformed(t.transform, t.dtype.Size(),
      EncodeResidual(t.residual, t.dtype.Size(), Aligned(moved, rows, axis, ub, a, b), bytes[a * ub..b * ub])))
  }

  lemma NewFrameEncodes(p: Prims, payload: seq<Byte>, t: TensorDiff, ub: nat, axis: nat, rows: seq<int>,
      moved: seq<Byte>, bytes: seq<Byte>, a: nat, b: nat, comp: seq<Byte>, f: Frame)
    requires Lawful(p) && ub % t.dtype.Size() == 0
    requires (rows == [] || IsPermutation(rows, axis)) && |moved| == |bytes| == axis * ub && a <= b <= axis
    requires comp == Packed(p, t, ub, axis, rows, moved, bytes, a, b)
    requires 0 <= a * ub <= b * ub <= |bytes| && f == Frame(a, b, |payload|, |comp|, p.digest(bytes[a * ub..b * ub]))
    ensures FrameEncodes(p, FramePlan(payload + comp, t, ub, axis, rows), f, moved, bytes)
  {
    hide ApplyResidual, Aligned, EncodeResidual, Transformed, Lawful;
    SliceBounds(axis, ub, a, b);
    FrameIsWhole(a, b, ub, t.dtype.Size());
    var slice, base := bytes[a * ub..b * ub], Aligned(moved, rows, axis, ub, a, b);
    FrameRoundTrip(t.residual, t.transform, t.dtype.Size(), base, slice);
    var x := Transformed(t.transform, t.dtype.Size(), EncodeResidual(t.residual, t.dtype.Size(), base, slice));
    Decompresses(p, x);
    Appended(payload, comp);
  }

  lemma Appended(payload: seq<Byte>, comp: seq<Byte>)
    ensures (payload + comp)[|payload|..|payload| + |comp|] == comp
  {}

  lemma Decompresses(p: Prims, x: seq<Byte>)
    requires Lawful(p)
    ensures p.decompress(p.compress(x), |x|) == Ok(x)
  {}

  lemma WrittenStep(p: Prims, payload: seq<Byte>, t: TensorDiff, ub: nat, axis: nat, rows: seq<int>,
      frames: seq<Frame>, moved: seq<Byte>, bytes: seq<Byte>, a: nat, b: nat, comp: seq<Byte>, f: Frame)
    requires Lawful(p) && ub % t.dtype.Size() == 0 && Written(p, payload, t, ub, axis, rows, frames, moved, bytes, a)
        && a <= b <= axis
    requires comp == Packed(p, t, ub, axis, rows, moved, bytes, a, b)
    requires 0 <= a * ub <= b * ub <= |bytes| && f == Frame(a, b, |payload|, |comp|, p.digest(bytes[a * ub..b * ub]))
    ensures Written(p, payload + comp, t, ub, axis, rows, frames + [f], moved, bytes, b)
  {
    hide FrameEncodes, Lawful, Packed;
    TilesAppend(frames, 0, f);
    NewFrameEncodes(p, payload, t, ub, axis, rows, moved, bytes, a, b, comp, f);
    forall i | 0 <= i < |frames|
      ensures FrameEncodes(p, FramePlan(payload + comp, t, ub, axis, rows), frames[i], moved, bytes)
    {
      FrameEncodesMore(p, payload, comp, t, ub, axis, rows, frames[i], moved, bytes);
    }
  }

  /** Everything the frames of one tensor rest on. */
  ghost predicate Sound(p: Prims, base: Source, target: Source, t: TensorDiff, ub: nat, axis: nat, rows: seq<int>,
      moved: seq<Byte>, bytes: seq<Byte>) {
    && Lawful(p) && Framed(base, t.name, t.dtype.Size(), ub, axis, rows, moved)
    && |bytes| == axis * ub && Yields(target, t.name, ub, bytes)
  }

  datatype FrameSet = FrameSet(frames: seq<Frame>, payload: seq<Byte>, fullBytes: nat)

  method EncodeOneFrame(p: Prims, base: Source, target: Source, t: TensorDiff, ub: nat, rows: seq<int>,
      opts: EncodeOptions, a: nat, b: nat, sofar: FrameSet, ghost axis: nat, ghost moved: seq<Byte>,
      ghost bytes: seq<Byte>)
    returns (r: Result<FrameSet>)
    requires a <= b <= |rows| && t.residual == opts.residual && t.transform == opts.transform
    ensures r.Ok? ==> sofar.payload <= r.value.payload && |r.value.frames| == |sofar.frames| + 1
    ensures r.Ok? ==>
      var n := |sofar.frames|;
      r.value.frames[..n] == sofar.frames && r.value.frames[n].unitBegin == a && r.value.frames[n].unitEnd == b
    ensures (Sound(p, base, target, t, ub, axis, rows, moved, bytes)
             && Written(p, sofar.payload, t, ub, axis, rows, sofar.frames, moved, bytes, a)) ==>
      r.Ok? && Written(p, r.value.payload, t, ub, axis, rows, r.value.frames, moved, bytes, b)
      && r.value.fullBytes == sofar.fullBytes + (b - a) * ub
    ensures Blind(base, t.name) && !t.residual.Plain? && a < b ==> r.Err?
  {
    ghost var good := Sound(p, base, target, t, ub, axis, rows, moved, bytes);
    var size := (b - a) * ub;
    if good {
      SliceBounds(axis, ub, a, b);
      assert target.read(t.name, a, b - a, Zeros(size)) == Ok(Got(size, bytes[a * ub..a * ub + size]));
    }
    hide Yields, Written, Lawful, EncodeResidual, Transformed, Blind;
    var got := target.read(t.name, a, b - a, Zeros(size));
    if got.Err? {
      return Err(got.error);
    }
    var slice := got.value.out;
    if |slice| != size {
      return Err(Internal);
    }
    var resid := FrameResidual(base, t.name, t.dtype.Size(), ub, rows, a, b, slice, opts, axis, moved);
    if resid.Err? {
      return Err(resid.error);
    }
    var packed := DoTransform(t.transform, t.dtype.Size(), resid.value);
    var comp := p.compress(packed);
    var f := Frame(a, b, |sofar.payload|, |comp|, p.digest(slice));
    if good && Written(p, sofar.payload, t, ub, axis, rows, sofar.frames, moved, bytes, a) {
      WrittenStep(p, sofar.payload, t, ub, axis, rows, sofar.frames, moved, bytes, a, b, comp, f);
    }
    return Ok(FrameSet(sofar.frames + [f], sofar.payload + comp, sofar.fullBytes + got.value.n));
  }

  /** Units of a frame. */
  function UnitsIn(f: Frame): int { f.unitEnd - f.unitBegin }

  /** The frames follow each other over the axis; each holds at least one unit and at most `frameBytes` bytes, or a
      single unit, and each but the last could not take one more. */
  ghost predicate FramesSized(frames: seq<Frame>, ub: nat, frameBytes: nat, axis: nat) {
    && (frames == [] <==> axis == 0)
    && (frames != [] ==> frames[0].unitBegin == 0 && frames[|frames| - 1].unitEnd == axis)
    && (forall i :: 0 < i < |frames| ==> frames[i].unitBegin == frames[i - 1].unitEnd)
    && (forall i :: 0 <= i < |frames| ==>
          UnitsIn(frames[i]) >= 1 && (UnitsIn(frames[i]) == 1 || UnitsIn(frames[i]) * Max(1, ub) <= frameBytes))
    && (forall i :: 0 <= i < |frames| - 1 ==> (UnitsIn(frames[i]) + 1) * Max(1, ub) > frameBytes)
  }

  /** Frames of `step` units each up to unit a; only one that ends the axis may be shorter. */
  ghost predicate CutTo(frames: seq<Frame>, step: nat, a: nat, axis: nat) {
    && (frames == [] <==> a == 0) && a <= axis
    && (frames != [] ==> frames[0].unitBegin == 0 && frames[|frames| - 1].unitEnd == a)
    && (forall i :: 0 < i < |frames| ==> frames[i].unitBegin == frames[i - 1].unitEnd)
    && (forall i :: 0 <= i < |frames| ==> 1 <= UnitsIn(frames[i]) <= step)
    && (forall i :: 0 <= i < |frames| && (i < |frames| - 1 || a < axis) ==> UnitsIn(frames[i]) == step)
  }

  lemma NothingCut(step: nat, axis: nat)
    ensures CutTo([], step, 0, axis)
  {}

  lemma CutOn(before: seq<Frame>, after: seq<Frame>, step: nat, a: nat, b: nat, axis: nat)
    requires CutTo(before, step, a, axis) && a < axis && step >= 1 && b == (if axis <= a + step then axis else a + step)
    requires |after| == |before| + 1 && after[..|before|] == before
    requires after[|before|].unitBegin == a && after[|before|].unitEnd == b
    ensures CutTo(after, step, b, axis)
  {
    forall i | 0 <= i < |before| ensures after[i] == before[i] {
      assert after[..|before|][i] == before[i];
    }
  }

  lemma CutIsSized(frames: seq<Frame>, ub: nat, frameBytes: nat, axis: nat)
    requires CutTo(frames, Max(1, frameBytes / Max(1, ub)), axis, axis)
    ensures FramesSized(frames, ub, frameBytes, axis)
  {
    var u := Max(1, ub);
    var step := Max(1, frameBytes / u);
    StepFits(frameBytes, u);
    forall i | 0 <= i < |frames| ensures UnitsIn(frames[i]) == 1 || UnitsIn(frames[i]) * u <= frameBytes {
      if UnitsIn(frames[i]) > 1 {
        MulLe(UnitsIn(frames[i]), step, u);
      }
    }
  }

  /** The quotient is the largest number of units that fit. */
  lemma StepFits(frameBytes: nat, u: nat)
    requires u >= 1
    ensures frameBytes / u >= 1 ==> Max(1, frameBytes / u) * u <= frameBytes
    ensures (Max(1, frameBytes / u) + 1) * u > frameBytes
  {
    var q := frameBytes / u;
    assert frameBytes == u * q + frameBytes % u;
    assert q * u == u * q;
    MulSucc(q, u);
    MulSucc(1, u);
    MulSucc(0, u);
  }

  /** The frame loop: frames of about frameBytes, at least one unit each, from unit 0 to the last. */
  method EncodeFrames(p: Prims, base: Source, target: Source, t: TensorDiff, ub: nat, rows: seq<int>,
      opts: EncodeOptions, payload: seq<Byte>, ghost moved: seq<Byte>, ghost bytes: seq<Byte>)
    returns (r: Result<FrameSet>)
    requires t.residual == opts.residual && t.transform == opts.transform
    ensures r.Ok? ==> payload <= r.value.payload && (rows != [] ==> r.value.frames != [])
    ensures Sound(p, base, target, t, ub, |rows|, rows, moved, bytes) ==>
      && r.Ok? && Written(p, r.value.payload, t, ub, |rows|, rows, r.value.frames, moved, bytes, |rows|)
      && r.value.fullBytes == |bytes|
    ensures Blind(base, t.name) && !t.residual.Plain? && rows != [] ==> r.Err?
    ensures r.Ok? ==> FramesSized(r.value.frames, ub, opts.frameBytes, |rows|)
  {
    var axis := |rows|;
    var frameUnits := Max(1, opts.frameBytes / Max(1, ub));
    var s := FrameSet([], payload, 0);
    ghost var good := Sound(p, base, target, t, ub, axis, rows, moved, bytes);
    assert frameUnits >= 1;
    NoFrames(p, base, target, t, ub, axis, rows, moved, bytes, payload);
    assert CountsTo(0, 0, ub);
    hide *;
    NothingCut(frameUnits, axis);
    var a := 0;
    while a < axis
      invariant 0 <= a <= axis && payload <= s.payload && (a > 0 ==> s.frames != [])
      invariant Blind(base, t.name) && !t.residual.Plain? ==> a == 0
      invariant good ==> Written(p, s.payload, t, ub, axis, rows, s.frames, moved, bytes, a)
      invariant good ==> CountsTo(s.fullBytes, a, ub)
      invariant CutTo(s.frames, frameUnits, a, axis)
    {
      var b := if axis <= a + frameUnits then axis else a + frameUnits;
      var next := EncodeOneFrame(p, base, target, t, ub, rows, opts, a, b, s, axis, moved, bytes);
      if next.Err? {
        return next;
      }
      CountOn(s.fullBytes, a, b, ub);
      CutOn(s.frames, next.value.frames, frameUnits, a, b, axis);
      s := next.value;
      a := b;
    }
    SoundSize(p, base, target, t, ub, axis, rows, moved, bytes, s.fullBytes);
    CutIsSized(s.frames, ub, opts.frameBytes, axis);
    return Ok(s);
  }

  lemma NoFrames(p: Prims, base: Source, target: Source, t: TensorDiff, ub: nat, axis: nat, rows: seq<int>,
      moved: seq<Byte>, bytes: seq<Byte>, payload: seq<Byte>)
    ensures Sound(p, base, target, t, ub, axis, rows, moved, bytes) ==>
        Written(p, payload, t, ub, axis, rows, [], moved, bytes, 0)
  {}

  ghost predicate CountsTo(bytes: nat, units: nat, ub: nat) { bytes == units * ub }

  lemma CountOn(bytes: nat, a: nat, b: nat, ub: nat)
    requires a <= b
    ensures CountsTo(bytes, a, ub) ==> CountsTo(bytes + (b - a) * ub, b, ub)
  {
    MulAdd(a, b - a, ub);
  }

  lemma SoundSize(p: Prims, base: Source, target: Source, t: TensorDiff, ub: nat, axis: nat, rows: seq<int>,
      moved: seq<Byte>, bytes: seq<Byte>, n: nat)
    ensures Sound(p, base, target, t, ub, axis, rows, moved, bytes) && CountsTo(n, axis, ub) ==> |bytes| == n
  {}
}
