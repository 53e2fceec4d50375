/** Group permutations inside an artifact's payload: two or four bytes an entry, and nothing at all for the identity
    (modules/codec/src/diff_encoder.cpp, modules/format/src/residual_hdr.cpp). */
module StoredPerm {
  import opened Common
  import opened Arith
  import opened Endian
  import opened Gather
  import opened Records

  function EntryBytes(wide: bool): nat { if wide then 4 else 2 }

  function Serialize(perm: seq<int>, wide: bool): (r: seq<Byte>)
    requires forall i :: 0 <= i < |perm| ==> perm[i] >= 0
    ensures |r| == |perm| * EntryBytes(wide)
  {
    if perm == [] then [] else
      MulSucc(|perm| - 1, EntryBytes(wide));
      Serialize(perm[..|perm| - 1], wide) + StoreLe(perm[|perm| - 1], EntryBytes(wide))
  }

  /** Entry i of a permutation stored from byte `off` on. */
  function Entry(payload: seq<Byte>, off: nat, wide: bool, i: nat): nat
    requires off + i * EntryBytes(wide) + EntryBytes(wide) <= |payload|
  {
    var at := off + i * EntryBytes(wide);
    LoadLe(payload[at..at + EntryBytes(wide)])
  }

  lemma EntryInRange(n: nat, wide: bool, i: nat)
    requires i < n
    ensures i * EntryBytes(wide) + EntryBytes(wide) <= n * EntryBytes(wide)
  {
    MulLe(i + 1, n, EntryBytes(wide));
    MulSucc(i, EntryBytes(wide));
  }

  function Entries(payload: seq<Byte>, off: nat, wide: bool, n: nat): (r: seq<int>)
    requires off + n * EntryBytes(wide) <= |payload|
    ensures |r| == n
  {
    seq(n, i requires 0 <= i < n => EntryInRange(n, wide, i); Entry(payload, off, wide, i))
  }

  /** read_permutation: an empty list for the identity, otherwise a checked bijection. */
  function ReadPermutation(ref: PermRef, payload: seq<Byte>): (r: Result<seq<int>>)
    ensures r.Ok? && ref.Explicit? ==> IsPermutation(r.value, ref.n)
  {
    if ref.Identity? then Ok([]) else
    if ref.len != ref.n * EntryBytes(ref.wide) || ref.off + ref.len > |payload| then Err(MalformedObject) else
      var perm := Entries(payload, ref.off, ref.wide, ref.n);
      if IsPermutation(perm, ref.n) then Ok(perm) else Err(InvalidPermutation)
  }

  method ReadPermutationLoop(ref: PermRef, payload: seq<Byte>) returns (r: Result<seq<int>>)
    ensures r == ReadPermutation(ref, payload)
  {
    if ref.Identity? {
      return Ok([]);
    }
    if ref.len != ref.n * EntryBytes(ref.wide) || ref.off + ref.len > |payload| {
      return Err(MalformedObject);
    }
    var out := [];
    ghost var all := Entries(payload, ref.off, ref.wide, ref.n);
    var i := 0;
    while i < ref.n
      invariant 0 <= i <= ref.n == |all| && out == all[..i]
    {
      EntryInRange(ref.n, ref.wide, i);
      out := out + [Entry(payload, ref.off, ref.wide, i)];
      i := i + 1;
    }
    assert out == all;
    if !IsPermutation(out, ref.n) {
      return Err(InvalidPermutation);
    }
    return Ok(out);
  }

  /** Entries of this permutation fit the width chosen for it. */
  ghost predicate FitsWidth(perm: seq<int>, wide: bool) {
    forall i :: 0 <= i < |perm| ==> 0 <= perm[i] < Radix(EntryBytes(wide))
  }

  lemma {:induction false} EntryBack(perm: seq<int>, wide: bool, before: seq<Byte>, after: seq<Byte>, i: nat)
    requires FitsWidth(perm, wide) && i < |perm|
    ensures |before| + i * EntryBytes(wide) + EntryBytes(wide) <= |before + Serialize(perm, wide) + after|
    ensures Entry(before + Serialize(perm, wide) + after, |before|, wide, i) == perm[i]
  {
    hide StoreLe, LoadLe, Radix;
    var n, w := |perm| - 1, EntryBytes(wide);
    var front := Serialize(perm[..n], wide);
    var last := StoreLe(perm[n], w);
    EntryInRange(|perm|, wide, i);
    var all := before + Serialize(perm, wide) + after;
    if i < n {
      EntryBack(perm[..n], wide, before, last + after, i);
      assert all == before + front + (last + after);
    } else {
      LoadStore(perm[n], w);
      assert all == (before + front) + (last + after);
      SliceOfConcat(before + front, last + after, 0, w);
      assert (last + after)[..w] == last;
    }
  }

  /** What the writer leaves in the payload reads back, whatever is appended after it. */
  lemma PermutationRoundTrip(perm: seq<int>, wide: bool, before: seq<Byte>, after: seq<Byte>)
    requires IsPermutation(perm, |perm|) && FitsWidth(perm, wide)
    ensures ReadPermutation(Explicit(|perm|, wide, |before|, |perm| * EntryBytes(wide)),
        before + Serialize(perm, wide) + after) == Ok(perm)
  {
    var payload := before + Serialize(perm, wide) + after;
    var got := Entries(payload, |before|, wide, |perm|);
    forall i | 0 <= i < |perm| ensures got[i] == perm[i] {
      EntryBack(perm, wide, before, after, i);
    }
    assert got == perm;
  }

  lemma WidthFits(perm: seq<int>)
    requires IsPermutation(perm, |perm|) && |perm| <= 0x1_0000_0000
    ensures FitsWidth(perm, |perm| > 65536)
  {
    assert Radix(2) == 65536 && Radix(4) == 0x1_0000_0000 by {
      assert Radix(1) == 256 && Radix(2) == 65536 && Radix(3) == 16777216;
    }
  }

  /** The entries in order, at the chosen width. */
  method WriteEntries(payload: seq<Byte>, perm: seq<int>, wide: bool) returns (out: seq<Byte>)
    requires forall i :: 0 <= i < |perm| ==> perm[i] >= 0
    ensures out == payload + Serialize(perm, wide)
  {
    hide Serialize, StoreLe, EntryBytes;
    out := payload;
    NoEntries(perm, wide);
    assert payload + [] == payload;
    var k := 0;
    while k < |perm|
      invariant 0 <= k <= |perm| && out == payload + Serialize(perm[..k], wide)
    {
      NextEntry(perm, wide, k);
      out := out + StoreLe(perm[k], EntryBytes(wide));
      k := k + 1;
    }
    assert perm[..k] == perm;
  }

  lemma NoEntries(perm: seq<int>, wide: bool)
    ensures Serialize(perm[..0], wide) == []
  {}

  lemma NextEntry(perm: seq<int>, wide: bool, k: nat)
    requires k < |perm| && forall i :: 0 <= i < |perm| ==> perm[i] >= 0
    ensures Serialize(perm[..k + 1], wide) == Serialize(perm[..k], wide) + StoreLe(perm[k], EntryBytes(wide))
  {
    assert perm[..k + 1][..k] == perm[..k];
  }

  /** write_permutation. */
  method WritePermutation(payload: seq<Byte>, perm: seq<int>) returns (ref: PermRef, out: seq<Byte>)
    requires forall i :: 0 <= i < |perm| ==> perm[i] >= 0
    ensures ref.Identity? <==> IsIdentity(perm)
    ensures ref.Identity? ==> out == payload
    ensures ref.Explicit? ==> ref == Explicit(|perm|, |perm| > 65536, |payload|, |perm| * EntryBytes(|perm| > 65536))
    ensures ref.Explicit? ==> out == payload + Serialize(perm, |perm| > 65536)
    ensures ref.Explicit? ==> ref.len == (if |perm| > 65536 then 4 else 2) * |perm|
  {
    var i := 0;
    while i < |perm| && perm[i] == i
      invariant 0 <= i <= |perm| && forall t :: 0 <= t < i ==> perm[t] == t
    {
      i := i + 1;
    }
    if i == |perm| {
      return Identity, payload;
    }
    var wide := |perm| > 65536;
    out := WriteEntries(payload, perm, wide);
    ref := Explicit(|perm|, wide, |payload|, |perm| * EntryBytes(wide));
  }
}
