/** Coalesced reads: a scattered set of units is sorted, collapsed into contiguous runs (modules/core/src/tensor.cpp,
    modules/codec/src/permute.cpp), read run by run into a scratch buffer, and gathered from there in target order. */
module Runs {
  import opened Common
  import opened Arith
  import opened Gather

  // ------------------------------------------------------------- sorting

  ghost predicate Ascending(s: seq<int>) {
    forall i :: 0 < i < |s| ==> s[i - 1] <= s[i]
  }

  function Insert(x: int, s: seq<int>): (r: seq<int>)
    requires Ascending(s)
    ensures Ascending(r) && r != [] && r[0] == (if s == [] || x <= s[0] then x else s[0])
    ensures multiset(r) == multiset(s) + multiset{x}
  {
    if s == [] || x <= s[0] then [x] + s else
      assert s == [s[0]] + s[1..];
      [s[0]] + Insert(x, s[1..])
  }

  /** What std::sort leaves in the index vector. */
  function Sort(s: seq<int>): (r: seq<int>)
    ensures Ascending(r) && multiset(r) == multiset(s)
  {
    if s == [] then [] else
      assert s == [s[0]] + s[1..];
      Insert(s[0], Sort(s[1..]))
  }

  // ------------------------------------------------------------- runs

  datatype UnitRun = UnitRun(first: int, count: nat)

  function Span(first: int, count: nat): seq<int> {
    seq(count, i => first + i)
  }

  /** The units of a list of runs, in order. */
  function Flatten(runs: seq<UnitRun>): seq<int> {
    if runs == [] then [] else Flatten(runs[..|runs| - 1]) + Span(runs[|runs| - 1].first, runs[|runs| - 1].count)
  }

  /** Add the next index to the last run, or open a new one. */
  function Extend(r: seq<UnitRun>, x: int): seq<UnitRun> {
    if r != [] && x == r[|r| - 1].first + r[|r| - 1].count
    then r[..|r| - 1] + [UnitRun(r[|r| - 1].first, r[|r| - 1].count + 1)]
    else r + [UnitRun(x, 1)]
  }

  function RunsOf(s: seq<int>, k: nat): seq<UnitRun>
    requires k <= |s|
  {
    if k == 0 then [] else Extend(RunsOf(s, k - 1), s[k - 1])
  }

  function ToRuns(s: seq<int>): seq<UnitRun> { RunsOf(s, |s|) }

  lemma SpanExtends(first: int, count: nat)
    ensures Span(first, count + 1) == Span(first, count) + [first + count]
  {}

  lemma FlattenAppend(r: seq<UnitRun>, run: UnitRun)
    ensures Flatten(r + [run]) == Flatten(r) + Span(run.first, run.count)
  {
    assert (r + [run])[..|r|] == r;
  }

  lemma ExtendSpells(r: seq<UnitRun>, x: int)
    ensures Flatten(Extend(r, x)) == Flatten(r) + [x]
  {
    hide Flatten, Span;
    if r != [] && x == r[|r| - 1].first + r[|r| - 1].count {
      var head, last := r[..|r| - 1], r[|r| - 1];
      assert r == head + [last];
      FlattenAppend(head, last);
      FlattenAppend(head, UnitRun(last.first, last.count + 1));
      SpanExtends(last.first, last.count);
    } else {
      FlattenAppend(r, UnitRun(x, 1));
      SpanExtends(x, 0);
      EmptySpan(x);
    }
  }

  ghost predicate NonEmpty(r: seq<UnitRun>) {
    forall i :: 0 <= i < |r| ==> r[i].count >= 1
  }

  lemma ExtendNonEmpty(r: seq<UnitRun>, x: int)
    requires NonEmpty(r)
    ensures NonEmpty(Extend(r, x))
  {}

  lemma NoRuns()
    ensures Flatten([]) == [] && NonEmpty([])
  {}

  lemma {:induction false} RunsOfSpell(s: seq<int>, k: nat)
    requires k <= |s|
    ensures Flatten(RunsOf(s, k)) == s[..k] && NonEmpty(RunsOf(s, k))
  {
    if k == 0 {
      NoRuns();
    }
    hide Flatten, Extend, NonEmpty;
    if k > 0 {
      RunsOfSpell(s, k - 1);
      ExtendSpells(RunsOf(s, k - 1), s[k - 1]);
      ExtendNonEmpty(RunsOf(s, k - 1), s[k - 1]);
      assert s[..k] == s[..k - 1] + [s[k - 1]];
    }
  }

  /** The runs spell out the index list, and none is empty. */
  lemma RunsSpell(s: seq<int>)
    ensures Flatten(ToRuns(s)) == s && NonEmpty(ToRuns(s))
  {
    RunsOfSpell(s, |s|);
    assert s[..|s|] == s;
  }

  lemma EmptySpan(first: int)
    ensures Span(first, 0) == []
  {}

  /** No two neighbouring runs could have been one. */
  ghost predicate Apart(r: seq<UnitRun>) {
    forall i :: 0 < i < |r| ==> r[i - 1].first + r[i - 1].count != r[i].first
  }

  lemma {:induction false} RunsApart(s: seq<int>, k: nat)
    requires k <= |s|
    ensures Apart(RunsOf(s, k))
  {
    if k > 0 {
      RunsApart(s, k - 1);
    }
  }

  /** to_runs: one pass with an open run. */
  method CollapseRuns(indices: seq<int>) returns (runs: seq<UnitRun>)
    ensures runs == ToRuns(indices)
  {
    runs := [];
    if indices == [] {
      return;
    }
    var start, count := indices[0], 1;
    var i := 1;
    while i < |indices|
      invariant 1 <= i <= |indices| && count >= 1 && runs + [UnitRun(start, count)] == RunsOf(indices, i)
    {
      assert (runs + [UnitRun(start, count)])[..|runs|] == runs;
      if indices[i] == start + count {
        count := count + 1;
      } else {
        runs := runs + [UnitRun(start, count)];
        start, count := indices[i], 1;
      }
      i := i + 1;
    }
    runs := runs + [UnitRun(start, count)];
  }

  /** dependency_runs. */
  function DependencyRuns(perm: seq<int>, first: nat, count: nat): seq<UnitRun>
    requires first + count <= |perm|
  {
    ToRuns(Sort(perm[first..first + count]))
  }

  /** The runs read exactly the units the slice names, as often as it names them: once each when the permutation
      repeats none. */
  lemma RunsReadOnce(perm: seq<int>, first: nat, count: nat)
    requires first + count <= |perm|
    ensures multiset(Flatten(DependencyRuns(perm, first, count))) == multiset(perm[first..first + count])
    ensures Distinct(perm) ==> Distinct(Flatten(DependencyRuns(perm, first, count)))
  {
    var slice := perm[first..first + count];
    hide Flatten, ToRuns, Distinct;
    RunsSpell(Sort(slice));
    if Distinct(perm) {
      DistinctSlice(perm, first, count);
      DistinctRearranged(slice, Sort(slice));
    }
  }

  lemma DistinctSlice(s: seq<int>, first: nat, count: nat)
    requires Distinct(s) && first + count <= |s|
    ensures Distinct(s[first..first + count])
  {}

  lemma DistinctRearranged(s: seq<int>, t: seq<int>)
    requires Distinct(s) && multiset(s) == multiset(t)
    ensures Distinct(t)
  {
    forall i, j | 0 <= i < j < |t| ensures t[i] != t[j] {
      DistinctMultiset(s, t[i]);
      if t[i] == t[j] {
        TwiceInMultiset(t, i, j);
      }
    }
  }

  lemma {:induction false} DistinctMultiset(s: seq<int>, x: int)
    requires Distinct(s)
    ensures multiset(s)[x] <= 1
  {
    if s != [] {
      var n := |s| - 1;
      DistinctMultiset(s[..n], x);
      assert s == s[..n] + [s[n]];
      if s[n] == x {
        assert x !in s[..n];
      }
    }
  }

  lemma TwiceInMultiset(s: seq<int>, i: nat, j: nat)
    requires i < j < |s| && s[i] == s[j]
    ensures multiset(s)[s[i]] >= 2
  {
    assert s == s[..j] + [s[j]] + s[j + 1..];
    assert s[i] in s[..j];
  }

  // ------------------------------------------------------------- the gather through runs

  /** Reads units [first, first + count) of one tensor. */
  type UnitReader = (int, nat) -> Result<seq<Byte>>

  /** The scratch buffer and where each fetched unit starts in it. */
  datatype Scratch = Scratch(bytes: seq<Byte>, at: map<int, nat>)

  ghost predicate ValidScratch(s: Scratch, ub: nat) {
    forall u :: u in s.at ==> s.at[u] + ub <= |s.bytes|
  }

  /** Note the first k units of a run that starts at byte `off`. */
  function IndexUnits(at: map<int, nat>, run: UnitRun, off: nat, ub: nat, k: nat): map<int, nat> {
    if k == 0 then at else IndexUnits(at, run, off, ub, k - 1)[run.first + k - 1 := off + (k - 1) * ub]
  }

  lemma {:induction false} IndexedUnits(at: map<int, nat>, run: UnitRun, off: nat, ub: nat, k: nat)
    ensures forall u :: u in IndexUnits(at, run, off, ub, k) <==> u in at || run.first <= u < run.first + k
    ensures forall u :: u in IndexUnits(at, run, off, ub, k) ==>
      IndexUnits(at, run, off, ub, k)[u] == (if run.first <= u < run.first + k then off + (u - run.first) * ub else
          at[u])
  {
    if k > 0 {
      IndexedUnits(at, run, off, ub, k - 1);
    }
  }

  function FetchRun(read: UnitReader, run: UnitRun, ub: nat, s: Scratch): (r: Result<Scratch>)
    requires ValidScratch(s, ub)
    ensures r.Ok? ==> ValidScratch(r.value, ub)
  {
    var got :- read(run.first, run.count);
    if |got| != run.count * ub then Err(MalformedObject) else
      var r := Scratch(s.bytes + got, IndexUnits(s.at, run, |s.bytes|, ub, run.count));
      assert ValidScratch(r, ub) by { FetchedIsValid(s, got, run, ub); }
      Ok(r)
  }

  lemma FetchedIsValid(s: Scratch, got: seq<Byte>, run: UnitRun, ub: nat)
    requires ValidScratch(s, ub) && |got| == run.count * ub
    ensures ValidScratch(Scratch(s.bytes + got, IndexUnits(s.at, run, |s.bytes|, ub, run.count)), ub)
  {
    IndexedUnits(s.at, run, |s.bytes|, ub, run.count);
    var at := IndexUnits(s.at, run, |s.bytes|, ub, run.count);
    forall u | u in at ensures at[u] + ub <= |s.bytes| + |got| {
      if run.first <= u < run.first + run.count {
        RowsFit(got, ub, run.count, u - run.first);
      }
    }
  }

  function FetchRuns(read: UnitReader, runs: seq<UnitRun>, ub: nat, s: Scratch): (r: Result<Scratch>)
    requires ValidScratch(s, ub)
    ensures r.Ok? ==> ValidScratch(r.value, ub)
  {
    if runs == [] then Ok(s) else
      var t :- FetchRun(read, runs[0], ub, s);
      FetchRuns(read, runs[1..], ub, t)
  }

  function Fetched(s: Scratch, u: int, ub: nat): (r: seq<Byte>)
    requires ValidScratch(s, ub) && u in s.at
    ensures |r| == ub
  {
    s.bytes[s.at[u]..s.at[u] + ub]
  }

  /** Units from the scratch buffer in the order asked for. */
  function Collect(s: Scratch, units: seq<int>, ub: nat, out: seq<Byte>): (r: Result<seq<Byte>>)
    requires ValidScratch(s, ub)
    ensures r.Ok? ==> |r.value| == |out| + |units| * ub
  {
    if units == [] then Ok(out) else
    if units[0] !in s.at then Err(Internal) else
      MulSucc(|units| - 1, ub);
      Collect(s, units[1..], ub, out + Fetched(s, units[0], ub))
  }

  /** gather_base_units / gather_base_bytes with an explicit permutation. */
  function GatherThroughRuns(read: UnitReader, perm: seq<int>, first: nat, count: nat,
      ub: nat): (r: Result<seq<Byte>>)
    requires first + count <= |perm|
    ensures r.Ok? ==> |r.value| == count * ub
  {
    var s :- FetchRuns(read, DependencyRuns(perm, first, count), ub, Scratch([], map[]));
    Collect(s, perm[first..first + count], ub, [])
  }

  /** The loops of the gather compute that function. */
  method GatherLoop(read: UnitReader, perm: seq<int>, first: nat, count: nat, ub: nat) returns (r: Result<seq<Byte>>)
    requires first + count <= |perm|
    ensures r == GatherThroughRuns(read, perm, first, count, ub)
  {
    var runs := CollapseRuns(Sort(perm[first..first + count]));
    var s := Scratch([], map[]);
    ghost var all := FetchRuns(read, runs, ub, s);
    var k := 0;
    assert runs[0..] == runs;
    while k < |runs|
      invariant 0 <= k <= |runs| && ValidScratch(s, ub) && all == FetchRuns(read, runs[k..], ub, s)
    {
      var run := runs[k];
      assert runs[k..][0] == run && runs[k..][1..] == runs[k + 1..];
      var t := read(run.first, run.count);
      if t.Err? {
        return Err(t.error);
      }
      if |t.value| != run.count * ub {
        return Err(MalformedObject);
      }
      var at := IndexLoop(s.at, run, |s.bytes|, ub);
      FetchedIsValid(s, t.value, run, ub);
      s := Scratch(s.bytes + t.value, at);
      k := k + 1;
    }
    r := CollectLoop(s, perm[first..first + count], ub);
  }

  method IndexLoop(at: map<int, nat>, run: UnitRun, off: nat, ub: nat) returns (r: map<int, nat>)
    ensures r == IndexUnits(at, run, off, ub, run.count)
  {
    r := at;
    var k := 0;
    while k < run.count
      invariant 0 <= k <= run.count && r == IndexUnits(at, run, off, ub, k)
    {
      r := r[run.first + k := off + k * ub];
      k := k + 1;
    }
  }

  method CollectLoop(s: Scratch, units: seq<int>, ub: nat) returns (r: Result<seq<Byte>>)
    requires ValidScratch(s, ub)
    ensures r == Collect(s, units, ub, [])
  {
    var out: seq<Byte> := [];
    var i := 0;
    assert units[0..] == units;
    while i < |units|
      invariant 0 <= i <= |units| && Collect(s, units, ub, []) == Collect(s, units[i..], ub, out)
    {
      assert units[i..][0] == units[i] && units[i..][1..] == units[i + 1..];
      if units[i] !in s.at {
        return Err(Internal);
      }
      out := out + Fetched(s, units[i], ub);
      i := i + 1;
    }
    return Ok(out);
  }

  // ------------------------------------------------------------- it is the direct gather

  /** The reader yields the units of `bytes` whenever it is asked for units that exist. */
  ghost predicate ServesUnits(read: UnitReader, bytes: seq<Byte>, ub: nat) {
    forall first: int, count: nat ::
      first >= 0 && 0 <= first * ub <= first * ub + count * ub <= |bytes| ==>
        read(first, count) == Ok(bytes[first * ub..first * ub + count * ub])
  }

  /** Every indexed unit sits in the scratch buffer with its own bytes. */
  ghost predicate Holds(s: Scratch, bytes: seq<Byte>, ub: nat) {
    && ValidScratch(s, ub)
    && forall u :: u in s.at ==> HasRow(bytes, ub, u) && s.bytes[s.at[u]..s.at[u] + ub] == Row(bytes, ub, u)
  }

  lemma RunInRange(run: UnitRun, bytes: seq<Byte>, ub: nat)
    requires run.count >= 1 && HasRows(bytes, ub, Span(run.first, run.count))
    ensures run.first >= 0 && 0 <= run.first * ub <= run.first * ub + run.count * ub <= |bytes|
  {
    var units := Span(run.first, run.count);
    assert HasRow(bytes, ub, units[0]);
    assert HasRow(bytes, ub, units[run.count - 1]);
    MulSucc(run.first + run.count - 1, ub);
    MulAdd(run.first, run.count, ub);
    MulLe(0, run.count, ub);
  }

  lemma FetchedHolds(run: UnitRun, ub: nat, s: Scratch, bytes: seq<Byte>, u: int)
    requires Holds(s, bytes, ub) && run.first >= 0 && 0 <= run.first * ub <= run.first * ub + run.count * ub <= |bytes|
    requires u in IndexUnits(s.at, run, |s.bytes|, ub, run.count)
    ensures var t := Scratch(s.bytes + bytes[run.first * ub..run.first * ub + run.count * ub],
        IndexUnits(s.at, run, |s.bytes|, ub, run.count));
      t.at[u] + ub <= |t.bytes| && HasRow(bytes, ub, u) && t.bytes[t.at[u]..t.at[u] + ub] == Row(bytes, ub, u)
  {
    IndexedUnits(s.at, run, |s.bytes|, ub, run.count);
    hide IndexUnits;
    if run.first <= u < run.first + run.count {
      NewUnitHolds(run, ub, s.bytes, bytes, u - run.first);
    } else {
      OldUnitHolds(s.bytes, bytes[run.first * ub..run.first * ub + run.count * ub], s.at[u], ub);
    }
  }

  lemma OldUnitHolds(front: seq<Byte>, got: seq<Byte>, at: nat, ub: nat)
    requires at + ub <= |front|
    ensures (front + got)[at..at + ub] == front[at..at + ub]
  {}

  lemma NewUnitHolds(run: UnitRun, ub: nat, front: seq<Byte>, bytes: seq<Byte>, d: nat)
    requires run.first >= 0 && 0 <= run.first * ub <= run.first * ub + run.count * ub <= |bytes| && d < run.count
    ensures var got := bytes[run.first * ub..run.first * ub + run.count * ub];
      && 0 <= |front| + d * ub && |front| + d * ub + ub <= |front + got| && HasRow(bytes, ub, run.first + d)
      && (front + got)[|front| + d * ub..|front| + d * ub + ub] == Row(bytes, ub, run.first + d)
  {
    var got := bytes[run.first * ub..run.first * ub + run.count * ub];
    RowOfSlice(bytes, ub, run.first, run.count, d);
    RowsFit(got, ub, run.count, d);
    SliceOfConcat(front, got, d * ub, ub);
  }

  lemma FetchRunHolds(read: UnitReader, run: UnitRun, ub: nat, s: Scratch, bytes: seq<Byte>)
    requires ServesUnits(read, bytes, ub) && Holds(s, bytes, ub) && run.count >= 1
    requires HasRows(bytes, ub, Span(run.first, run.count))
    ensures FetchRun(read, run, ub, s).Ok? && Holds(FetchRun(read, run, ub, s).value, bytes, ub)
    ensures forall u :: u in FetchRun(read, run, ub, s).value.at <==>
        u in s.at || run.first <= u < run.first + run.count
  {
    RunInRange(run, bytes, ub);
    assert read(run.first, run.count) == Ok(bytes[run.first * ub..run.first * ub + run.count * ub]);
    var t := FetchRun(read, run, ub, s).value;
    IndexedUnits(s.at, run, |s.bytes|, ub, run.count);
    forall u | u in t.at ensures HasRow(bytes, ub, u) && t.bytes[t.at[u]..t.at[u] + ub] == Row(bytes, ub, u) {
      FetchedHolds(run, ub, s, bytes, u);
    }
  }

  lemma {:induction false} FetchRunsHold(read: UnitReader, runs: seq<UnitRun>, ub: nat, s: Scratch, bytes: seq<Byte>)
    requires ServesUnits(read, bytes, ub) && Holds(s, bytes, ub)
    requires forall i :: 0 <= i < |runs| ==>
        runs[i].count >= 1 && HasRows(bytes, ub, Span(runs[i].first, runs[i].count))
    ensures FetchRuns(read, runs, ub, s).Ok? && Holds(FetchRuns(read, runs, ub, s).value, bytes, ub)
    ensures forall u :: u in s.at ==> u in FetchRuns(read, runs, ub, s).value.at
    ensures forall i, u :: 0 <= i < |runs| && runs[i].first <= u < runs[i].first + runs[i].count ==>
        u in FetchRuns(read, runs, ub, s).value.at
  {
    if runs != [] {
      FetchRunHolds(read, runs[0], ub, s, bytes);
      var t := FetchRun(read, runs[0], ub, s).value;
      FetchRunsHold(read, runs[1..], ub, t, bytes);
      forall i, u | 0 <= i < |runs| && runs[i].first <= u < runs[i].first + runs[i].count
        ensures u in FetchRuns(read, runs, ub, s).value.at
      {
        if i > 0 {
          assert runs[1..][i - 1] == runs[i];
        }
      }
    }
  }

  lemma {:induction false} CollectIsGather(s: Scratch, units: seq<int>, ub: nat, bytes: seq<Byte>, done: seq<int>)
    requires Holds(s, bytes, ub) && HasRows(bytes, ub, done) && forall i :: 0 <= i < |units| ==> units[i] in s.at
    ensures HasRows(bytes, ub, done + units)
    ensures Collect(s, units, ub, PermuteUnits(bytes, done, ub)) == Ok(PermuteUnits(bytes, done + units, ub))
  {
    if units == [] {
      assert done + units == done;
    } else {
      var more := done + [units[0]];
      assert more[..|more| - 1] == done;
      assert more + units[1..] == done + units;
      CollectIsGather(s, units[1..], ub, bytes, more);
    }
  }

  /** A unit is spelled by the runs iff it lies in one of them. */
  lemma {:induction false} RunOfUnit(runs: seq<UnitRun>, u: int)
    ensures u in Flatten(runs) <==> exists i :: 0 <= i < |runs| && runs[i].first <= u < runs[i].first + runs[i].count
  {
    if runs != [] {
      var n := |runs| - 1;
      var last := runs[n];
      RunOfUnit(runs[..n], u);
      assert u in Span(last.first, last.count) <==> last.first <= u < last.first + last.count by {
        if last.first <= u < last.first + last.count {
          assert Span(last.first, last.count)[u - last.first] == u;
        }
      }
      if i :| 0 <= i < n && runs[i].first <= u < runs[i].first + runs[i].count {
        assert runs[..n][i] == runs[i];
      }
    }
  }

  lemma DependenciesAre(perm: seq<int>, first: nat, count: nat, u: int)
    requires first + count <= |perm|
    ensures u in Flatten(DependencyRuns(perm, first, count)) <==> u in perm[first..first + count]
  {
    var slice := perm[first..first + count];
    RunsSpell(Sort(slice));
    assert u in Sort(slice) <==> u in multiset(Sort(slice));
  }

  lemma DependencyRow(bytes: seq<Byte>, perm: seq<int>, first: nat, count: nat, ub: nat, i: nat)
    requires first + count <= |perm| && HasRows(bytes, ub, perm[first..first + count])
        && i < |DependencyRuns(perm, first, count)|
    ensures
      var run := DependencyRuns(perm, first, count)[i];
      run.count >= 1 && HasRows(bytes, ub, Span(run.first, run.count))
  {
    hide HasRow;
    RunsSpell(Sort(perm[first..first + count]));
    var run := DependencyRuns(perm, first, count)[i];
    var units := Span(run.first, run.count);
    forall k | 0 <= k < |units| ensures HasRow(bytes, ub, units[k]) {
      RunOfUnit(DependencyRuns(perm, first, count), units[k]);
      DependenciesAre(perm, first, count, units[k]);
    }
  }

  /** Gathering through sorted, coalesced runs and a scratch map gives out[i] = base[perm[i]]. */
  lemma GatherIsDirect(read: UnitReader, bytes: seq<Byte>, perm: seq<int>, first: nat, count: nat, ub: nat)
    requires ServesUnits(read, bytes, ub) && first + count <= |perm| && HasRows(bytes, ub, perm[first..first + count])
    ensures GatherThroughRuns(read, perm, first, count, ub) == Ok(PermuteUnits(bytes, perm[first..first + count], ub))
  {
    hide HasRow, HasRows, ServesUnits;
    var slice := perm[first..first + count];
    var runs := DependencyRuns(perm, first, count);
    forall i | 0 <= i < |runs| ensures runs[i].count >= 1 && HasRows(bytes, ub, Span(runs[i].first, runs[i].count)) {
      DependencyRow(bytes, perm, first, count, ub, i);
    }
    var s0 := Scratch([], map[]);
    FetchRunsHold(read, runs, ub, s0, bytes);
    var s := FetchRuns(read, runs, ub, s0).value;
    forall k | 0 <= k < |slice| ensures slice[k] in s.at {
      DependenciesAre(perm, first, count, slice[k]);
      RunOfUnit(runs, slice[k]);
    }
    NoRows(bytes, ub);
    hide Collect, PermuteUnits, FetchRuns;
    CollectIsGather(s, slice, ub, bytes, []);
    assert [] + slice == slice;
    GatherUnfold(read, perm, first, count, ub);
  }

  lemma NoRows(bytes: seq<Byte>, ub: nat)
    ensures HasRows(bytes, ub, []) && PermuteUnits(bytes, [], ub) == []
  {}

  lemma GatherUnfold(read: UnitReader, perm: seq<int>, first: nat, count: nat, ub: nat)
    requires first + count <= |perm|
    ensures var s := FetchRuns(read, DependencyRuns(perm, first, count), ub, Scratch([], map[]));
      GatherThroughRuns(read, perm, first, count, ub) ==
        if s.Err? then Err(s.error) else Collect(s.value, perm[first..first + count], ub, [])
  {}

  /** The gather only depends on what its reader returns. */
  lemma {:induction false} FetchSame(a: UnitReader, b: UnitReader, runs: seq<UnitRun>, ub: nat, s: Scratch)
    requires ValidScratch(s, ub) && forall first, count :: a(first, count) == b(first, count)
    ensures FetchRuns(a, runs, ub, s) == FetchRuns(b, runs, ub, s)
  {
    if runs != [] && FetchRun(a, runs[0], ub, s).Ok? {
      FetchSame(a, b, runs[1..], ub, FetchRun(a, runs[0], ub, s).value);
    }
  }
}
