/** The sparse matching path: auction, exact repair of what the auction left over, and extraction of a permutation
    (modules/align/src/sparse_match.cpp). */
module SparseMatch {
  import opened Common
  import opened Arith
  import opened Counting
  import opened LsapSpec
  import opened Lsap
  import opened Lap
  import opened Permutations
  import opened Auction

  datatype NullRepair = NullRepair(repaired: nat, cost: real)

  /** No object is claimed twice. */
  ghost predicate PartialMatching(a: seq<int>, n: nat) {
    && |a| == n && (forall i :: 0 <= i < n ==> a[i] < n)
    && (forall i, j :: 0 <= i < j < n && 0 <= a[i] ==> a[i] != a[j])
  }

  ghost function Free(a: seq<int>): (f: seq<bool>) {
    seq(|a|, i requires 0 <= i < |a| => a[i] < 0)
  }

  ghost function Unclaimed(a: seq<int>, n: nat): (f: seq<bool>) {
    seq(n, j requires 0 <= j < n => j !in a)
  }

  lemma MarkedPrefix(f: seq<bool>, i: nat)
    requires i < |f|
    ensures Marked(f[..i + 1]) == Marked(f[..i]) + (if f[i] then [i] else [])
  {
    assert f[..i + 1][..i] == f[..i];
  }

  lemma {:induction false} MarkedComplement(f: seq<bool>, g: seq<bool>)
    requires |f| == |g| && forall i :: 0 <= i < |f| ==> g[i] == !f[i]
    ensures |Marked(f)| + |Marked(g)| == |f|
  {
    if f != [] {
      var n := |f| - 1;
      MarkedComplement(f[..n], g[..n]);
      assert |Marked(f)| == |Marked(f[..n])| + (if f[n] then 1 else 0);
      assert |Marked(g)| == |Marked(g[..n])| + (if g[n] then 1 else 0);
    }
  }

  ghost function Holders(a: seq<int>): (f: seq<bool>) {
    seq(|a|, i requires 0 <= i < |a| => a[i] >= 0)
  }

  ghost function Claimed(a: seq<int>, n: nat): (f: seq<bool>) {
    seq(n, j requires 0 <= j < n => j in a)
  }

  lemma HeldAreClaimed(a: seq<int>, n: nat)
    requires PartialMatching(a, n)
    ensures |Marked(Holders(a))| <= |Marked(Claimed(a, n))|
  {
    var h, c := Marked(Holders(a)), Marked(Claimed(a, n));
    HoldersHold(a, n);
    hide Marked, Holders, Claimed;
    var held := seq(|h|, t requires 0 <= t < |h| => a[h[t]]);
    forall s, t | 0 <= s < t < |h| ensures held[s] != held[t] {
      HoldersDiffer(a, n, h[s], h[t]);
    }
    forall t | 0 <= t < |h| ensures held[t] in c {
      HeldIsClaimed(a, n, h[t]);
    }
    DistinctInto(held, Elements(c));
  }

  /** The holders are listed once each, and hold something. */
  lemma HoldersHold(a: seq<int>, n: nat)
    requires PartialMatching(a, n)
    ensures Distinct(Marked(Holders(a)))
    ensures forall t :: 0 <= t < |Marked(Holders(a))| ==>
              0 <= Marked(Holders(a))[t] < n && a[Marked(Holders(a))[t]] >= 0
  {
    var h := Marked(Holders(a));
    forall t | 0 <= t < |h| ensures 0 <= h[t] < n && a[h[t]] >= 0 {
      assert h[t] in h;
    }
  }

  lemma HoldersDiffer(a: seq<int>, n: nat, i: int, j: int)
    requires PartialMatching(a, n) && 0 <= i < n && 0 <= j < n && i != j && a[i] >= 0 && a[j] >= 0
    ensures a[i] != a[j]
  {}

  lemma HeldIsClaimed(a: seq<int>, n: nat, i: int)
    requires PartialMatching(a, n) && 0 <= i < n && a[i] >= 0
    ensures a[i] in Marked(Claimed(a, n))
  {
    assert Claimed(a, n)[a[i]];
  }

  lemma ClaimedAreHeld(a: seq<int>, n: nat)
    requires |a| == n
    ensures |Marked(Claimed(a, n))| <= |Marked(Holders(a))|
  {
    var h, c := Marked(Holders(a)), Marked(Claimed(a, n));
    var users := seq(|c|, t requires 0 <= t < |c| => Claimant(a, n, c[t]));
    forall t | 0 <= t < |c| ensures c[t] in a && users[t] in h {
      assert c[t] in c;
    }
    DistinctInto(users, Elements(h));
  }

  ghost function Claimant(a: seq<int>, n: nat, j: int): (i: int)
    requires |a| == n
    ensures j in a ==> 0 <= i < n && a[i] == j
  {
    if j in a then (var i :| 0 <= i < n && a[i] == j; i) else 0
  }

  /** A partial matching leaves as many bidders as objects. */
  lemma LeftoversBalance(a: seq<int>, n: nat)
    requires PartialMatching(a, n)
    ensures |Marked(Free(a))| == |Marked(Unclaimed(a, n))|
  {
    MarkedComplement(Free(a), Holders(a));
    MarkedComplement(Unclaimed(a, n), Claimed(a, n));
    HeldAreClaimed(a, n);
    ClaimedAreHeld(a, n);
  }

  /** Filling the free bidders with the unclaimed objects, one each, completes the matching. */
  lemma RepairCompletes(a: seq<int>, a': seq<int>, n: nat, bidders: seq<int>, objects: seq<int>, lap: seq<int>)
    requires PartialMatching(a, n) && |a'| == n
    requires bidders == Marked(Free(a)) && objects == Marked(Unclaimed(a, n))
    requires |bidders| == |objects| && IsPermutation(lap, |bidders|)
    requires forall i :: 0 <= i < n && a[i] >= 0 ==> a'[i] == a[i]
    requires forall t :: 0 <= t < |bidders| ==> a'[bidders[t]] == objects[lap[t]]
    ensures IsPermutation(a', n)
  {
    LeftoversOnce(a, n);
    hide Marked, Free, Unclaimed, SlotOf;
    var at := seq(n, i requires 0 <= i < n => SlotOf(bidders, i));
    forall i | 0 <= i < n && a[i] < 0
      ensures 0 <= at[i] < |bidders| && bidders[at[i]] == i && a'[i] == objects[lap[at[i]]]
      ensures 0 <= a'[i] < n && a'[i] !in a
    {
      FreeIsListed(a, i);
      UnclaimedIsFree(a, n, objects, lap[at[i]]);
    }
    FilledIsInjective(a, a', n, bidders, objects, lap, at);
  }

  /** The leftovers are listed once each. */
  lemma LeftoversOnce(a: seq<int>, n: nat)
    requires |a| == n
    ensures Distinct(Marked(Free(a))) && InRange(Marked(Free(a)), n) && Distinct(Marked(Unclaimed(a, n)))
  {}

  lemma FreeIsListed(a: seq<int>, i: int)
    requires 0 <= i < |a| && a[i] < 0
    ensures i in Marked(Free(a))
  {
    assert Free(a)[i];
  }

  lemma UnclaimedIsFree(a: seq<int>, n: nat, objects: seq<int>, t: int)
    requires objects == Marked(Unclaimed(a, n)) && 0 <= t < |objects|
    ensures 0 <= objects[t] < n && objects[t] !in a
  {
    assert objects[t] in objects;
  }

  lemma FilledIsInjective(a: seq<int>, a': seq<int>, n: nat, bidders: seq<int>, objects: seq<int>, lap: seq<int>,
      at: seq<int>)
    requires PartialMatching(a, n) && |a'| == n == |at|
    requires |bidders| == |objects| && Distinct(objects) && IsPermutation(lap, |bidders|)
    requires forall i :: 0 <= i < n && a[i] >= 0 ==> a'[i] == a[i]
    requires forall i {:trigger at[i]} :: 0 <= i < n && a[i] < 0 ==>
               0 <= at[i] < |bidders| && bidders[at[i]] == i && a'[i] == objects[lap[at[i]]] && a'[i] !in a
    ensures Distinct(a')
  {
    forall i, j | 0 <= i < j < n ensures a'[i] != a'[j] {
      var x, y := at[i], at[j];
      if a[i] < 0 && a[j] < 0 {
        assert x != y;
        assert lap[x] != lap[y];
      } else if a[i] < 0 {
        assert a[j] in a;
      } else if a[j] < 0 {
        assert a[i] in a;
      }
    }
  }

  ghost function SlotOf(s: seq<int>, x: int): (t: int)
    ensures x in s ==> 0 <= t < |s| && s[t] == x
  {
    if x in s then (var t :| 0 <= t < |s| && s[t] == x; t) else 0
  }

  lemma MarkedNone(f: seq<bool>)
    ensures Marked(f[..0]) == []
  {}

  method FreeBidders(n: nat, assign: array<int>) returns (bidders: seq<int>, isTaken: array<bool>)
    requires assign.Length == n && forall i :: 0 <= i < n ==> assign[i] < n
    ensures bidders == Marked(Free(assign[..]))
    ensures fresh(isTaken) && isTaken.Length == n && forall j :: 0 <= j < n ==> (isTaken[j] <==> j in assign[..])
  {
    ghost var a := assign[..];
    hide Marked;
    bidders := [];
    isTaken := new bool[n](_ => false);
    MarkedNone(Free(a));
    var i := 0;
    while i < n
      invariant 0 <= i <= n && bidders == Marked(Free(a)[..i])
      invariant forall j :: 0 <= j < n ==> (isTaken[j] <==> j in a[..i])
    {
      MarkedPrefix(Free(a), i);
      assert a[..i + 1] == a[..i] + [a[i]];
      if assign[i] < 0 {
        bidders := bidders + [i];
      } else {
        isTaken[assign[i]] := true;
      }
      i := i + 1;
    }
    assert Free(a)[..n] == Free(a) && a[..n] == a;
  }

  method FreeObjects(n: nat, isTaken: array<bool>, ghost a: seq<int>) returns (objects: seq<int>)
    requires isTaken.Length == n && forall j :: 0 <= j < n ==> (isTaken[j] <==> j in a)
    ensures objects == Marked(Unclaimed(a, n))
  {
    ghost var f := Unclaimed(a, n);
    objects := [];
    var j := 0;
    while j < n
      invariant 0 <= j <= n && objects == Marked(f[..j])
    {
      MarkedPrefix(f, j);
      if !isTaken[j] {
        objects := objects + [j];
      }
      j := j + 1;
    }
    assert f[..n] == f;
  }

  method Patch(n: nat, assign: array<int>, bidders: seq<int>, objects: seq<int>, lap: seq<int>)
    requires assign.Length == n && Distinct(bidders) && InRange(bidders, n)
    requires |bidders| == |objects| && IsPermutation(lap, |bidders|)
    modifies assign
    ensures forall i :: 0 <= i < n && i !in bidders ==> assign[i] == old(assign[i])
    ensures forall t :: 0 <= t < |bidders| ==> assign[bidders[t]] == objects[lap[t]]
  {
    var i := 0;
    while i < |bidders|
      invariant 0 <= i <= |bidders|
      invariant forall x :: 0 <= x < n && x !in bidders ==> assign[x] == old(assign[x])
      invariant forall t :: 0 <= t < i ==> assign[bidders[t]] == objects[lap[t]]
    {
      assign[bidders[i]] := objects[lap[i]];
      i := i + 1;
    }
  }

  /** The leftover cost block, row-major. */
  function SubCosts(cost: (int, int) -> real, bidders: seq<int>, objects: seq<int>): (c: seq<Cost>)
    requires |bidders| == |objects|
    ensures |c| == |bidders| * |bidders|
    ensures forall t :: 0 <= t < |c| ==> c[t].Num?
  {
    var nb := |bidders|;
    seq(nb * nb, t requires 0 <= t < nb * nb =>
      BlockIndex(nb, nb, t); Num(cost(bidders[t / nb], objects[t % nb])))
  }

  lemma FiniteSquareIsFeasible(c: seq<Cost>, n: nat)
    requires |c| == n * n && forall t :: 0 <= t < |c| ==> c[t].Num?
    ensures exists q :: Saturating(n, n, q) && FiniteOn(Rows(c, n, n), n, n, q)
  {
    var q := PermPairs(seq(n, i requires 0 <= i < n => i));
    forall t | 0 <= t < n ensures Rows(c, n, n)[t][t].Num? {
      SlotInRange(n, n, t, t);
    }
    assert Saturating(n, n, q) && FiniteOn(Rows(c, n, n), n, n, q);
  }

  /** No complete assignment of the block costs less than `total`, and some costs that much. */
  ghost predicate Cheapest(c: seq<Cost>, n: nat, total: real) {
    && |c| == n * n
    && (exists q :: Saturating(n, n, q) && FiniteOn(Rows(c, n, n), n, n, q) && Total(Rows(c, n, n), n, n, q) == total)
    && (forall q :: Saturating(n, n, q) && FiniteOn(Rows(c, n, n), n, n, q) ==> total <= Total(Rows(c, n, n), n, n, q))
  }

  /** What the bidders in `who` pay under the assignment `a`. */
  ghost function CostOver(cost: (int, int) -> real, a: seq<int>, who: seq<int>): real
    requires InRange(who, |a|)
  {
    if who == [] then 0.0 else cost(who[0], a[who[0]]) + CostOver(cost, a, who[1..])
  }

  /** A bijection in which everyone keeps what they held. */
  ghost predicate Completes(a: seq<int>, full: seq<int>, n: nat) {
    |a| == n && IsPermutation(full, n) && forall i :: 0 <= i < n && a[i] >= 0 ==> full[i] == a[i]
  }

  lemma SubCell(cost: (int, int) -> real, bidders: seq<int>, objects: seq<int>, i: nat, j: nat)
    requires |bidders| == |objects| && i < |bidders| && j < |bidders|
    ensures Rows(SubCosts(cost, bidders, objects), |bidders|, |bidders|)[i][j] == Num(cost(bidders[i], objects[j]))
  {
    var nb := |bidders|;
    SlotInRange(nb, nb, i, j);
    DivUnique(i, j, nb);
  }

  lemma {:induction false} TotalIsCost(c: Grid, nb: nat, q: seq<Pair>, cost: (int, int) -> real, a: seq<int>,
      who: seq<int>)
    requires Rect(c, nb, nb) && FiniteOn(c, nb, nb, q) && InRange(who, |a|) && |q| == |who|
    requires forall t :: 0 <= t < |q| ==> c[q[t].row][q[t].col] == Num(cost(who[t], a[who[t]]))
    ensures Total(c, nb, nb, q) == CostOver(cost, a, who)
  {
    if q != [] {
      TotalIsCost(c, nb, q[1..], cost, a, who[1..]);
    }
  }

  /** A completion read as an assignment of the leftover block. */
  ghost function BlockPairs(full: seq<int>, bidders: seq<int>, objects: seq<int>): (q: seq<Pair>)
    requires InRange(bidders, |full|)
    ensures |q| == |bidders|
  {
    seq(|bidders|, t requires 0 <= t < |bidders| => Pair(t, SlotOf(objects, full[bidders[t]])))
  }

  lemma TakesUnclaimed(a: seq<int>, full: seq<int>, n: nat, b: int)
    requires Completes(a, full, n) && 0 <= b < n && a[b] < 0
    ensures full[b] in Marked(Unclaimed(a, n))
  {
    forall j | 0 <= j < n ensures a[j] != full[b] {
      if a[j] >= 0 {
        assert full[j] == a[j] && j != b;
      }
    }
    assert Unclaimed(a, n)[full[b]];
  }

  /** Slot of the object that bidder t of the leftovers takes. */
  lemma TakenSlot(a: seq<int>, full: seq<int>, n: nat, bidders: seq<int>, objects: seq<int>, t: nat)
    requires Completes(a, full, n) && bidders == Marked(Free(a)) && objects == Marked(Unclaimed(a, n)) && t < |bidders|
    ensures 0 <= bidders[t] < |full|
    ensures 0 <= SlotOf(objects, full[bidders[t]]) < |objects|
        && objects[SlotOf(objects, full[bidders[t]])] == full[bidders[t]]
  {
    hide Unclaimed, Marked, Free;
    FreeIsFree(a, bidders, t);
    TakesUnclaimed(a, full, n, bidders[t]);
  }

  lemma PairsSaturate(full: seq<int>, bidders: seq<int>, objects: seq<int>)
    requires Distinct(full) && Distinct(bidders) && InRange(bidders, |full|) && |bidders| == |objects|
    requires forall t :: 0 <= t < |bidders| ==>
      0 <= SlotOf(objects, full[bidders[t]]) < |objects|
          && objects[SlotOf(objects, full[bidders[t]])] == full[bidders[t]]
    ensures Saturating(|bidders|, |bidders|, BlockPairs(full, bidders, objects))
  {
    var q := BlockPairs(full, bidders, objects);
    forall s, t | 0 <= s < t < |q| ensures ColsOf(q)[s] != ColsOf(q)[t] {
      assert bidders[s] != bidders[t];
      assert full[bidders[s]] != full[bidders[t]];
    }
  }

  lemma CompletionPairs(a: seq<int>, full: seq<int>, n: nat, bidders: seq<int>, objects: seq<int>)
    requires Completes(a, full, n) && bidders == Marked(Free(a)) && objects == Marked(Unclaimed(a, n))
        && |bidders| == |objects|
    ensures InRange(bidders, |full|) && Saturating(|bidders|, |bidders|, BlockPairs(full, bidders, objects))
    ensures forall t :: 0 <= t < |bidders| ==>
      0 <= SlotOf(objects, full[bidders[t]]) < |objects|
          && objects[SlotOf(objects, full[bidders[t]])] == full[bidders[t]]
  {
    assert Distinct(bidders) && InRange(bidders, |full|);
    hide Free, Unclaimed, Marked, Distinct, SlotOf, Saturating;
    forall t | 0 <= t < |bidders|
      ensures 0 <= SlotOf(objects, full[bidders[t]]) < |objects|
          && objects[SlotOf(objects, full[bidders[t]])] == full[bidders[t]]
    {
      TakenSlot(a, full, n, bidders, objects, t);
    }
    PairsSaturate(full, bidders, objects);
  }

  lemma FreeIsFree(a: seq<int>, bidders: seq<int>, t: nat)
    requires bidders == Marked(Free(a)) && t < |bidders|
    ensures 0 <= bidders[t] < |a| && a[bidders[t]] < 0
  {
    assert bidders[t] in bidders;
  }

  /** Every completion is one assignment of the leftover block, at the same cost. */
  lemma CompletionCost(cost: (int, int) -> real, a: seq<int>, full: seq<int>, n: nat, bidders: seq<int>,
      objects: seq<int>)
    requires Completes(a, full, n) && bidders == Marked(Free(a)) && objects == Marked(Unclaimed(a, n))
        && |bidders| == |objects|
    ensures var q, c := BlockPairs(full, bidders, objects),
        Rows(SubCosts(cost, bidders, objects), |bidders|, |bidders|);
      && Saturating(|bidders|, |bidders|, q) && FiniteOn(c, |bidders|, |bidders|, q)
      && Total(c, |bidders|, |bidders|, q) == CostOver(cost, full, bidders)
  {
    CompletionPairs(a, full, n, bidders, objects);
    hide Free, Unclaimed, Marked, SubCosts, Rows, Total, CostOver, Completes, IsPermutation, Distinct;
    var q, nb := BlockPairs(full, bidders, objects), |bidders|;
    var c := Rows(SubCosts(cost, bidders, objects), nb, nb);
    forall t | 0 <= t < nb ensures c[q[t].row][q[t].col] == Num(cost(bidders[t], full[bidders[t]])) {
      SubCell(cost, bidders, objects, t, q[t].col);
    }
    TotalIsCost(c, nb, q, cost, full, bidders);
  }

  /** The least cost over the leftover block is the least over all completions. */
  lemma CheapestCompletion(cost: (int, int) -> real, a: seq<int>, n: nat, bidders: seq<int>, objects: seq<int>,
      total: real)
    requires PartialMatching(a, n) && bidders == Marked(Free(a)) && objects == Marked(Unclaimed(a, n))
        && |bidders| == |objects|
    requires Cheapest(SubCosts(cost, bidders, objects), |bidders|, total)
    ensures forall full :: Completes(a, full, n) ==> total <= CostOver(cost, full, bidders)
  {
    forall full | Completes(a, full, n) ensures total <= CostOver(cost, full, bidders) {
      CompletionCost(cost, a, full, n, bidders, objects);
    }
  }

  /** The patched bidders pay what the solver reported. */
  lemma PatchedCost(cost: (int, int) -> real, full: seq<int>, bidders: seq<int>, objects: seq<int>, lap: seq<int>)
    requires InRange(bidders, |full|) && |bidders| == |objects| && IsPermutation(lap, |bidders|)
    requires forall t :: 0 <= t < |bidders| ==> full[bidders[t]] == objects[lap[t]]
    ensures var q, c := PermPairs(lap), Rows(SubCosts(cost, bidders, objects), |bidders|, |bidders|);
      FiniteOn(c, |bidders|, |bidders|, q) && Total(c, |bidders|, |bidders|, q) == CostOver(cost, full, bidders)
  {
    hide SubCosts, Rows, Total, CostOver, Distinct;
    var q, nb := PermPairs(lap), |bidders|;
    var c := Rows(SubCosts(cost, bidders, objects), nb, nb);
    forall t | 0 <= t < nb ensures c[q[t].row][q[t].col] == Num(cost(bidders[t], full[bidders[t]])) {
      SubCell(cost, bidders, objects, t, lap[t]);
    }
    TotalIsCost(c, nb, q, cost, full, bidders);
  }

  /** Whatever partial matching comes in, a bijection comes out: held objects are kept, and the rest is completed at
      minimum cost. In particular no error is ever returned. */
  method SparseNullRepair(n: nat, assign: array<int>, cost: (int, int) -> real) returns (r: Result<NullRepair>)
    requires assign.Length == n && PartialMatching(assign[..], n)
    modifies assign
    ensures r.Ok? && IsPermutation(assign[..], n)
    ensures forall i :: 0 <= i < n && old(assign[i]) >= 0 ==> assign[i] == old(assign[i])
    ensures r.value.repaired == |Marked(Free(old(assign[..])))| == |Marked(Unclaimed(old(assign[..]), n))|
    ensures r.value.repaired > 0 ==>
              var csub := SubCosts(cost, Marked(Free(old(assign[..]))), Marked(Unclaimed(old(assign[..]), n)));
              Cheapest(csub, r.value.repaired, r.value.cost)
    ensures Completes(old(assign[..]), assign[..], n)
        && r.value.cost == CostOver(cost, assign[..], Marked(Free(old(assign[..]))))
    ensures forall full :: Completes(old(assign[..]), full, n) ==>
        r.value.cost <= CostOver(cost, full, Marked(Free(old(assign[..]))))
  {
    hide Free, Unclaimed, Marked, Cheapest, Completes, CostOver, Optimal, Total, Saturating, FiniteOn, Rows;
    ghost var a := assign[..];
    LeftoversBalance(a, n);
    var bidders, isTaken := FreeBidders(n, assign);
    if bidders == [] {
      NothingLeft(cost, a, n);
      return Ok(NullRepair(0, 0.0));
    }
    var objects := FreeObjects(n, isTaken, a);
    r := Err(Internal);
    if |objects| == |bidders| {
      var nb := |bidders|;
      var csub := SubCosts(cost, bidders, objects);
      FiniteSquareIsFeasible(csub, nb);
      var lap := SolveJv(csub, nb);
      if lap.Ok? {
        hide SubCosts;
        LeftoversOnce(a, n);
        Patch(n, assign, bidders, objects, lap.value.assignment);
        RepairDone(cost, a, assign[..], n, bidders, objects, lap.value.assignment, lap.value.costRaw);
        assert forall i :: 0 <= i < n && a[i] >= 0 ==> assign[i] == assign[..][i] == a[i];
        r := Ok(NullRepair(nb, lap.value.costRaw));
      }
    }
  }

  lemma NothingLeft(cost: (int, int) -> real, a: seq<int>, n: nat)
    requires PartialMatching(a, n) && Marked(Free(a)) == []
    ensures IsPermutation(a, n) && Completes(a, a, n) && forall full :: Completes(a, full, n) ==>
        InRange([], |full|) && CostOver(cost, full, []) == 0.0
    ensures CostOver(cost, a, []) == 0.0
  {
    LeftoversBalance(a, n);
    RepairCompletes(a, a, n, [], [], []);
  }

  /** The optimal permutation of the leftover block, patched in. */
  lemma RepairDone(cost: (int, int) -> real, a: seq<int>, full: seq<int>, n: nat, bidders: seq<int>,
      objects: seq<int>, lap: seq<int>, total: real)
    requires PartialMatching(a, n) && |full| == n && bidders == Marked(Free(a)) && objects == Marked(Unclaimed(a, n))
    requires |bidders| == |objects| && IsPermutation(lap, |bidders|)
    requires Optimal(Rows(SubCosts(cost, bidders, objects), |bidders|, |bidders|), |bidders|, |bidders|, PermPairs(lap))
    requires total == Total(Rows(SubCosts(cost, bidders, objects), |bidders|, |bidders|), |bidders|, |bidders|,
        PermPairs(lap))
    requires forall i :: 0 <= i < n && i !in bidders ==> full[i] == a[i]
    requires InRange(bidders, n) && forall t :: 0 <= t < |bidders| ==> full[bidders[t]] == objects[lap[t]]
    ensures forall i :: 0 <= i < n && a[i] >= 0 ==> full[i] == a[i]
    ensures IsPermutation(full, n) && Completes(a, full, n)
        && Cheapest(SubCosts(cost, bidders, objects), |bidders|, total)
    ensures total == CostOver(cost, full, bidders)
    ensures forall other :: Completes(a, other, n) ==> total <= CostOver(cost, other, bidders)
  {
    hide Free, Unclaimed, Marked, SubCosts, CostOver, Rows, Total, Saturating, FiniteOn, PermPairs;
    HeldIsKept(a, full, n, bidders);
    RepairCompletes(a, full, n, bidders, objects, lap);
    CheapestCompletion(cost, a, n, bidders, objects, total);
    PatchedCost(cost, full, bidders, objects, lap);
  }

  lemma HeldIsKept(a: seq<int>, full: seq<int>, n: nat, bidders: seq<int>)
    requires |a| == |full| == n && bidders == Marked(Free(a)) && forall i :: 0 <= i < n && i !in bidders ==>
        full[i] == a[i]
    ensures forall i :: 0 <= i < n && a[i] >= 0 ==> full[i] == a[i]
  {}

  // ---------------------------------------------------------------- composition

  /** One candidate graph handed to the auction; later attempts are wider. */
  datatype Attempt = Attempt(ci: seq<seq<int>>, cand: seq<seq<int>>, K: nat)

  ghost predicate ValidAttempt(t: Attempt, n: nat) {
    && |t.ci| == n && (forall i :: 0 <= i < n ==> |t.ci[i]| == t.K)
    && Market(n, t.K, Benefits(t.ci), t.cand).Valid()
  }

  lemma AuctionGivesMatching(m: Market, eps: int, s: Book)
    requires m.Valid() && Inv(m, eps, s)
    ensures PartialMatching(s.a, m.n)
  {
    forall i, j | 0 <= i < j < m.n && 0 <= s.a[i] ensures s.a[i] != s.a[j] {
      assert s.o[s.a[i]] == i;
    }
  }

  method CountFree(a: seq<int>) returns (c: nat)
    ensures c == |Marked(Free(a))|
  {
    c := 0;
    for i := 0 to |a|
      invariant c == |Marked(Free(a)[..i])|
    {
      MarkedPrefix(Free(a), i);
      if a[i] < 0 { c := c + 1; }
    }
    assert Free(a)[..|a|] == Free(a);
  }

  /** What the auction leaves for one attempt: slackness within one unit, and when costs are not negative and the
      guard lies above the bound on rounds, nobody is without an object but those that prefer none. */
  ghost predicate Auctioned(x: Attempt, n: nat, bidGuard: int, book: Book) {
    && ValidAttempt(x, n)
    && var m := Market(n, x.K, Benefits(x.ci), x.cand);
       && Inv(m, 1, book)
       && (m.NonNegativeCosts() ==>
           forall bound :: EntriesAtMost(x.ci, bound) && bidGuard > RoundBound(n, bound) ==> NoneUnassigned(book.un))
  }

  /** The share of bidders without an object is within the rate. */
  ghost predicate FewFree(a: seq<int>, n: nat, rate: real) {
    |Marked(Free(a))| as real / Max(n, 1) as real <= rate
  }

  /** Attempt t is the first to leave few enough bidders, or else the last. */
  ghost predicate Settles(n: nat, attempts: seq<Attempt>, bidGuard: int, rate: real, t: nat, books: seq<Book>) {
    && t < |attempts| && |books| == t + 1
    && (forall s :: 0 <= s <= t ==> Auctioned(attempts[s], n, bidGuard, books[s]))
    && (forall s :: 0 <= s < t ==> !FewFree(books[s].a, n, rate))
    && (t == |attempts| - 1 || FewFree(books[t].a, n, rate))
  }

  /** The completion keeps what everyone held, and no other costs the free bidders less. */
  ghost predicate BestCompletion(cost: (int, int) -> real, a: seq<int>, full: seq<int>, n: nat) {
    && Completes(a, full, n) && InRange(Marked(Free(a)), n)
    && forall other :: Completes(a, other, n) ==>
        CostOver(cost, full, Marked(Free(a))) <= CostOver(cost, other, Marked(Free(a)))
  }

  /** Auction, widening while too many bidders stay unassigned, then repair, then the final check: the result is the
      cheapest completion of what the settling auction assigned, so neither error is reachable. */
  method MatchGroupSparse(n: nat, attempts: seq<Attempt>, epsShrink: real, bidGuard: int, widenOnNullRate: real,
      cost: (int, int) -> real)
    returns (r: Result<seq<int>>, ghost t: nat, ghost books: seq<Book>)
    requires attempts != [] && forall t :: 0 <= t < |attempts| ==> Shrinks(attempts[t].ci, epsShrink)
    requires forall t :: 0 <= t < |attempts| ==> ValidAttempt(attempts[t], n)
    ensures r.Ok? && IsPermutation(r.value, n)
    ensures Settles(n, attempts, bidGuard, widenOnNullRate, t, books)
    ensures BestCompletion(cost, books[t].a, r.value, n)
  {
    hide Free, Unclaimed, Marked, Cheapest, Completes, CostOver, ValidAttempt, Auctioned, FewFree;
    var a;
    a, t, books := AuctionAttempts(n, attempts, epsShrink, bidGuard, widenOnNullRate);
    var assign := new int[n](i requires 0 <= i < n => if i < |a| then a[i] else -1);
    assert assign[..] == a;
    LeftoversOnce(a, n);
    var repair := SparseNullRepair(n, assign, cost);
    var ok := IsValidPermutation(assign[..], n);
    r := if ok then Ok(assign[..]) else Err(InvalidPermutation);
  }

  /** Widen the candidate lists until few enough bidders are left without an object. */
  method AuctionAttempts(n: nat, attempts: seq<Attempt>, epsShrink: real, bidGuard: int, widenOnNullRate: real)
      returns (a: seq<int>, ghost t: nat, ghost books: seq<Book>)
    requires attempts != [] && forall t :: 0 <= t < |attempts| ==> Shrinks(attempts[t].ci, epsShrink)
    requires forall t :: 0 <= t < |attempts| ==> ValidAttempt(attempts[t], n)
    ensures PartialMatching(a, n)
    ensures Settles(n, attempts, bidGuard, widenOnNullRate, t, books) && a == books[t].a
  {
    hide PartialMatching, ValidAttempt, Auctioned, Free, Marked;
    ghost var book;
    a, book := OneAttempt(n, attempts[0], epsShrink, bidGuard);
    books := [book];
    var free := CountFree(a);
    var k := 0;
    while free as real / Max(n, 1) as real > widenOnNullRate && k + 1 < |attempts|
      invariant 0 <= k < |attempts| && |books| == k + 1 && PartialMatching(a, n)
      invariant a == books[k].a && free == |Marked(Free(a))|
      invariant forall s :: 0 <= s <= k ==> Auctioned(attempts[s], n, bidGuard, books[s])
      invariant forall s :: 0 <= s < k ==> !FewFree(books[s].a, n, widenOnNullRate)
      decreases |attempts| - k
    {
      k := k + 1;
      a, book := OneAttempt(n, attempts[k], epsShrink, bidGuard);
      books := books + [book];
      free := CountFree(a);
    }
    t := k;
  }

  method OneAttempt(n: nat, x: Attempt, epsShrink: real, bidGuard: int) returns (a: seq<int>, ghost book: Book)
    requires Shrinks(x.ci, epsShrink) && ValidAttempt(x, n)
    ensures PartialMatching(a, n)
    ensures Auctioned(x, n, bidGuard, book) && a == book.a
  {
    var rounds; ghost var stages;
    a, rounds, book, stages := RunAuction(x.ci, x.cand, n, x.K, epsShrink, bidGuard);
    AuctionGivesMatching(Market(n, x.K, Benefits(x.ci), x.cand), 1, book);
  }
}
