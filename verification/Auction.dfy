/** Integer Jacobi auction with private null objects and epsilon scaling, after modules/align/src/auction.cpp. Tensors
    are read as integer arrays. */
module Auction {
  import opened Common
  import opened Arith

  /** Cost of staying with the private null object, 2^20. */
  const NULL_COST: int := 0x10_0000
  const BIAS: int := 4 * NULL_COST + 10

  /** `n` bidders, `K` candidate objects each, with integer benefits. */
  datatype Market = Market(n: nat, K: nat, S: seq<seq<int>>, cand: seq<seq<int>>) {
    ghost predicate Valid() {
      && 1 <= K && |S| == |cand| == n
      && (forall i :: 0 <= i < n ==> |S[i]| == K)
      && (forall i :: 0 <= i < n ==> |cand[i]| == K)
      && (forall i, k :: 0 <= i < n && 0 <= k < K ==> 0 <= cand[i][k] < n)
    }

    /** Net benefit of bidder i's k-th candidate at these prices. */
    function Value(p: seq<int>, i: int, k: int): int
      requires Valid() && |p| == n && 0 <= i < n && 0 <= k < K
    {
      S[i][k] - p[cand[i][k]]
    }

    /** Costs are non-negative, that is, benefits are not positive. */
    ghost predicate NonNegativeCosts()
      requires Valid()
    {
      forall i, k :: 0 <= i < n && 0 <= k < K ==> S[i][k] <= 0
    }
  }

  // ------------------------------------------------------------- the invariant

  /** Epsilon-complementary slackness: holding `j` is within eps of bidder i's best candidate and of its null. */
  ghost predicate Happy(m: Market, eps: int, p: seq<int>, i: int, j: int)
    requires m.Valid() && |p| == m.n && 0 <= i < m.n && 0 <= j < m.n
  {
    exists k :: 0 <= k < m.K && m.cand[i][k] == j && Content(m, eps, p, i, k)
  }

  ghost predicate Content(m: Market, eps: int, p: seq<int>, i: int, k: int)
    requires m.Valid() && |p| == m.n && 0 <= i < m.n && 0 <= k < m.K
  {
    && m.Value(p, i, k) + eps >= -NULL_COST
    && forall k' :: 0 <= k' < m.K ==> m.Value(p, i, k) + eps >= m.Value(p, i, k')
  }

  /** Every candidate of bidder i is worth less than its null. */
  ghost predicate Defected(m: Market, p: seq<int>, i: int)
    requires m.Valid() && |p| == m.n && 0 <= i < m.n
  {
    forall k :: 0 <= k < m.K ==> m.Value(p, i, k) < -NULL_COST
  }

  /** `assign` and `owner` are mutually inverse partial maps. */
  ghost predicate Inverse(n: nat, a: seq<int>, o: seq<int>) {
    && |a| == |o| == n
    && (forall i :: 0 <= i < n ==> -1 <= a[i] < n)
    && (forall j :: 0 <= j < n ==> -1 <= o[j] < n)
    && (forall i {:trigger a[i]} :: 0 <= i < n && a[i] != -1 ==> o[a[i]] == i)
    && (forall j {:trigger o[j]} :: 0 <= j < n && o[j] != -1 ==> a[o[j]] == j)
  }

  /** Prices, assignment, owners and the still unassigned bidders. */
  datatype Book = Book(p: seq<int>, a: seq<int>, o: seq<int>, un: seq<bool>)

  ghost predicate Inv(m: Market, eps: int, s: Book)
    requires m.Valid()
  {
    && |s.p| == |s.un| == m.n && Inverse(m.n, s.a, s.o)
    && (forall j :: 0 <= j < m.n ==> 0 <= s.p[j])
    && (forall i :: 0 <= i < m.n && s.un[i] ==> s.a[i] == -1)
    && (forall i :: 0 <= i < m.n && s.a[i] != -1 ==> Happy(m, eps, s.p, i, s.a[i]))
    && (forall i :: 0 <= i < m.n && !s.un[i] && s.a[i] == -1 ==> Defected(m, s.p, i))
  }

  ghost predicate NoneBelow(p: seq<int>, q: seq<int>) {
    |p| == |q| && forall j :: 0 <= j < |p| ==> p[j] <= q[j]
  }

  lemma RisingPrices(p: seq<int>, q: seq<int>, r: seq<int>)
    ensures NoneBelow(p, p)
    ensures NoneBelow(p, q) && NoneBelow(q, r) ==> NoneBelow(p, r)
  {}

  /** Raising the prices of other objects keeps a holder happy and a defector defected. */
  lemma HigherPrices(m: Market, eps: int, p: seq<int>, q: seq<int>, i: int)
    requires m.Valid() && |p| == m.n && NoneBelow(p, q) && 0 <= i < m.n
    ensures Defected(m, p, i) ==> Defected(m, q, i)
    ensures forall j :: 0 <= j < m.n && p[j] == q[j] && Happy(m, eps, p, i, j) ==> Happy(m, eps, q, i, j)
  {
    if Defected(m, p, i) {
      forall k | 0 <= k < m.K ensures m.Value(q, i, k) < -NULL_COST {
        assert m.Value(p, i, k) < -NULL_COST;
      }
    }
    forall j | 0 <= j < m.n && p[j] == q[j] && Happy(m, eps, p, i, j) ensures Happy(m, eps, q, i, j) {
      var k :| 0 <= k < m.K && m.cand[i][k] == j && Content(m, eps, p, i, k);
      forall k' | 0 <= k' < m.K ensures m.Value(q, i, k) + eps >= m.Value(q, i, k') {
        assert m.Value(p, i, k) + eps >= m.Value(p, i, k');
      }
      assert Content(m, eps, q, i, k);
    }
  }

  // ---------------------------------------------------------------------- bids

  datatype Bid = Bid(bidder: int, obj: int, amount: int)

  /** A bid of an unassigned bidder for its best candidate: it raises the price by at least eps, and at that price the
      bidder is content. */
  ghost predicate GoodBid(m: Market, eps: int, p: seq<int>, b: Bid)
    requires m.Valid() && |p| == m.n
  {
    && 0 <= b.bidder < m.n && 0 <= b.obj < m.n
    && b.amount >= p[b.obj] + eps
    && Happy(m, eps, p[b.obj := b.amount], b.bidder, b.obj)
    && (m.NonNegativeCosts() ==> b.amount <= NULL_COST + eps)
  }

  /** Largest value, one of its positions, and the largest value elsewhere (at least the null's). */
  method TopTwo(vals: seq<int>) returns (k: int, v1: int, v2: int)
    requires |vals| >= 1
    ensures 0 <= k < |vals| && vals[k] == v1 && forall t :: 0 <= t < |vals| ==> vals[t] <= v1
    ensures v2 >= -NULL_COST && forall t :: 0 <= t < |vals| && t != k ==> vals[t] <= v2
    ensures v2 <= Max(v1, -NULL_COST)
    ensures v2 == -NULL_COST || exists t :: 0 <= t < |vals| && t != k && vals[t] == v2
  {
    k, v1, v2 := 0, vals[0], -NULL_COST;
    var t := 1;
    while t < |vals|
      invariant 1 <= t <= |vals| && 0 <= k < t && vals[k] == v1
      invariant forall x :: 0 <= x < t ==> vals[x] <= v1
      invariant v2 >= -NULL_COST && v2 <= Max(v1, -NULL_COST)
      invariant forall x :: 0 <= x < t && x != k ==> vals[x] <= v2
      invariant v2 == -NULL_COST || exists x :: 0 <= x < t && x != k && vals[x] == v2
    {
      if vals[t] > v1 {
        k, v1, v2 := t, vals[t], Max(v1, -NULL_COST);
      } else {
        v2 := Max(v2, vals[t]);
      }
      t := t + 1;
    }
  }

  lemma BidIsGood(m: Market, eps: int, p: seq<int>, i: int, k: int, v1: int, v2: int)
    requires m.Valid() && |p| == m.n && 0 <= i < m.n && 0 <= k < m.K && eps >= 0
    requires v1 == m.Value(p, i, k) && v1 >= -NULL_COST && -NULL_COST <= v2 <= v1
    requires forall t :: 0 <= t < m.K && t != k ==> m.Value(p, i, t) <= v2
    ensures GoodBid(m, eps, p, Bid(i, m.cand[i][k], p[m.cand[i][k]] + (v1 - v2) + eps))
  {
    var j := m.cand[i][k];
    var q := p[j := p[j] + (v1 - v2) + eps];
    forall t | 0 <= t < m.K ensures m.Value(q, i, k) + eps >= m.Value(q, i, t) {
      assert t != k ==> m.Value(p, i, t) <= v2;
    }
    assert Content(m, eps, q, i, k);
  }

  ghost predicate Bids(m: Market, eps: int, p: seq<int>, un: seq<bool>, bids: seq<Bid>)
    requires m.Valid() && |p| == |un| == m.n
  {
    && (forall b :: 0 <= b < |bids| ==> GoodBid(m, eps, p, bids[b]) && un[bids[b].bidder])
    && (forall b, c :: 0 <= b < c < |bids| ==> bids[b].bidder < bids[c].bidder)
    && (bids == [] ==> forall i :: 0 <= i < m.n ==> !un[i])
  }

  // ------------------------------------------------------------------- winners

  /** Composite key: higher bids first, then lower bidder indices. */
  function Key(b: Bid, n: nat): int {
    (b.amount + BIAS) * (n + 1) + (n - b.bidder)
  }

  lemma KeyOrder(b: Bid, c: Bid, n: nat)
    requires 0 <= b.bidder < n && 0 <= c.bidder < n
    ensures Key(b, n) < Key(c, n) <==> b.amount < c.amount || (b.amount == c.amount && b.bidder > c.bidder)
    ensures Key(b, n) / (n + 1) - BIAS == b.amount
    ensures b.amount + BIAS >= 0 ==> Key(b, n) >= 0
  {
    RadixOrder(b.amount + BIAS, n - b.bidder, c.amount + BIAS, n - c.bidder, n + 1);
    DivUnique(b.amount + BIAS, n - b.bidder, n + 1);
    RadixOrder(b.amount + BIAS, n - b.bidder, 0, 0, n + 1);
  }

  /** Per object, the largest key bid on it, or -1. */
  ghost predicate BestKeys(n: nat, bids: seq<Bid>, best: seq<int>)
    requires forall b :: 0 <= b < |bids| ==> 0 <= bids[b].obj < n
  {
    && |best| == n
    && (forall b :: 0 <= b < |bids| ==> Key(bids[b], n) <= best[bids[b].obj])
    && (forall j :: 0 <= j < n && best[j] != -1 ==>
          exists b :: 0 <= b < |bids| && bids[b].obj == j && Key(bids[b], n) == best[j])
  }

  method ScatterMax(n: nat, bids: seq<Bid>) returns (best: seq<int>)
    requires forall b :: 0 <= b < |bids| ==> 0 <= bids[b].obj < n
    ensures BestKeys(n, bids, best)
  {
    var objBest := new int[n](_ => -1);
    var b := 0;
    while b < |bids|
      invariant 0 <= b <= |bids|
      invariant forall c :: 0 <= c < b ==> Key(bids[c], n) <= objBest[bids[c].obj]
      invariant forall j :: 0 <= j < n && objBest[j] != -1 ==>
                  exists c :: 0 <= c < b && bids[c].obj == j && Key(bids[c], n) == objBest[j]
    {
      var j := bids[b].obj;
      objBest[j] := Max(objBest[j], Key(bids[b], n));
      b := b + 1;
    }
    best := objBest[..];
  }

  /** Exactly one bid wins each contested object: the highest, lowest bidder first. */
  lemma WinnerIsUnique(m: Market, eps: int, p: seq<int>, un: seq<bool>, bids: seq<Bid>, best: seq<int>, b: int)
    requires m.Valid() && |p| == |un| == m.n && Bids(m, eps, p, un, bids) && BestKeys(m.n, bids, best)
    requires 0 <= b < |bids| && Key(bids[b], m.n) == best[bids[b].obj]
    ensures best[bids[b].obj] / (m.n + 1) - BIAS == bids[b].amount
    ensures forall c :: 0 <= c < |bids| && c != b && bids[c].obj == bids[b].obj ==>
              && Key(bids[c], m.n) != best[bids[c].obj]
              && (bids[c].amount < bids[b].amount
                  || (bids[c].amount == bids[b].amount && bids[b].bidder < bids[c].bidder))
  {
    KeyOrder(bids[b], bids[b], m.n);
    forall c | 0 <= c < |bids| && c != b && bids[c].obj == bids[b].obj
      ensures Key(bids[c], m.n) != best[bids[c].obj]
      ensures bids[c].amount < bids[b].amount || (bids[c].amount == bids[b].amount && bids[b].bidder < bids[c].bidder)
    {
      KeyOrder(bids[c], bids[b], m.n);
      KeyOrder(bids[b], bids[c], m.n);
      assert bids[b].bidder != bids[c].bidder;
    }
  }

  /** Every object that is bid on is won. */
  lemma SomeoneWins(m: Market, eps: int, p: seq<int>, un: seq<bool>, bids: seq<Bid>, best: seq<int>, c: int)
    requires m.Valid() && |p| == |un| == m.n && Bids(m, eps, p, un, bids) && BestKeys(m.n, bids, best)
    requires 0 <= c < |bids| && eps >= 0 && forall j :: 0 <= j < m.n ==> 0 <= p[j]
    ensures exists b :: 0 <= b < |bids| && bids[b].obj == bids[c].obj && Key(bids[b], m.n) == best[bids[b].obj]
  {
    KeyOrder(bids[c], bids[c], m.n);
    var j := bids[c].obj;
    assert best[j] != -1;
    var b :| 0 <= b < |bids| && bids[b].obj == j && Key(bids[b], m.n) == best[j];
    assert Key(bids[b], m.n) == best[bids[b].obj];
  }

  /** The highest bid on its object, the lowest bidder among equals. */
  ghost predicate Wins(bids: seq<Bid>, b: int) {
    && 0 <= b < |bids|
    && forall c :: 0 <= c < |bids| && c != b && bids[c].obj == bids[b].obj ==>
         bids[c].amount < bids[b].amount || (bids[c].amount == bids[b].amount && bids[b].bidder < bids[c].bidder)
  }

  /** The winners are the bids that carry the greatest key of their object. */
  lemma WinsByKey(m: Market, eps: int, p: seq<int>, un: seq<bool>, bids: seq<Bid>, best: seq<int>, b: int)
    requires m.Valid() && |p| == |un| == m.n && Bids(m, eps, p, un, bids) && BestKeys(m.n, bids, best)
    requires 0 <= b < |bids| && eps >= 0 && forall j :: 0 <= j < m.n ==> 0 <= p[j]
    ensures Wins(bids, b) <==> Key(bids[b], m.n) == best[bids[b].obj]
  {
    if Key(bids[b], m.n) == best[bids[b].obj] {
      WinnerIsUnique(m, eps, p, un, bids, best, b);
    }
    if Wins(bids, b) {
      SomeoneWins(m, eps, p, un, bids, best, b);
      var c :| 0 <= c < |bids| && bids[c].obj == bids[b].obj && Key(bids[c], m.n) == best[bids[c].obj];
      KeyOrder(bids[c], bids[b], m.n);
    }
  }

  /** The winner takes the object at its bid; the previous owner becomes unassigned. */
  function Win(s: Book, n: nat, b: Bid): Book
    requires |s.p| == |s.a| == |s.o| == |s.un| == n && 0 <= b.bidder < n && 0 <= b.obj < n && -1 <= s.o[b.obj] < n
  {
    var prev := s.o[b.obj];
    var a := if prev >= 0 then s.a[prev := -1] else s.a;
    var un := if prev >= 0 then s.un[prev := true] else s.un;
    Book(s.p[b.obj := b.amount], a[b.bidder := b.obj], s.o[b.obj := b.bidder], un[b.bidder := false])
  }

  lemma WinKeepsInverse(n: nat, s: Book, b: Bid)
    requires |s.p| == |s.un| == n && Inverse(n, s.a, s.o) && 0 <= b.bidder < n && 0 <= b.obj < n
    requires s.a[b.bidder] == -1
    ensures Inverse(n, Win(s, n, b).a, Win(s, n, b).o)
  {}

  lemma WinStep(m: Market, eps: int, p0: seq<int>, s: Book, b: Bid)
    requires m.Valid() && Inv(m, eps, s) && eps >= 0
    requires NoneBelow(p0, s.p) && GoodBid(m, eps, p0, b)
    requires s.un[b.bidder] && s.p[b.obj] == p0[b.obj]
    ensures Inv(m, eps, Win(s, m.n, b)) && NoneBelow(s.p, Win(s, m.n, b).p)
  {
    hide Happy, Defected;
    var s' := Win(s, m.n, b);
    WinKeepsInverse(m.n, s, b);
    forall i | 0 <= i < m.n
      ensures s'.a[i] != -1 ==> Happy(m, eps, s'.p, i, s'.a[i])
      ensures !s'.un[i] && s'.a[i] == -1 ==> Defected(m, s'.p, i)
    {
      if i == b.bidder {
        HigherPrices(m, eps, p0[b.obj := b.amount], s'.p, i);
      } else {
        HigherPrices(m, eps, s.p, s'.p, i);
      }
    }
  }

  // ------------------------------------------------------------- price potential

  ghost function Sum(p: seq<int>): int {
    if p == [] then 0 else p[0] + Sum(p[1..])
  }

  lemma {:induction false} SumUpdate(p: seq<int>, j: int, x: int)
    requires 0 <= j < |p|
    ensures Sum(p[j := x]) == Sum(p) - p[j] + x
  {
    if j == 0 {
      assert p[j := x][1..] == p[1..];
    } else {
      assert p[j := x][1..] == p[1..][j - 1 := x];
      SumUpdate(p[1..], j - 1, x);
    }
  }

  ghost predicate Capped(p: seq<int>, cap: int) {
    forall j :: 0 <= j < |p| ==> p[j] <= cap
  }

  lemma {:induction false} SumCapped(p: seq<int>, cap: int)
    requires Capped(p, cap)
    ensures Sum(p) <= |p| * cap
  {
    if p != [] {
      SumCapped(p[1..], cap);
      MulSucc(|p| - 1, cap);
    }
  }

  // ------------------------------------------------------------------ the rounds

  ghost function BookOf(prices: array<int>, assign: array<int>, owner: array<int>, unassigned: array<bool>): Book
    reads prices, assign, owner, unassigned
  {
    Book(prices[..], assign[..], owner[..], unassigned[..])
  }

  /** Bidder i's move at prices `p`. */
  method Consider(m: Market, eps: int, p: seq<int>, i: int) returns (defect: bool, bid: Bid)
    requires m.Valid() && eps >= 1 && |p| == m.n && 0 <= i < m.n
    ensures defect <==> Defected(m, p, i)
    ensures !defect ==> GoodBid(m, eps, p, bid) && bid.bidder == i
  {
    var vals := seq(m.K, k requires 0 <= k < m.K => m.Value(p, i, k));
    var k, v1, v2 := TopTwo(vals);
    forall t | 0 <= t < m.K ensures vals[t] == m.Value(p, i, t) {}
    defect := v1 < -NULL_COST;
    assert m.Value(p, i, k) == v1;
    var j := m.cand[i][k];
    bid := Bid(i, j, p[j] + (v1 - v2) + eps);
    if !defect {
      BidIsGood(m, eps, p, i, k, v1, v2);
    }
  }

  lemma DefectStep(m: Market, eps: int, s: Book, i: int)
    requires m.Valid() && Inv(m, eps, s) && 0 <= i < m.n && s.un[i] && Defected(m, s.p, i)
    ensures s.a[i := -1] == s.a && Inv(m, eps, s.(a := s.a[i := -1], un := s.un[i := false]))
  {
    assert s.a[i := -1] == s.a;
  }

  ghost predicate HasBid(bids: seq<Bid>, i: int) {
    exists b :: 0 <= b < |bids| && bids[b].bidder == i
  }

  lemma BidJoins(bids: seq<Bid>, bid: Bid)
    ensures HasBid(bids + [bid], bid.bidder) && forall i :: HasBid(bids, i) ==> HasBid(bids + [bid], i)
  {
    assert (bids + [bid])[|bids|] == bid;
    forall i | HasBid(bids, i) ensures HasBid(bids + [bid], i) {
      var b :| 0 <= b < |bids| && bids[b].bidder == i;
      assert (bids + [bid])[b].bidder == i;
    }
  }

  /** Every unassigned bidder either gives up on all its candidates or bids for its best one, all at the prices of the
      round's start. */
  method CollectBids(m: Market, eps: int, prices: array<int>, assign: array<int>, owner: array<int>,
      unassigned: array<bool>)
    returns (bids: seq<Bid>)
    requires m.Valid() && eps >= 1 && Inv(m, eps, BookOf(prices, assign, owner, unassigned))
    requires prices != assign && assign != owner && prices != owner
    modifies assign, unassigned
    ensures Inv(m, eps, BookOf(prices, assign, owner, unassigned))
    ensures Bids(m, eps, prices[..], unassigned[..], bids)
    ensures assign[..] == old(assign[..]) && forall i :: 0 <= i < m.n && unassigned[i] ==> HasBid(bids, i)
    ensures forall i :: 0 <= i < m.n ==> (unassigned[i] <==> old(unassigned[i]) && !Defected(m, prices[..], i))
  {
    hide Happy, Defected, GoodBid, HasBid, Inv, Market.Valid, Collected, Bids;
    ghost var s0 := BookOf(prices, assign, owner, unassigned);
    ShapeOf(m, eps, s0);
    bids := [];
    NoneCollected(m, eps, s0);
    var i := 0;
    while i < m.n
      invariant 0 <= i <= m.n && |prices[..]| == m.n
      invariant Collected(m, eps, s0, BookOf(prices, assign, owner, unassigned), bids, i)
    {
      ghost var s := BookOf(prices, assign, owner, unassigned);
      CollectedShape(m, eps, s0, s, bids, i);
      if unassigned[i] {
        var defect, bid := Consider(m, eps, prices[..], i);
        if defect {
          CollectDefect(m, eps, s0, s, bids, i);
          unassigned[i] := false;
          assign[i] := -1;
          assert BookOf(prices, assign, owner, unassigned) == s.(a := s.a[i := -1], un := s.un[i := false]);
        } else {
          CollectBid(m, eps, s0, s, bids, i, bid);
          bids := bids + [bid];
        }
      } else {
        CollectNone(m, eps, s0, s, bids, i);
      }
      i := i + 1;
    }
    AllCollected(m, eps, s0, BookOf(prices, assign, owner, unassigned), bids);
  }

  /** The ledger and the bids once the first i bidders made their move. */
  ghost predicate Collected(m: Market, eps: int, s0: Book, s: Book, bids: seq<Bid>, i: int)
    requires m.Valid()
  {
    && Inv(m, eps, s0) && Inv(m, eps, s) && 0 <= i <= m.n && s.p == s0.p && s.a == s0.a && s.o == s0.o
    && (forall b :: 0 <= b < |bids| ==>
          GoodBid(m, eps, s.p, bids[b]) && 0 <= bids[b].bidder < i && s.un[bids[b].bidder])
    && (forall b, c :: 0 <= b < c < |bids| ==> bids[b].bidder < bids[c].bidder)
    && (forall x :: 0 <= x < i && s.un[x] ==> HasBid(bids, x))
    && (forall x :: 0 <= x < m.n ==> (s.un[x] <==> s0.un[x] && (x < i ==> !Defected(m, s.p, x))))
  }

  lemma NoneCollected(m: Market, eps: int, s: Book)
    requires m.Valid() && Inv(m, eps, s)
    ensures Collected(m, eps, s, s, [], 0)
  {}

  lemma CollectedShape(m: Market, eps: int, s0: Book, s: Book, bids: seq<Bid>, i: int)
    requires m.Valid() && Collected(m, eps, s0, s, bids, i)
    ensures |s.p| == |s.a| == |s.o| == |s.un| == m.n && Inv(m, eps, s)
  {
    hide Happy, Defected, GoodBid, HasBid;
  }

  lemma CollectDefect(m: Market, eps: int, s0: Book, s: Book, bids: seq<Bid>, i: int)
    requires m.Valid() && Collected(m, eps, s0, s, bids, i)
    requires 0 <= i < m.n && |s.un| == |s.a| == |s.p| == m.n && s.un[i]
    requires Defected(m, s.p, i)
    ensures Collected(m, eps, s0, s.(a := s.a[i := -1], un := s.un[i := false]), bids, i + 1)
  {
    hide Happy, Defected, GoodBid, HasBid, Market.Valid;
    DefectStep(m, eps, s, i);
    hide Inv;
  }

  lemma CollectBid(m: Market, eps: int, s0: Book, s: Book, bids: seq<Bid>, i: int, bid: Bid)
    requires m.Valid() && Collected(m, eps, s0, s, bids, i) && 0 <= i < m.n && |s.un| == |s.p| == m.n && s.un[i]
    requires !Defected(m, s.p, i) && GoodBid(m, eps, s.p, bid) && bid.bidder == i
    ensures Collected(m, eps, s0, s, bids + [bid], i + 1)
  {
    ShapeOf(m, eps, s);
    hide Happy, Defected, GoodBid, HasBid, Market.Valid, Inv;
    BidJoins(bids, bid);
  }

  lemma CollectNone(m: Market, eps: int, s0: Book, s: Book, bids: seq<Bid>, i: int)
    requires m.Valid() && Collected(m, eps, s0, s, bids, i) && 0 <= i < m.n && |s.un| == m.n && !s.un[i]
    ensures Collected(m, eps, s0, s, bids, i + 1)
  {
    ShapeOf(m, eps, s);
    hide Happy, Defected, GoodBid, HasBid, Market.Valid, Inv;
  }

  lemma AllCollected(m: Market, eps: int, s0: Book, s: Book, bids: seq<Bid>)
    requires m.Valid() && Collected(m, eps, s0, s, bids, m.n)
    ensures |s.p| == |s.un| == |s0.un| == m.n && s.p == s0.p && s.a == s0.a
    ensures Inv(m, eps, s) && Bids(m, eps, s.p, s.un, bids)
    ensures forall i :: 0 <= i < m.n && s.un[i] ==> HasBid(bids, i)
    ensures forall i :: 0 <= i < m.n ==> (s.un[i] <==> s0.un[i] && !Defected(m, s.p, i))
  {
    ShapeOf(m, eps, s);
    ShapeOf(m, eps, s0);
    hide Happy, Defected, GoodBid, HasBid, Market.Valid, Inv;
    if bids == [] {
      NoBids(m.n, s.un);
    }
  }

  lemma NoBids(n: nat, un: seq<bool>)
    requires |un| == n && forall i :: 0 <= i < n && un[i] ==> HasBid([], i)
    ensures forall i :: 0 <= i < n ==> !un[i]
  {}

  method ApplyWin(n: nat, prices: array<int>, assign: array<int>, owner: array<int>, unassigned: array<bool>, b: Bid,
      price: int)
    requires prices.Length == assign.Length == owner.Length == unassigned.Length == n
    requires prices != assign && assign != owner && prices != owner
    requires 0 <= b.bidder < n && 0 <= b.obj < n && -1 <= owner[b.obj] < n && price == b.amount
    modifies prices, assign, owner, unassigned
    ensures BookOf(prices, assign, owner, unassigned) == Win(old(BookOf(prices, assign, owner, unassigned)), n, b)
  {
    var prev := owner[b.obj];
    if prev >= 0 {
      assign[prev] := -1;
      unassigned[prev] := true;
    }
    owner[b.obj] := b.bidder;
    assign[b.bidder] := b.obj;
    unassigned[b.bidder] := false;
    prices[b.obj] := price;
  }

  /** The ledger after the first `b` bids of a round that started at prices p0. */
  ghost predicate Awarding(m: Market, eps: int, p0: seq<int>, bids: seq<Bid>, best: seq<int>, b: int, s: Book,
      won: bool)
    requires m.Valid() && |p0| == m.n && |best| == m.n
    requires forall c :: 0 <= c < |bids| ==> 0 <= bids[c].bidder < m.n && 0 <= bids[c].obj < m.n
  {
    && Inv(m, eps, s) && NoneBelow(p0, s.p) && 0 <= b <= |bids|
    && (forall c :: b <= c < |bids| ==> s.un[bids[c].bidder])
    && (forall c :: b <= c < |bids| && Key(bids[c], m.n) == best[bids[c].obj] ==> s.p[bids[c].obj] == p0[bids[c].obj])
    && Sum(s.p) >= Sum(p0) + (if won then eps else 0)
    && (!won ==> forall c :: 0 <= c < b ==> Key(bids[c], m.n) != best[bids[c].obj])
    && (m.NonNegativeCosts() ==> forall cap :: Capped(p0, cap) && NULL_COST + eps <= cap ==> Capped(s.p, cap))
  }

  lemma AwardStep(m: Market, eps: int, p0: seq<int>, un0: seq<bool>, bids: seq<Bid>, best: seq<int>, b: int, s: Book,
      won: bool)
    requires m.Valid() && |p0| == |un0| == m.n && eps >= 1
    requires Bids(m, eps, p0, un0, bids) && BestKeys(m.n, bids, best)
    requires b < |bids| && Awarding(m, eps, p0, bids, best, b, s, won)
    ensures Key(bids[b], m.n) != best[bids[b].obj] ==> Awarding(m, eps, p0, bids, best, b + 1, s, won)
    ensures Key(bids[b], m.n) == best[bids[b].obj] ==>
              && -1 <= s.o[bids[b].obj] < m.n && best[bids[b].obj] / (m.n + 1) - BIAS == bids[b].amount
              && Awarding(m, eps, p0, bids, best, b + 1, Win(s, m.n, bids[b]), true)
  {
    if Key(bids[b], m.n) == best[bids[b].obj] {
      hide Happy, Defected, Key, Inverse;
      WinnerIsUnique(m, eps, p0, un0, bids, best, b);
      BidRaises(m, eps, p0, un0, bids, b);
      WinStep(m, eps, p0, s, bids[b]);
      hide Inv, GoodBid, Bids, BestKeys, NoneBelow;
      ShapeOf(m, eps, s);
      AfterWin(m, eps, p0, bids, best, b, s, won);
    }
  }

  /** What a bid of the list is: bidders ascend, the price rises by at least eps, to no more than null and eps. */
  lemma BidRaises(m: Market, eps: int, p: seq<int>, un: seq<bool>, bids: seq<Bid>, b: int)
    requires m.Valid() && |p| == |un| == m.n && Bids(m, eps, p, un, bids) && 0 <= b < |bids|
    ensures GoodBid(m, eps, p, bids[b]) && bids[b].amount >= p[bids[b].obj] + eps
    ensures m.NonNegativeCosts() ==> bids[b].amount <= NULL_COST + eps
    ensures forall c :: 0 <= c < |bids| ==> 0 <= bids[c].bidder < m.n && 0 <= bids[c].obj < m.n
    ensures forall c :: b < c < |bids| ==> bids[b].bidder != bids[c].bidder
  {}

  /** The ledger after a win, but for the market invariant. */
  lemma AfterWin(m: Market, eps: int, p0: seq<int>, bids: seq<Bid>, best: seq<int>, b: int, s: Book, won: bool)
    requires m.Valid() && |p0| == |best| == |s.p| == |s.a| == |s.o| == |s.un| == m.n && eps >= 1 && 0 <= b < |bids|
    requires forall c :: 0 <= c < |bids| ==> 0 <= bids[c].bidder < m.n && 0 <= bids[c].obj < m.n
    requires forall j :: 0 <= j < m.n ==> -1 <= s.o[j] < m.n
    requires Awarding(m, eps, p0, bids, best, b, s, won) && bids[b].amount >= p0[bids[b].obj] + eps
    requires s.p[bids[b].obj] == p0[bids[b].obj] && (m.NonNegativeCosts() ==> bids[b].amount <= NULL_COST + eps)
    requires forall c :: b < c < |bids| ==> bids[b].bidder != bids[c].bidder
    requires forall c :: b < c < |bids| && bids[c].obj == bids[b].obj ==> Key(bids[c], m.n) != best[bids[c].obj]
    requires Inv(m, eps, Win(s, m.n, bids[b])) && NoneBelow(p0, Win(s, m.n, bids[b]).p)
    ensures Awarding(m, eps, p0, bids, best, b + 1, Win(s, m.n, bids[b]), true)
  {
    hide Inv, Key, NoneBelow;
    SumUpdate(s.p, bids[b].obj, bids[b].amount);
  }

  /** Awards every contested object to its winner. The winners hold distinct objects and were unassigned, so taking
      them one after another is the same as all at once. */
  method Award(m: Market, eps: int, bids: seq<Bid>, prices: array<int>, assign: array<int>, owner: array<int>,
      unassigned: array<bool>)
    requires m.Valid() && eps >= 1 && Inv(m, eps, BookOf(prices, assign, owner, unassigned))
    requires Bids(m, eps, prices[..], unassigned[..], bids) && bids != []
    requires prices != assign && assign != owner && prices != owner
    modifies prices, assign, owner, unassigned
    ensures Inv(m, eps, BookOf(prices, assign, owner, unassigned))
    ensures NoneBelow(old(prices[..]), prices[..]) && Sum(prices[..]) >= old(Sum(prices[..])) + eps
    ensures m.NonNegativeCosts() ==>
              forall cap :: old(Capped(prices[..], cap)) && NULL_COST + eps <= cap ==> Capped(prices[..], cap)
    ensures forall b :: Wins(bids, b) ==> Settled(BookOf(prices, assign, owner, unassigned), bids[b])
    ensures forall j :: 0 <= j < m.n && (forall b :: 0 <= b < |bids| ==> bids[b].obj != j) ==>
              owner[j] == old(owner[j]) && prices[j] == old(prices[j])
  {
    ghost var start := BookOf(prices, assign, owner, unassigned);
    hide Inv, Bids, BestKeys, Market.Valid, NoneBelow, Sum, Market.NonNegativeCosts, Capped, Wins, Settled, Key,
        Progress;
    ShapeOf(m, eps, start);
    BidsInside(m, eps, start.p, start.un, bids);
    var best := ScatterMax(m.n, bids);
    ProgressStarts(m, eps, start, bids, best);
    ghost var won := AwardWinners(m, eps, bids, best, prices, assign, owner, unassigned, start);
    ProgressEnds(m, eps, start, bids, best, BookOf(prices, assign, owner, unassigned), won);
  }

  method AwardWinners(m: Market, eps: int, bids: seq<Bid>, best: seq<int>, prices: array<int>, assign: array<int>,
      owner: array<int>, unassigned: array<bool>, ghost start: Book)
    returns (ghost won: bool)
    requires m.Valid() && Progress(m, eps, start, bids, best, 0, BookOf(prices, assign, owner, unassigned), false)
    requires prices != assign && assign != owner && prices != owner
    modifies prices, assign, owner, unassigned
    ensures Progress(m, eps, start, bids, best, |bids|, BookOf(prices, assign, owner, unassigned), won)
  {
    hide Market.Valid, Key, Progress, Win;
    won := false;
    var b := 0;
    while b < |bids|
      invariant 0 <= b <= |bids|
          && Progress(m, eps, start, bids, best, b, BookOf(prices, assign, owner, unassigned), won)
    {
      ProgressStep(m, eps, start, bids, best, b, BookOf(prices, assign, owner, unassigned), won);
      if Key(bids[b], m.n) == best[bids[b].obj] {
        ApplyWin(m.n, prices, assign, owner, unassigned, bids[b], best[bids[b].obj] / (m.n + 1) - BIAS);
        won := true;
      }
      b := b + 1;
    }
  }

  lemma BidsInside(m: Market, eps: int, p: seq<int>, un: seq<bool>, bids: seq<Bid>)
    requires m.Valid() && |p| == |un| == m.n && Bids(m, eps, p, un, bids)
    ensures forall b :: 0 <= b < |bids| ==> 0 <= bids[b].obj < m.n
  {}

  /** The award loop after b bids, from the ledger s0 it started with. */
  ghost predicate Progress(m: Market, eps: int, s0: Book, bids: seq<Bid>, best: seq<int>, b: int, s: Book, won: bool)
    requires m.Valid()
  {
    && eps >= 1 && Inv(m, eps, s0) && Bids(m, eps, s0.p, s0.un, bids) && BestKeys(m.n, bids, best) && 0 <= b <= |bids|
    && Awarding(m, eps, s0.p, bids, best, b, s, won) && Awarded(m.n, bids, best, b, s0, s)
  }

  lemma ProgressStarts(m: Market, eps: int, s0: Book, bids: seq<Bid>, best: seq<int>)
    requires m.Valid() && eps >= 1 && Inv(m, eps, s0) && Bids(m, eps, s0.p, s0.un, bids) && BestKeys(m.n, bids, best)
    ensures |best| == m.n && Progress(m, eps, s0, bids, best, 0, s0, false)
  {
    hide Happy, Defected, Key;
  }

  lemma ProgressStep(m: Market, eps: int, s0: Book, bids: seq<Bid>, best: seq<int>, b: int, s: Book, won: bool)
    requires m.Valid() && Progress(m, eps, s0, bids, best, b, s, won) && 0 <= b < |bids|
    ensures |best| == |s.p| == |s.a| == |s.o| == |s.un| == m.n && 0 <= bids[b].bidder < m.n && 0 <= bids[b].obj < m.n
    ensures -1 <= s.o[bids[b].obj] < m.n
    ensures Key(bids[b], m.n) != best[bids[b].obj] ==> Progress(m, eps, s0, bids, best, b + 1, s, won)
    ensures Key(bids[b], m.n) == best[bids[b].obj] ==>
              && best[bids[b].obj] / (m.n + 1) - BIAS == bids[b].amount
              && Progress(m, eps, s0, bids, best, b + 1, Win(s, m.n, bids[b]), true)
  {
    AwardStep(m, eps, s0.p, s0.un, bids, best, b, s, won);
    ShapeOf(m, eps, s);
    BidInside(m, eps, s0.p, s0.un, bids, b);
    hide Inv, Bids, Awarding, Awarded, Key, BestKeys, Win;
    AwardedStep(m, eps, s0.p, s0.un, bids, best, b, s0, s);
  }

  lemma ShapeOf(m: Market, eps: int, s: Book)
    requires m.Valid() && Inv(m, eps, s)
    ensures |s.p| == |s.a| == |s.o| == |s.un| == m.n && forall j :: 0 <= j < m.n ==> -1 <= s.o[j] < m.n
  {}

  lemma BidInside(m: Market, eps: int, p: seq<int>, un: seq<bool>, bids: seq<Bid>, b: int)
    requires m.Valid() && |p| == |un| == m.n && Bids(m, eps, p, un, bids) && 0 <= b < |bids|
    ensures 0 <= bids[b].bidder < m.n && 0 <= bids[b].obj < m.n
  {}

  lemma ProgressEnds(m: Market, eps: int, s0: Book, bids: seq<Bid>, best: seq<int>, s: Book, won: bool)
    requires m.Valid() && Progress(m, eps, s0, bids, best, |bids|, s, won) && bids != []
    ensures Inv(m, eps, s) && NoneBelow(s0.p, s.p) && Sum(s.p) >= Sum(s0.p) + eps
    ensures |s.o| == |s.p| == |s0.o| == |s0.p| == m.n
    ensures m.NonNegativeCosts() ==> forall cap :: Capped(s0.p, cap) && NULL_COST + eps <= cap ==> Capped(s.p, cap)
    ensures forall b :: Wins(bids, b) ==> Settled(s, bids[b])
    ensures forall j :: 0 <= j < m.n && (forall b :: 0 <= b < |bids| ==> bids[b].obj != j) ==>
        s.o[j] == s0.o[j] && s.p[j] == s0.p[j]
  {
    SomeoneWins(m, eps, s0.p, s0.un, bids, best, 0);
    hide Happy, Defected, Key, Inverse, Wins, Settled, Awarded, Capped, Sum;
    Outcome(m, eps, s0.p, s0.un, bids, best, s0, s);
  }

  /** The bid was accepted: its bidder holds the object at the price it offered. */
  ghost predicate Settled(s: Book, b: Bid) {
    && 0 <= b.bidder < |s.a| && 0 <= b.obj < |s.o| && b.obj < |s.p|
    && s.a[b.bidder] == b.obj && s.o[b.obj] == b.bidder && s.p[b.obj] == b.amount
  }

  /** None of the first b bids won object j. */
  ghost predicate Untouched(n: nat, bids: seq<Bid>, best: seq<int>, b: int, j: int)
    requires |best| == n && 0 <= b <= |bids| && forall c :: 0 <= c < |bids| ==> 0 <= bids[c].obj < n
  {
    forall c :: 0 <= c < b && bids[c].obj == j ==> Key(bids[c], n) != best[j]
  }

  /** Owners and prices after the first b bids: the winners' where there was one, the old ones elsewhere. */
  ghost predicate Awarded(n: nat, bids: seq<Bid>, best: seq<int>, b: int, s0: Book, s: Book)
    requires |best| == n && 0 <= b <= |bids| && forall c :: 0 <= c < |bids| ==> 0 <= bids[c].obj < n
  {
    && |s0.o| == |s.o| == |s0.p| == |s.p| == n
    && (forall c :: 0 <= c < b && Key(bids[c], n) == best[bids[c].obj] ==>
          s.o[bids[c].obj] == bids[c].bidder && s.p[bids[c].obj] == bids[c].amount)
    && (forall j :: 0 <= j < n && Untouched(n, bids, best, b, j) ==> s.o[j] == s0.o[j] && s.p[j] == s0.p[j])
  }

  lemma AwardedStep(m: Market, eps: int, p0: seq<int>, un0: seq<bool>, bids: seq<Bid>, best: seq<int>, b: int,
      s0: Book, s: Book)
    requires m.Valid() && |p0| == |un0| == m.n && Bids(m, eps, p0, un0, bids) && BestKeys(m.n, bids, best)
    requires 0 <= b < |bids| && Awarded(m.n, bids, best, b, s0, s) && |s.a| == |s.un| == m.n
        && -1 <= s.o[bids[b].obj] < m.n
    ensures Key(bids[b], m.n) != best[bids[b].obj] ==> Awarded(m.n, bids, best, b + 1, s0, s)
    ensures Key(bids[b], m.n) == best[bids[b].obj] ==> Awarded(m.n, bids, best, b + 1, s0, Win(s, m.n, bids[b]))
  {
    hide Key, Happy;
    if Key(bids[b], m.n) == best[bids[b].obj] {
      WinnerIsUnique(m, eps, p0, un0, bids, best, b);
    }
    forall j | 0 <= j < m.n && Untouched(m.n, bids, best, b + 1, j) ensures Untouched(m.n, bids, best, b, j) {}
  }

  lemma Outcome(m: Market, eps: int, p0: seq<int>, un0: seq<bool>, bids: seq<Bid>, best: seq<int>, s0: Book, s: Book)
    requires m.Valid() && |p0| == |un0| == m.n && Bids(m, eps, p0, un0, bids) && BestKeys(m.n, bids, best)
    requires eps >= 0 && (forall j :: 0 <= j < m.n ==> 0 <= p0[j])
    requires Awarded(m.n, bids, best, |bids|, s0, s) && Inverse(m.n, s.a, s.o)
    ensures forall b :: Wins(bids, b) ==> Settled(s, bids[b])
    ensures forall j :: 0 <= j < m.n && (forall b :: 0 <= b < |bids| ==> bids[b].obj != j) ==>
        s.o[j] == s0.o[j] && s.p[j] == s0.p[j]
  {
    hide Key, Happy;
    forall b | Wins(bids, b) ensures Settled(s, bids[b]) {
      WinsByKey(m, eps, p0, un0, bids, best, b);
      assert s.o[bids[b].obj] == bids[b].bidder;
    }
    forall j | 0 <= j < m.n && (forall b :: 0 <= b < |bids| ==> bids[b].obj != j)
      ensures s.o[j] == s0.o[j] && s.p[j] == s0.p[j]
    {
      assert Untouched(m.n, bids, best, |bids|, j);
    }
  }

  ghost predicate NoneUnassigned(un: seq<bool>) {
    forall i :: 0 <= i < |un| ==> !un[i]
  }

  method AnyUnassigned(unassigned: array<bool>) returns (any: bool)
    ensures any <==> !NoneUnassigned(unassigned[..])
  {
    var i := 0;
    while i < unassigned.Length
      invariant 0 <= i <= unassigned.Length && forall x :: 0 <= x < i ==> !unassigned[x]
    {
      if unassigned[i] {
        assert unassigned[..][i];
        return true;
      }
      i := i + 1;
    }
    return false;
  }

  /** One round of bidding: some price rises by at least eps, or nobody is left unassigned. */
  method Round(m: Market, eps: int, ghost cap: int, prices: array<int>, assign: array<int>, owner: array<int>,
      unassigned: array<bool>)
    returns (ghost raised: bool)
    requires m.Valid() && eps >= 1 && Inv(m, eps, BookOf(prices, assign, owner, unassigned))
    requires prices != assign && assign != owner && prices != owner
    modifies prices, assign, owner, unassigned
    ensures Inv(m, eps, BookOf(prices, assign, owner, unassigned))
    ensures NoneBelow(old(prices[..]), prices[..])
    ensures Sum(prices[..]) >= old(Sum(prices[..])) + (if raised then eps else 0)
    ensures !raised ==> NoneUnassigned(unassigned[..])
    ensures m.NonNegativeCosts() && NULL_COST + eps <= cap && old(Capped(prices[..], cap)) ==> Capped(prices[..], cap)
  {
    hide Happy, Defected, Inverse, GoodBid;
    var bids := CollectBids(m, eps, prices, assign, owner, unassigned);
    raised := bids != [];
    if bids != [] {
      Award(m, eps, bids, prices, assign, owner, unassigned);
    }
  }

  /** One epsilon phase, starting from an empty assignment at the prices of the last one. `cap` is any bound the
      starting prices respect; only the round bound depends on it. */
  method Phase(m: Market, eps: int, bidGuard: int, ghost cap: int, prices: array<int>, assign: array<int>,
      owner: array<int>, unassigned: array<bool>)
    returns (rounds: nat)
    requires m.Valid() && eps >= 1
    requires prices.Length == assign.Length == owner.Length == unassigned.Length == m.n
    requires prices != assign && assign != owner && prices != owner
    requires forall j :: 0 <= j < m.n ==> 0 <= prices[j]
    modifies prices, assign, owner, unassigned
    ensures Inv(m, eps, BookOf(prices, assign, owner, unassigned))
    ensures NoneBelow(old(prices[..]), prices[..])
    ensures rounds <= bidGuard ==> NoneUnassigned(unassigned[..])
    ensures rounds <= Max(bidGuard, 0) + 1
    ensures m.NonNegativeCosts() && NULL_COST + eps <= cap && old(Capped(prices[..], cap)) ==>
              && Capped(prices[..], cap)
              && (rounds - 1) * eps <= m.n * cap - old(Sum(prices[..]))
  {
    Reset(m, eps, prices, assign, owner, unassigned);
    hide Inv, Sum, Capped, NoneUnassigned, Market.Valid, Market.NonNegativeCosts, NoneBelow, Under;
    ghost var p0 := prices[..];
    PhaseStarts(m, eps, cap, BookOf(prices, assign, owner, unassigned));
    rounds := 0;
    ghost var raises: nat := 0;
    var any := AnyUnassigned(unassigned);
    while any
      invariant Under(m, eps, cap, p0, BookOf(prices, assign, owner, unassigned), raises)
      invariant any <==> !NoneUnassigned(unassigned[..])
      invariant raises <= rounds <= raises + 1 && (any ==> rounds == raises)
      invariant rounds <= Max(bidGuard, 0) + (if any then 0 else 1)
      decreases Max(bidGuard, 0) + 1 - rounds
    {
      ghost var s := BookOf(prices, assign, owner, unassigned);
      UnderInv(m, eps, cap, p0, s, raises);
      ghost var raised := Round(m, eps, cap, prices, assign, owner, unassigned);
      PhaseStep(m, eps, cap, p0, s, BookOf(prices, assign, owner, unassigned), raises, raised);
      rounds := rounds + 1;
      if raised {
        raises := raises + 1;
      }
      any := AnyUnassigned(unassigned);
      if rounds > bidGuard { break; }
    }
    PhaseBound(m, eps, cap, p0, BookOf(prices, assign, owner, unassigned), rounds, raises);
  }

  /** A phase that began at prices p0 after `raises` rounds that raised them. */
  ghost predicate Under(m: Market, eps: int, cap: int, p0: seq<int>, s: Book, raises: nat)
    requires m.Valid()
  {
    && Inv(m, eps, s) && NoneBelow(p0, s.p) && Sum(s.p) >= Sum(p0) + Rise(raises, eps)
    && (m.NonNegativeCosts() && NULL_COST + eps <= cap && Capped(p0, cap) ==> Capped(s.p, cap))
  }

  lemma PhaseStarts(m: Market, eps: int, cap: int, s: Book)
    requires m.Valid() && Inv(m, eps, s)
    ensures Under(m, eps, cap, s.p, s, 0)
  {}

  lemma UnderInv(m: Market, eps: int, cap: int, p0: seq<int>, s: Book, raises: nat)
    requires m.Valid() && Under(m, eps, cap, p0, s, raises)
    ensures Inv(m, eps, s)
  {}

  lemma PhaseStep(m: Market, eps: int, cap: int, p0: seq<int>, s: Book, s': Book, raises: nat, raised: bool)
    requires m.Valid() && Under(m, eps, cap, p0, s, raises) && Inv(m, eps, s') && NoneBelow(s.p, s'.p)
    requires Sum(s'.p) >= Sum(s.p) + (if raised then eps else 0)
    requires m.NonNegativeCosts() && NULL_COST + eps <= cap && Capped(s.p, cap) ==> Capped(s'.p, cap)
    ensures Under(m, eps, cap, p0, s', if raised then raises + 1 else raises)
  {
    hide Inv, Sum, Capped, NoneBelow, Market.NonNegativeCosts;
    RisingPrices(p0, s.p, s'.p);
  }

  /** Total rise of the price sum after k rounds that each raise it by eps. */
  ghost function Rise(k: nat, eps: int): int {
    if k == 0 then 0 else Rise(k - 1, eps) + eps
  }

  lemma {:induction false} RiseIsProduct(k: nat, eps: int)
    ensures Rise(k, eps) == k * eps
  {
    if k > 0 {
      RiseIsProduct(k - 1, eps);
      MulSucc(k - 1, eps);
    }
  }

  lemma PhaseBound(m: Market, eps: int, cap: int, p0: seq<int>, s: Book, rounds: nat, raises: nat)
    requires m.Valid() && eps >= 1 && rounds <= raises + 1 && Under(m, eps, cap, p0, s, raises)
    ensures Inv(m, eps, s) && NoneBelow(p0, s.p)
    ensures m.NonNegativeCosts() && NULL_COST + eps <= cap && Capped(p0, cap) ==>
              Capped(s.p, cap) && (rounds - 1) * eps <= m.n * cap - Sum(p0)
  {
    if m.NonNegativeCosts() && NULL_COST + eps <= cap && Capped(p0, cap) {
      SumCapped(s.p, cap);
      RiseIsProduct(raises, eps);
      MulLe(rounds - 1, raises, eps);
    }
  }

  method Reset(m: Market, eps: int, prices: array<int>, assign: array<int>, owner: array<int>,
      unassigned: array<bool>)
    requires m.Valid() && prices.Length == assign.Length == owner.Length == unassigned.Length == m.n
    requires prices != assign && assign != owner && prices != owner
    requires forall j :: 0 <= j < m.n ==> 0 <= prices[j]
    modifies assign, owner, unassigned
    ensures Inv(m, eps, BookOf(prices, assign, owner, unassigned))
  {
    forall i | 0 <= i < m.n { assign[i] := -1; }
    forall i | 0 <= i < m.n { owner[i] := -1; }
    forall i | 0 <= i < m.n { unassigned[i] := true; }
  }

  // ----------------------------------------------------------- epsilon scaling

  ghost predicate EntriesAtMost(ci: seq<seq<int>>, bound: int) {
    forall i, k :: 0 <= i < |ci| && 0 <= k < |ci[i]| ==> ci[i][k] <= bound
  }

  /** The largest entry; zero if there is none. */
  ghost predicate IsTop(ci: seq<seq<int>>, top: int) {
    && EntriesAtMost(ci, top)
    && if ci == [] then top == 0 else exists i, k :: 0 <= i < |ci| && 0 <= k < |ci[i]| && ci[i][k] == top
  }

  method MaxEntry(ci: seq<seq<int>>, n: nat, K: nat) returns (r: int)
    requires |ci| == n && K >= 1 && forall i :: 0 <= i < n ==> |ci[i]| == K
    ensures (n == 0 ==> r == 0) && forall bound :: EntriesAtMost(ci, bound) && n > 0 ==> r <= bound
    ensures EntriesAtMost(ci, r)
    ensures IsTop(ci, r)
  {
    r := if n == 0 then 0 else ci[0][0];
    var i := 0;
    while i < n
      invariant 0 <= i <= n
      invariant forall x, k :: 0 <= x < i && 0 <= k < K ==> ci[x][k] <= r
      invariant n == 0 ==> r == 0
      invariant n > 0 ==> exists x, y :: 0 <= x < n && 0 <= y < K && ci[x][y] == r
    {
      var k := 0;
      while k < K
        invariant 0 <= k <= K
        invariant forall x, y :: 0 <= x < n && 0 <= y < K && (x < i || (x == i && y < k)) ==> ci[x][y] <= r
        invariant exists x, y :: 0 <= x < n && 0 <= y < K && ci[x][y] == r
      {
        r := Max(r, ci[i][k]);
        k := k + 1;
      }
      i := i + 1;
    }
  }

  function Benefits(ci: seq<seq<int>>): (s: seq<seq<int>>)
    ensures |s| == |ci|
    ensures forall i :: 0 <= i < |ci| ==> |s[i]| == |ci[i]|
    ensures forall i, k :: 0 <= i < |ci| && 0 <= k < |ci[i]| ==> s[i][k] == -ci[i][k]
  {
    seq(|ci|, i requires 0 <= i < |ci| => seq(|ci[i]|, k requires 0 <= k < |ci[i]| => -ci[i][k]))
  }

  /** Epsilon falls to 1, or is there from the start: otherwise the phases never end. */
  ghost predicate Shrinks(ci: seq<seq<int>>, epsShrink: real) {
    epsShrink > 1.0 || epsShrink < 0.0 || EntriesAtMost(ci, 7)
  }

  lemma ShrinkLess(x: real, s: real)
    requires x > 0.0 && (s > 1.0 || s < 0.0)
    ensures x / s < x
  {
    var q := x / s;
    assert q * s == x;
    if s > 1.0 {
      assert x * (s - 1.0) > 0.0;
      assert q >= x ==> (q - x) * s >= 0.0;
    } else {
      assert q >= 0.0 ==> q * s <= 0.0;
    }
  }

  /** A phase: its epsilon, how many rounds it took, and the book it left. */
  datatype Stage = Stage(eps: int, rounds: nat, book: Book)

  /** A phase ends within epsilon of complementary slackness, and before the guard only when everybody has settled. */
  ghost predicate StageOk(m: Market, bidGuard: int, x: Stage)
    requires m.Valid()
  {
    && x.eps >= 1 && Inv(m, x.eps, x.book)
    && x.rounds <= Max(bidGuard, 0) + 1 && (x.rounds <= bidGuard ==> NoneUnassigned(x.book.un))
  }

  /** The next phase runs at a smaller epsilon and never lowers a price. */
  ghost predicate Succeeds(epsShrink: real, x: Stage, y: Stage)
    requires epsShrink != 0.0
  {
    x.eps > 1 && y.eps == Max((x.eps as real / epsShrink).Floor, 1) && NoneBelow(x.book.p, y.book.p)
  }

  /** The phases of one auction so far. */
  ghost predicate Scales(m: Market, top: int, epsShrink: real, bidGuard: int, stages: seq<Stage>)
    requires m.Valid()
  {
    && (forall i :: 0 <= i < |stages| ==> StageOk(m, bidGuard, stages[i]))
    && (stages != [] ==> stages[0].eps == Max(top / 4, 1))
    && (forall i, j :: 0 <= i < j < |stages| && j == i + 1 ==>
        epsShrink != 0.0 && Succeeds(epsShrink, stages[i], stages[j]))
  }

  ghost function RoundsOf(stages: seq<Stage>): nat {
    if stages == [] then 0 else RoundsOf(stages[..|stages| - 1]) + stages[|stages| - 1].rounds
  }

  /** The epsilon of the next phase. */
  ghost predicate NextEps(top: int, epsShrink: real, stages: seq<Stage>, eps: int) {
    if stages == [] then eps == Max(top / 4, 1) else
      var x := stages[|stages| - 1];
      epsShrink != 0.0 && x.eps > 1 && eps == Max((x.eps as real / epsShrink).Floor, 1)
  }

  lemma NextStage(m: Market, top: int, epsShrink: real, bidGuard: int, stages: seq<Stage>, x: Stage)
    requires m.Valid() && Scales(m, top, epsShrink, bidGuard, stages) && StageOk(m, bidGuard, x)
    requires NextEps(top, epsShrink, stages, x.eps)
    requires stages != [] ==> NoneBelow(stages[|stages| - 1].book.p, x.book.p)
    ensures Scales(m, top, epsShrink, bidGuard, stages + [x])
    ensures RoundsOf(stages + [x]) == RoundsOf(stages) + x.rounds
  {
    hide StageOk, NoneBelow;
    var more := stages + [x];
    assert more[..|more| - 1] == stages;
    if stages != [] {
      assert Succeeds(epsShrink, stages[|stages| - 1], x);
    }
  }

  /** Phases of shrinking epsilon; the last one runs at epsilon 1, so the returned assignment is within 1 of
      complementary slackness at the final prices, whether or not `bidGuard` cut it. */
  method RunAuction(ci: seq<seq<int>>, cand: seq<seq<int>>, n: nat, K: nat, epsShrink: real, bidGuard: int)
    returns (assignment: seq<int>, totalRounds: nat, ghost final: Book, ghost stages: seq<Stage>)
    requires |ci| == n && (forall i :: 0 <= i < n ==> |ci[i]| == K) && Market(n, K, Benefits(ci), cand).Valid()
    requires Shrinks(ci, epsShrink)
    ensures |assignment| == n && (forall i :: 0 <= i < n ==> -1 <= assignment[i] < n)
    ensures forall i, j :: 0 <= i < j < n && assignment[i] != -1 ==> assignment[i] != assignment[j]
    ensures Inv(Market(n, K, Benefits(ci), cand), 1, final) && final.a == assignment
    ensures exists top ::
              IsTop(ci, top) && Scales(Market(n, K, Benefits(ci), cand), top, epsShrink, bidGuard, stages)
    ensures stages != [] && stages[|stages| - 1].eps == 1 && stages[|stages| - 1].book == final
    ensures totalRounds == RoundsOf(stages)
    ensures Market(n, K, Benefits(ci), cand).NonNegativeCosts() ==>
      forall bound :: EntriesAtMost(ci, bound) && bidGuard > RoundBound(n, bound) ==>
        NoneUnassigned(final.un) && forall i :: 0 <= i < n && assignment[i] == -1 ==>
          Defected(Market(n, K, Benefits(ci), cand), final.p, i)
  {
    var m := Market(n, K, Benefits(ci), cand);
    var prices, assign, owner := new int[n](_ => 0), new int[n](_ => -1), new int[n](_ => -1);
    var unassigned := new bool[n](_ => true);
    var top := MaxEntry(ci, n, K);
    totalRounds, stages := RunPhases(m, ci, top, epsShrink, bidGuard, prices, assign, owner, unassigned);
    ghost var last := stages[|stages| - 1].rounds;
    assert StageOk(m, bidGuard, stages[|stages| - 1]);
    hide Inv, Defected, NoneUnassigned, Market.NonNegativeCosts, RoundBound, Market.Valid, EntriesAtMost, Scales, IsTop,
        RoundsOf;
    assignment, final := assign[..], BookOf(prices, assign, owner, unassigned);
    FinalBook(m, final);
    NoSharing(n, assign[..], owner[..]);
    NoneCut(m, top, last, bidGuard, final);
  }

  lemma FinalBook(m: Market, s: Book)
    requires m.Valid() && Inv(m, 1, s)
    ensures Inverse(m.n, s.a, s.o) && |s.p| == |s.un| == m.n
  {}

  /** The phases, from the first epsilon down to 1. */
  method RunPhases(m: Market, ghost ci: seq<seq<int>>, top: int, epsShrink: real, bidGuard: int, prices: array<int>,
      assign: array<int>, owner: array<int>, unassigned: array<bool>)
    returns (totalRounds: nat, ghost stages: seq<Stage>)
    requires m.Valid() && prices.Length == assign.Length == owner.Length == unassigned.Length == m.n
    requires prices != assign && assign != owner && prices != owner && forall j :: 0 <= j < m.n ==> prices[j] == 0
    requires Shrinks(ci, epsShrink) && (EntriesAtMost(ci, 7) ==> top <= 7)
    modifies prices, assign, owner, unassigned
    ensures Inv(m, 1, BookOf(prices, assign, owner, unassigned))
    ensures Scales(m, top, epsShrink, bidGuard, stages) && totalRounds == RoundsOf(stages)
    ensures stages != [] && stages[|stages| - 1].eps == 1
        && stages[|stages| - 1].book == BookOf(prices, assign, owner, unassigned)
    ensures m.NonNegativeCosts() ==> stages[|stages| - 1].rounds <= RoundBound(m.n, top) + 1
  {
    hide Inv, NoneUnassigned, Market.Valid, Market.NonNegativeCosts, EntriesAtMost, Scales, RoundsOf, NoneBelow;
    totalRounds, stages := 0, [];
    NoStages(m, top, epsShrink, bidGuard);
    var eps := Max(top / 4, 1);
    ghost var cap := NULL_COST + eps;
    while true
      invariant eps >= 1 && (forall j :: 0 <= j < m.n ==> 0 <= prices[j]) && (EntriesAtMost(ci, 7) ==> eps == 1)
      invariant eps <= cap - NULL_COST && (m.NonNegativeCosts() ==> Capped(prices[..], cap))
      invariant Scales(m, top, epsShrink, bidGuard, stages) && NextEps(top, epsShrink, stages, eps)
      invariant totalRounds == RoundsOf(stages)
      invariant stages != [] ==> stages[|stages| - 1].book.p == prices[..]
      decreases eps
    {
      var rounds;
      rounds, stages := RunStage(m, top, epsShrink, bidGuard, cap, eps, prices, assign, owner, unassigned, stages);
      totalRounds := totalRounds + rounds;
      if eps <= 1 { break; }
      eps := Shrink(eps, epsShrink);
    }
  }

  /** The next epsilon. */
  method Shrink(eps: int, epsShrink: real) returns (next: int)
    requires eps > 1 && (epsShrink > 1.0 || epsShrink < 0.0)
    ensures next == Max((eps as real / epsShrink).Floor, 1) && 1 <= next < eps
  {
    ShrinkLess(eps as real, epsShrink);
    next := Max((eps as real / epsShrink).Floor, 1);
  }

  /** One phase, on record. */
  method RunStage(m: Market, ghost top: int, ghost epsShrink: real, bidGuard: int, ghost cap: int, eps: int,
      prices: array<int>, assign: array<int>, owner: array<int>, unassigned: array<bool>, ghost stages: seq<Stage>)
    returns (rounds: nat, ghost more: seq<Stage>)
    requires m.Valid() && prices.Length == assign.Length == owner.Length == unassigned.Length == m.n
    requires prices != assign && assign != owner && prices != owner && forall j :: 0 <= j < m.n ==> 0 <= prices[j]
    requires Scales(m, top, epsShrink, bidGuard, stages) && NextEps(top, epsShrink, stages, eps) && eps >= 1
    requires stages != [] ==> stages[|stages| - 1].book.p == prices[..]
    modifies prices, assign, owner, unassigned
    ensures Inv(m, eps, BookOf(prices, assign, owner, unassigned)) && Scales(m, top, epsShrink, bidGuard, more)
    ensures more == stages + [Stage(eps, rounds, BookOf(prices, assign, owner, unassigned))]
    ensures RoundsOf(more) == RoundsOf(stages) + rounds && forall j :: 0 <= j < m.n ==> 0 <= prices[j]
    ensures m.NonNegativeCosts() && eps <= cap - NULL_COST && old(Capped(prices[..], cap)) ==>
              Capped(prices[..], cap) && rounds <= m.n * cap + 1
  {
    hide Market.Valid, Market.NonNegativeCosts, Scales, RoundsOf, NoneBelow, Sum, Capped;
    ghost var p0 := prices[..];
    rounds := Phase(m, eps, bidGuard, cap, prices, assign, owner, unassigned);
    ghost var stage := Stage(eps, rounds, BookOf(prices, assign, owner, unassigned));
    NextStage(m, top, epsShrink, bidGuard, stages, stage);
    more := stages + [stage];
    if m.NonNegativeCosts() && eps <= cap - NULL_COST && Capped(p0, cap) {
      MulLe(0, m.n, cap);
      RoundsWithin(rounds, eps, m.n, cap, p0);
    }
  }

  lemma NoStages(m: Market, top: int, epsShrink: real, bidGuard: int)
    requires m.Valid()
    ensures Scales(m, top, epsShrink, bidGuard, []) && RoundsOf([]) == 0
  {}

  /** Most rounds a phase can take when no entry is above `bound`. */
  ghost function RoundBound(n: nat, bound: int): int {
    n * (NULL_COST + Max(bound / 4, 1))
  }

  lemma {:induction false} SumNonNegative(p: seq<int>)
    requires forall j :: 0 <= j < |p| ==> 0 <= p[j]
    ensures Sum(p) >= 0
  {
    if p != [] {
      SumNonNegative(p[1..]);
    }
  }

  lemma RoundsWithin(rounds: nat, eps: int, n: nat, cap: int, p0: seq<int>)
    requires eps >= 1 && (rounds - 1) * eps <= n * cap - Sum(p0) && forall j :: 0 <= j < |p0| ==> 0 <= p0[j]
    requires n * cap >= 0
    ensures rounds <= n * cap + 1
  {
    SumNonNegative(p0);
    if rounds > 1 {
      MulLe(1, eps, rounds - 1);
    }
  }

  /** A guard above the bound cuts no phase, and whoever was not cut off and holds nothing gave up. */
  lemma NoneCut(m: Market, top: int, last: nat, bidGuard: int, s: Book)
    requires m.Valid() && Inv(m, 1, s) && (last <= bidGuard ==> NoneUnassigned(s.un))
    requires m.NonNegativeCosts() ==> last <= RoundBound(m.n, top) + 1
    ensures forall bound :: (m.n > 0 ==> top <= bound) && bidGuard > RoundBound(m.n, bound) && m.NonNegativeCosts() ==>
              NoneUnassigned(s.un) && forall i :: 0 <= i < m.n && s.a[i] == -1 ==> Defected(m, s.p, i)
  {
    forall bound | (m.n > 0 ==> top <= bound) && bidGuard > RoundBound(m.n, bound) && m.NonNegativeCosts()
      ensures NoneUnassigned(s.un) && forall i :: 0 <= i < m.n && s.a[i] == -1 ==> Defected(m, s.p, i)
    {
      if m.n > 0 {
        MulLe(NULL_COST + Max(top / 4, 1), NULL_COST + Max(bound / 4, 1), m.n);
      }
    }
  }

  /** Mutually inverse maps give no object away twice. */
  lemma NoSharing(n: nat, a: seq<int>, o: seq<int>)
    requires Inverse(n, a, o)
    ensures forall i, j :: 0 <= i < j < n && a[i] != -1 ==> a[i] != a[j]
  {
    forall i, j | 0 <= i < j < n && a[i] != -1 ensures a[i] != a[j] {
      assert o[a[i]] == i;
    }
  }
}
