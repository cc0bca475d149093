/** The arithmetic of the largest-remainder method (contributor/engine.go, Allocate), on a list of
    weights. Every weight w[i] has the exact share pool * w[i] / Sum(w). */
module Shares {
  import opened Sorting
  import opened Sums

  ghost predicate Weights(w: seq<int>) {
    Sum(w) > 0 && forall i | 0 <= i < |w| :: w[i] >= 0
  }

  function Products(pool: nat, w: seq<int>): seq<int> {
    seq(|w|, i requires 0 <= i < |w| => pool * w[i])
  }

  function DivideAll(nums: seq<int>, total: int): seq<int>
    requires total > 0
  {
    seq(|nums|, i requires 0 <= i < |nums| => nums[i] / total)
  }

  function ModuloAll(nums: seq<int>, total: int): seq<int>
    requires total > 0
  {
    seq(|nums|, i requires 0 <= i < |nums| => nums[i] % total)
  }

  function Quotients(pool: nat, w: seq<int>): seq<int>
    requires Sum(w) > 0
  {
    DivideAll(Products(pool, w), Sum(w))
  }

  function Remainders(pool: nat, w: seq<int>): seq<int>
    requires Sum(w) > 0
  {
    ModuloAll(Products(pool, w), Sum(w))
  }

  function Leftover(pool: nat, w: seq<int>): int
    requires Sum(w) > 0
  {
    pool - Sum(Quotients(pool, w))
  }

  function Indices(n: nat): seq<nat> {
    seq(n, i => i)
  }

  function ByRemainder(r: seq<int>): (nat, nat) -> bool {
    (a: nat, b: nat) => a < |r| && b < |r| && r[a] >= r[b]
  }

  // The indices by descending remainder, ties in index order.
  function Order(r: seq<int>): (order: seq<nat>)
    ensures |order| == |r|
  {
    SortPermutes(Indices(|r|), ByRemainder(r));
    SameElements(Sort(Indices(|r|), ByRemainder(r)), Indices(|r|));
    Sort(Indices(|r|), ByRemainder(r))
  }

  // The first k indices of the order: those that receive a leftover cent.
  ghost function Winners(r: seq<int>, k: nat): set<nat>
    requires k <= |r|
  {
    Elements(Order(r)[..k])
  }

  ghost function Elements(s: seq<nat>): set<nat> {
    set i | i in s
  }

  ghost function Allotted(pool: nat, w: seq<int>): seq<int>
    requires Weights(w)
  {
    LeftoverBound(pool, w);
    var q, wins := Quotients(pool, w), Winners(Remainders(pool, w), Leftover(pool, w));
    seq(|w|, i requires 0 <= i < |w| => q[i] + if i in wins then 1 else 0)
  }

  ghost predicate Beats(r: seq<int>, i: nat, j: nat) {
    i < |r| && j < |r| && (r[i] > r[j] || (r[i] == r[j] && i < j))
  }

  ghost predicate Ranked(r: seq<int>, order: seq<nat>) {
    && (forall x: nat :: x in order <==> x < |r|)
    && (forall a, b | 0 <= a < b < |order| :: Beats(r, order[a], order[b]))
  }

  lemma IndexIn(x: nat, n: nat)
    ensures x in Indices(n) <==> x < n
  {
    assert x < n ==> Indices(n)[x] == x;
  }

  lemma OrderIsRanking(r: seq<int>)
    ensures Ranked(r, Order(r))
  {
    var all := Indices(|r|);
    var order := Sort(all, ByRemainder(r));
    assert Order(r) == order;
    var before := (a: nat, b: nat) => a < b;
    SortPermutes(all, ByRemainder(r));
    SameElements(order, all);
    SortIsStable(all, ByRemainder(r), before);
    forall x: nat ensures x in order <==> x < |r| {
      IndexIn(x, |r|);
      assert x in order <==> x in all;
    }
    forall a, b | 0 <= a < b < |order| ensures Beats(r, order[a], order[b]) {
      assert order[a] in order && order[b] in order;
      assert ByRemainder(r)(order[a], order[b]);
      assert ByRemainder(r)(order[b], order[a]) ==> before(order[a], order[b]);
    }
  }

  lemma {:induction false} DistinctPrefix(s: seq<nat>, k: nat)
    requires k <= |s| && forall a, b | 0 <= a < b < |s| :: s[a] != s[b]
    ensures |Elements(s[..k])| == k
  {
    if k > 0 {
      var shorter, longer := s[..k - 1], s[..k];
      DistinctPrefix(s, k - 1);
      assert longer == shorter + [s[k - 1]];
      assert Elements(longer) == Elements(shorter) + {s[k - 1]};
    }
  }

  lemma WinnersBeatTheRest(r: seq<int>, k: nat)
    requires k <= |r|
    ensures |Winners(r, k)| == k
    ensures forall i | i in Winners(r, k) :: i < |r|
    ensures forall i, j: nat | i in Winners(r, k) && j < |r| && j !in Winners(r, k) ::
              Beats(r, i, j)
  {
    OrderIsRanking(r);
    DistinctPrefix(Order(r), k);
    var leaders := Order(r)[..k];
    forall i | i in Winners(r, k) ensures i < |r| {
      assert i in leaders;
      assert i in Order(r);
    }
    forall i, j: nat | i in Winners(r, k) && j < |r| && j !in Winners(r, k)
      ensures Beats(r, i, j)
    {
      var a :| 0 <= a < k && leaders[a] == i;
      assert j in Order(r);
      var b :| 0 <= b < |r| && Order(r)[b] == j;
      assert b < k ==> j in leaders;
      assert Order(r)[a] == i;
    }
  }

  // ----- how many cents are left over

  ghost predicate Divided(pool: int, w: seq<int>, total: int, q: seq<int>, r: seq<int>) {
    |q| == |r| == |w| && forall i | 0 <= i < |w| :: q[i] * total + r[i] == pool * w[i] && 0 <= r[i] < total
  }

  lemma {:induction false} Divides(pool: nat, w: seq<int>)
    requires Weights(w)
    ensures Divided(pool, w, Sum(w), Quotients(pool, w), Remainders(pool, w))
    ensures forall i | 0 <= i < |w| :: Quotients(pool, w)[i] >= 0
  {
    forall i | 0 <= i < |w| ensures Products(pool, w)[i] == pool * w[i] >= 0 {
      ProductSign(pool, w[i]);
    }
    DivideAllDivides(Products(pool, w), Sum(w));
  }

  lemma DivideAllDivides(nums: seq<int>, total: int)
    requires total > 0 && forall i | 0 <= i < |nums| :: nums[i] >= 0
    ensures forall i | 0 <= i < |nums| ::
              && DivideAll(nums, total)[i] * total + ModuloAll(nums, total)[i] == nums[i]
              && 0 <= ModuloAll(nums, total)[i] < total && DivideAll(nums, total)[i] >= 0
  {
    forall i | 0 <= i < |nums|
      ensures DivideAll(nums, total)[i] * total + ModuloAll(nums, total)[i] == nums[i]
      ensures 0 <= ModuloAll(nums, total)[i] < total && DivideAll(nums, total)[i] >= 0
    {
      Division(nums[i], total);
    }
  }

  lemma Division(num: nat, total: int)
    requires total > 0
    ensures (num / total) * total + num % total == num && 0 <= num % total < total && num / total >= 0
  {
  }

  lemma {:induction false} DividedSums(pool: int, w: seq<int>, total: int, q: seq<int>, r: seq<int>)
    requires Divided(pool, w, total, q, r)
    ensures Sum(q) * total + Sum(r) == pool * Sum(w)
  {
    if w != [] {
      var n := |w| - 1;
      DividedSums(pool, w[..n], total, q[..n], r[..n]);
      assert (Sum(q[..n]) + q[n]) * total == Sum(q[..n]) * total + q[n] * total;
      assert pool * (Sum(w[..n]) + w[n]) == pool * Sum(w[..n]) + pool * w[n];
    }
  }

  ghost function Inexact(r: seq<int>): set<nat> {
    set i: nat | i < |r| && r[i] > 0
  }

  lemma {:induction false} RemaindersBelow(r: seq<int>, total: int)
    requires forall i | 0 <= i < |r| :: 0 <= r[i] < total
    ensures 0 <= Sum(r) <= (total - 1) * |Inexact(r)|
  {
    if r != [] {
      var n := |r| - 1;
      RemaindersBelow(r[..n], total);
      if r[n] > 0 {
        assert Inexact(r) == Inexact(r[..n]) + {n};
        assert (total - 1) * (|Inexact(r[..n])| + 1) == (total - 1) * |Inexact(r[..n])| + (total - 1);
      } else {
        assert Inexact(r) == Inexact(r[..n]);
      }
    }
  }

  lemma {:induction false} BoundedSetSize(s: set<nat>, n: nat)
    requires forall i | i in s :: i < n
    ensures |s| <= n
  {
    if n > 0 {
      BoundedSetSize(s - {n - 1}, n - 1);
    } else {
      assert s == {};
    }
  }

  lemma LeftoverTimesTotal(left: int, total: int, sum: int, m: nat)
    requires left * total == sum && 0 <= sum <= (total - 1) * m && total > 0
    ensures 0 <= left <= m && (left == 0 || left < m)
  {
    assert left >= 0 by { assert left < 0 ==> left * total < 0; }
    assert (total - 1) * m == m * total - m;
    assert left >= m ==> left * total >= m * total;
  }

  // The leftover is zero, or below the number of inexact shares: it never runs past the order.
  lemma LeftoverBound(pool: nat, w: seq<int>)
    requires Weights(w)
    ensures 0 <= Leftover(pool, w) <= |w|
    ensures Leftover(pool, w) == 0 || Leftover(pool, w) < |Inexact(Remainders(pool, w))|
  {
    var q, r, total := Quotients(pool, w), Remainders(pool, w), Sum(w);
    Divides(pool, w);
    DividedSums(pool, w, total, q, r);
    RemaindersBelow(r, total);
    BoundedSetSize(Inexact(r), |w|);
    assert (pool - Sum(q)) * total == pool * total - Sum(q) * total;
    LeftoverTimesTotal(pool - Sum(q), total, Sum(r), |Inexact(r)|);
  }

  // ----- conservation

  lemma {:induction false} SumWithBonus(q: seq<int>, wins: set<nat>, s: seq<int>)
    requires |s| == |q| && forall i | 0 <= i < |q| :: s[i] == q[i] + if i in wins then 1 else 0
    requires forall i | i in wins :: i < |q|
    ensures Sum(s) == Sum(q) + |wins|
  {
    if q == [] {
      assert wins == {};
    } else {
      var n := |q| - 1;
      SumWithBonus(q[..n], wins - {n}, s[..n]);
      assert n in wins ==> |wins - {n}| == |wins| - 1;
      assert n !in wins ==> wins - {n} == wins;
    }
  }

  // Exactly the pool is handed out. Each amount is the floor of its exact share or the floor
  // plus one, and an integral share is paid exactly.
  lemma {:induction false} AllottedIsExact(pool: nat, w: seq<int>)
    requires Weights(w)
    ensures |Allotted(pool, w)| == |w| && Sum(Allotted(pool, w)) == pool
    ensures forall i | 0 <= i < |w| :: 0 <= Allotted(pool, w)[i]
    ensures forall i | 0 <= i < |w| :: Allotted(pool, w)[i] * Sum(w) < pool * w[i] + Sum(w)
    ensures forall i | 0 <= i < |w| :: pool * w[i] - Sum(w) < Allotted(pool, w)[i] * Sum(w)
    ensures forall i | 0 <= i < |w| && pool * w[i] % Sum(w) == 0 ::
              Allotted(pool, w)[i] * Sum(w) == pool * w[i]
  {
    var q, r, total, left := Quotients(pool, w), Remainders(pool, w), Sum(w), Leftover(pool, w);
    LeftoverBound(pool, w);
    var wins, s := Winners(r, left), Allotted(pool, w);
    WinnersBeatTheRest(r, left);
    SumWithBonus(q, wins, s);
    Divides(pool, w);
    forall i | 0 <= i < |w|
      ensures s[i] >= 0
      ensures pool * w[i] - total < s[i] * total < pool * w[i] + total
      ensures r[i] == 0 ==> s[i] * total == pool * w[i]
    {
      assert q[i] * total + r[i] == pool * w[i];
      assert (q[i] + 1) * total == q[i] * total + total;
      WinnersAreInexact(pool, w, i);
    }
  }

  lemma WinnersAreInexact(pool: nat, w: seq<int>, i: nat)
    requires Weights(w) && i < |w|
    ensures 0 <= Leftover(pool, w) <= |w|
    ensures i in Winners(Remainders(pool, w), Leftover(pool, w)) ==> Remainders(pool, w)[i] > 0
  {
    var r, left := Remainders(pool, w), Leftover(pool, w);
    LeftoverBound(pool, w);
    WinnersBeatTheRest(r, left);
    Divides(pool, w);
    if i in Winners(r, left) && r[i] == 0 {
      assert left > 0;
      forall j | j in Inexact(r) ensures j in Winners(r, left) {
        assert r[j] > r[i];
      }
      SubsetSize(Inexact(r), Winners(r, left));
    }
  }

  lemma {:induction false} SubsetSize<T>(s: set<T>, t: set<T>)
    requires s <= t
    ensures |s| <= |t|
  {
    if s != {} {
      var x :| x in s;
      SubsetSize(s - {x}, t - {x});
    }
  }

  // ----- fairness

  lemma ProductSign(a: int, b: int)
    requires a >= 0 && b >= 0
    ensures a * b >= 0
  {
  }

  lemma ProductGrows(a: nat, b: nat)
    requires b > 0
    ensures a * b >= a
  {
    ProductSign(a, b - 1);
    assert a * (b - 1) == a * b - a;
  }

  // Dividing by one total keeps the order of the dividends.
  lemma DividendsCompare(q: int, r: int, q': int, r': int, total: int)
    requires 0 <= r < total && 0 <= r' < total && q * total + r >= q' * total + r'
    ensures q > q' || (q == q' && r >= r')
  {
    assert q < q' ==> (q + 1) * total <= q' * total;
    assert (q + 1) * total == q * total + total;
  }

  lemma {:induction false} AllottedParts(pool: nat, w: seq<int>, i: nat)
    requires Weights(w) && i < |w|
    ensures 0 <= Leftover(pool, w) <= |w|
    ensures Quotients(pool, w)[i] * Sum(w) + Remainders(pool, w)[i] == pool * w[i]
    ensures 0 <= Remainders(pool, w)[i] < Sum(w)
    ensures Allotted(pool, w)[i] == Quotients(pool, w)[i]
              + if i in Winners(Remainders(pool, w), Leftover(pool, w)) then 1 else 0
  {
    LeftoverBound(pool, w);
    Divides(pool, w);
  }

  // More credits never earn less, and equal credits differ by at most a cent, which goes to
  // the earlier account.
  lemma AllottedIsFair(pool: nat, w: seq<int>, i: nat, j: nat)
    requires Weights(w) && i < |w| && j < |w|
    ensures w[i] > w[j] ==> Allotted(pool, w)[i] >= Allotted(pool, w)[j]
    ensures w[i] == w[j] && i < j ==>
              Allotted(pool, w)[j] <= Allotted(pool, w)[i] <= Allotted(pool, w)[j] + 1
  {
    var q, r, total := Quotients(pool, w), Remainders(pool, w), Sum(w);
    AllottedParts(pool, w, i);
    AllottedParts(pool, w, j);
    WinnersAreInexact(pool, w, j);
    WinnersBeatTheRest(r, Leftover(pool, w));
    if w[i] > w[j] {
      ProductSign(pool, w[i] - w[j]);
      assert pool * (w[i] - w[j]) == pool * w[i] - pool * w[j];
      DividendsCompare(q[i], r[i], q[j], r[j], total);
      if q[i] == q[j] && r[i] == r[j] {
        NoPoolNoRemainder(pool, w, i, j);
      }
    } else if w[i] == w[j] {
      DividendsCompare(q[i], r[i], q[j], r[j], total);
      DividendsCompare(q[j], r[j], q[i], r[i], total);
    }
  }

  lemma NoPoolNoRemainder(pool: nat, w: seq<int>, i: nat, j: nat)
    requires Weights(w) && i < |w| && j < |w| && w[i] > w[j] && pool * (w[i] - w[j]) == 0
    ensures Remainders(pool, w)[j] == 0
  {
    ProductGrows(pool, w[i] - w[j]);
  }

  // ----- optimality

  function Abs(x: int): nat {
    if x < 0 then -x else x
  }

  // How far amounts stray from the exact shares, in units of 1 / Sum(w) cents.
  ghost function Deviation(amounts: seq<int>, pool: int, w: seq<int>, total: int): int
    requires |amounts| == |w|
  {
    if w == [] then 0
    else
      var n := |w| - 1;
      Deviation(amounts[..n], pool, w[..n], total) + Abs(amounts[n] * total - pool * w[n])
  }

  // With price p on a cent, paying the quotient is as good as paying any other amount,
  lemma LoserIsOptimal(total: int, r: int, p: int, d: int)
    requires 0 <= r < total && -total <= p <= total - 2 * r
    ensures Abs(d * total - r) - p * d >= r
  {
    Spread(total, r, p, d);
    if d > 0 {
      ProductSign(total - 2 * r - p, d);
      ProductSign(r, d - 1);
    } else {
      ProductSign(p + total, -d);
    }
  }

  lemma Spread(total: int, r: int, p: int, d: int)
    ensures (total - 2 * r - p) * d == d * total - 2 * (r * d) - p * d
    ensures r * (d - 1) == r * d - r && (p + total) * -d == -(p * d) - d * total
  {
  }

  // ... and, when the remainder is large, so is paying a cent more.
  lemma WinnerIsOptimal(total: int, r: int, p: int, d: int)
    requires 0 <= r < total && total - 2 * r <= p <= total
    ensures Abs(d * total - r) - p * d >= total - r - p
  {
    if d > 0 {
      ProductSign(total - p, d - 1);
      assert (total - p) * (d - 1) == d * total - total - p * d + p;
    } else {
      ProductSign(p + total, -d);
      assert (p + total) * -d == -(p * d) - d * total;
    }
  }

  lemma AmountIsOptimal(total: int, q: int, r: int, e: int, p: int, x: int, a: int, wins: bool)
    requires 0 <= r < total && -total <= p <= total && q * total + r == e
    requires if wins then total - 2 * r <= p else p <= total - 2 * r
    requires a == q + if wins then 1 else 0
    ensures Abs(x * total - e) - p * x >= Abs(a * total - e) - p * a
  {
    Shifted(q, total, p, x);
    Shifted(q, total, p, a);
    if wins {
      WinnerIsOptimal(total, r, p, x - q);
    } else {
      LoserIsOptimal(total, r, p, x - q);
    }
  }

  lemma Shifted(q: int, total: int, p: int, x: int)
    ensures x * total == q * total + (x - q) * total && p * x == p * q + p * (x - q)
  {
  }

  lemma {:induction false} PricedDeviation(
    a: seq<int>, x: seq<int>, pool: int, w: seq<int>, total: int, p: int)
    requires |a| == |x| == |w|
    requires forall i | 0 <= i < |w| ::
               Abs(x[i] * total - pool * w[i]) - p * x[i] >= Abs(a[i] * total - pool * w[i]) - p * a[i]
    ensures Deviation(x, pool, w, total) - p * Sum(x) >= Deviation(a, pool, w, total) - p * Sum(a)
  {
    if w != [] {
      var n := |w| - 1;
      PricedDeviation(a[..n], x[..n], pool, w[..n], total, p);
      assert p * (Sum(x[..n]) + x[n]) == p * Sum(x[..n]) + p * x[n];
      assert p * (Sum(a[..n]) + a[n]) == p * Sum(a[..n]) + p * a[n];
    }
  }

  // The price at which winners just buy their extra cent.
  lemma ThresholdPrice(r: seq<int>, k: nat, total: int) returns (p: int)
    requires k <= |r| && total > 0 && forall i | 0 <= i < |r| :: 0 <= r[i] < total
    ensures -total <= p <= total
    ensures forall i | 0 <= i < |r| && i in Winners(r, k) :: total - 2 * r[i] <= p
    ensures forall i | 0 <= i < |r| && i !in Winners(r, k) :: p <= total - 2 * r[i]
  {
    OrderIsRanking(r);
    WinnersBeatTheRest(r, k);
    if k == 0 {
      p := -total;
    } else {
      var last, leaders := Order(r)[k - 1], Order(r)[..k];
      assert last in Order(r);
      assert leaders[k - 1] == last;
      assert last in Winners(r, k);
      p := total - 2 * r[last];
      forall i | 0 <= i < |r| && i in Winners(r, k) ensures r[i] >= r[last] {
        var a :| 0 <= a < k && leaders[a] == i;
        assert a < k - 1 ==> Beats(r, Order(r)[a], Order(r)[k - 1]);
      }
    }
  }

  // Amounts that pay a cent more than the quotient exactly where the remainder is worth it.
  lemma {:induction false} SplitIsOptimal(pool: int, w: seq<int>, total: int, q: seq<int>, r: seq<int>, wins: set<nat>,
                       a: seq<int>, p: int, x: seq<int>)
    requires Divided(pool, w, total, q, r) && |a| == |x| == |w| && Sum(a) == Sum(x)
    requires -total <= p <= total && forall i: nat | i < |w| :: a[i] == q[i] + if i in wins then 1 else 0
    requires forall i: nat | i < |w| :: if i in wins then total - 2 * r[i] <= p else p <= total - 2 * r[i]
    ensures Deviation(a, pool, w, total) <= Deviation(x, pool, w, total)
  {
    forall i: nat | i < |w|
      ensures Abs(x[i] * total - pool * w[i]) - p * x[i] >= Abs(a[i] * total - pool * w[i]) - p * a[i]
    {
      AmountIsOptimal(total, q[i], r[i], pool * w[i], p, x[i], a[i], i in wins);
    }
    PricedDeviation(a, x, pool, w, total, p);
  }

  // No other integer amounts that add up to the pool stray less from the exact shares.
  lemma {:induction false} AllottedIsOptimal(pool: nat, w: seq<int>, x: seq<int>)
    requires Weights(w) && |x| == |w| && Sum(x) == pool
    ensures |Allotted(pool, w)| == |w|
    ensures Deviation(Allotted(pool, w), pool, w, Sum(w)) <= Deviation(x, pool, w, Sum(w))
  {
    var q, r, left := Quotients(pool, w), Remainders(pool, w), Leftover(pool, w);
    LeftoverBound(pool, w);
    Divides(pool, w);
    AllottedIsExact(pool, w);
    var p := ThresholdPrice(r, left, Sum(w));
    SplitIsOptimal(pool, w, Sum(w), q, r, Winners(r, left), Allotted(pool, w), p, x);
  }
}

/** contributor/engine.go: Allocate, over accounts and their credits. */
module Allocation {
  import opened Lex
  import opened Results
  import opened Shares
  import opened Sorting
  import opened Sums

  datatype Entitlement = Entitlement(account: string, credits: int, amountCents: int)

  datatype AllocateError = NegativePool | NegativeCredits

  type Credits = map<string, int>

  function CreditsOf(credits: Credits): string -> int {
    (account: string) => if account in credits then credits[account] else 0
  }

  function AmountOf(): Entitlement -> int {
    (e: Entitlement) => e.amountCents
  }

  ghost function Listed(s: set<string>): seq<string> {
    if s == {} then [] else var x :| x in s; [x] + Listed(s - {x})
  }

  // The accounts with positive credits, in Go's string order.
  ghost function Accounts(credits: Credits): seq<string> {
    Sort(Listed(set a | a in credits && credits[a] > 0), LessEq)
  }

  function WeightsOf(accounts: seq<string>, credits: Credits): seq<int> {
    seq(|accounts|, i requires 0 <= i < |accounts| => CreditsOf(credits)(accounts[i]))
  }

  ghost function Entitled(accounts: seq<string>, w: seq<int>, amounts: seq<int>): seq<Entitlement>
    requires |accounts| == |w| == |amounts|
  {
    seq(|accounts|, i requires 0 <= i < |accounts| => Entitlement(accounts[i], w[i], amounts[i]))
  }

  ghost function AllocationOf(pool: int, credits: Credits): Result<seq<Entitlement>, AllocateError> {
    if pool < 0 then Err(NegativePool)
    else if exists a | a in credits :: credits[a] < 0 then Err(NegativeCredits)
    else
      var accounts := Accounts(credits);
      var w := WeightsOf(accounts, credits);
      if accounts == [] then Ok([])
      else
        AccountsAscend(credits);
        PositiveWeights(accounts, credits);
        AllottedIsExact(pool, w);
        Ok(Entitled(accounts, w, Allotted(pool, w)))
  }

  ghost predicate Distinct(s: seq<string>) {
    forall i, j | 0 <= i < j < |s| :: s[i] != s[j]
  }

  lemma {:induction false} SortAccounts(s: seq<string>)
    requires Distinct(s)
    ensures Ordered(Sort(s, LessEq), Less)
    ensures multiset(Sort(s, LessEq)) == multiset(s)
    ensures forall x :: x in Sort(s, LessEq) <==> x in s
  {
    var before := (x: string, y: string) => x != y;
    forall x, y ensures LessEq(x, y) || LessEq(y, x) {
      LessTrichotomy(x, y);
    }
    forall x, y, z | LessEq(x, y) && LessEq(y, z) ensures LessEq(x, z) {
      if Less(x, y) && Less(y, z) { LessTransitive(x, y, z); }
    }
    SortIsStable(s, LessEq, before);
    SortPermutes(s, LessEq);
    SameElements(Sort(s, LessEq), s);
    var t := Sort(s, LessEq);
    forall i, j | 0 <= i < j < |t| ensures Less(t[i], t[j]) {
      assert LessEq(t[i], t[j]) && (LessEq(t[j], t[i]) ==> before(t[i], t[j]));
    }
  }

  lemma {:induction false} ListedElements(s: set<string>)
    ensures Distinct(Listed(s))
    ensures forall x :: x in Listed(s) <==> x in s
  {
    if s != {} {
      var x :| x in s && Listed(s) == [x] + Listed(s - {x});
      ListedElements(s - {x});
    }
  }

  lemma AccountsAscend(credits: Credits)
    ensures Ordered(Accounts(credits), Less)
    ensures forall a :: a in Accounts(credits) <==> a in credits && credits[a] > 0
  {
    var s := set a | a in credits && credits[a] > 0;
    ListedElements(s);
    SortAccounts(Listed(s));
  }

  // There is one ascending list of the accounts with positive credits.
  lemma AccountsUnique(accounts: seq<string>, credits: Credits)
    requires Ordered(accounts, Less)
    requires forall a :: a in accounts <==> a in credits && credits[a] > 0
    ensures accounts == Accounts(credits)
  {
    AccountsAscend(credits);
    forall x, y ensures !(Less(x, y) && Less(y, x)) {
      LessTrichotomy(x, y);
    }
    AscendingUnique(accounts, Accounts(credits), Less);
  }

  lemma {:induction false} SumOfWeights(accounts: seq<string>, credits: Credits)
    ensures Sum(WeightsOf(accounts, credits)) == SumBy(accounts, CreditsOf(credits))
  {
    if accounts != [] {
      var n := |accounts| - 1;
      SumOfWeights(accounts[..n], credits);
      assert WeightsOf(accounts, credits)[..n] == WeightsOf(accounts[..n], credits);
    }
  }

  lemma {:induction false} PositiveWeights(accounts: seq<string>, credits: Credits)
    requires accounts != []
    requires forall a | a in accounts :: a in credits && credits[a] > 0
    ensures Weights(WeightsOf(accounts, credits))
    ensures SumBy(accounts, CreditsOf(credits)) > 0
  {
    SumOfWeights(accounts, credits);
    SumByBounds(accounts, CreditsOf(credits));
    assert accounts[0] in accounts;
    forall i | 0 <= i < |accounts| ensures WeightsOf(accounts, credits)[i] >= 0 {
      assert accounts[i] in accounts;
    }
  }

  lemma NoEarlierWinner(r: seq<int>, i: nat)
    requires i < |r|
    ensures Order(r)[i] < |r| && Order(r)[i] !in Winners(r, i)
    ensures Winners(r, i + 1) == Winners(r, i) + {Order(r)[i]}
  {
    OrderIsRanking(r);
    var leaders, more := Order(r)[..i], Order(r)[..i + 1];
    assert Order(r)[i] in Order(r);
    assert more == leaders + [Order(r)[i]];
    forall k | 0 <= k < i ensures leaders[k] != Order(r)[i] {
      assert Beats(r, Order(r)[k], Order(r)[i]);
    }
  }

  // Gathers the accounts with positive credits, in whatever order the map is read, and the sum
  // of their credits.
  method Gather(credits: Credits) returns (negative: bool, accounts: seq<string>, total: int)
    ensures negative <==> exists a | a in credits :: credits[a] < 0
    ensures !negative ==> Distinct(accounts) && total == SumBy(accounts, CreditsOf(credits))
    ensures !negative ==> forall a :: a in accounts <==> a in credits && credits[a] > 0
  {
    negative, accounts, total := false, [], 0;
    var pending := credits.Keys;
    while pending != {}
      invariant pending <= credits.Keys
      invariant forall a | a in credits && a !in pending :: credits[a] >= 0
      invariant Distinct(accounts)
      invariant forall a :: a in accounts <==> a in credits && a !in pending && credits[a] > 0
      invariant total == SumBy(accounts, CreditsOf(credits))
      decreases |pending|
    {
      var account :| account in pending;
      pending := pending - {account};
      var c := credits[account];
      if c < 0 {
        return true, [], 0;
      }
      if c != 0 {
        SumByAppend(accounts, account, CreditsOf(credits));
        accounts := accounts + [account];
        total := total + c;
      }
    }
  }

  // One more cent for each of the first `leftover` accounts of the order.
  method PayLeftover(ents: array<Entitlement>, ghost r: seq<int>, order: seq<nat>, leftover: nat)
    requires |r| == ents.Length && order == Order(r) && leftover <= |r|
    modifies ents
    ensures forall k: nat | k < |r| :: ents[k] == old(ents[k]).(amountCents :=
              old(ents[k].amountCents) + if k in Winners(r, leftover) then 1 else 0)
  {
    OrderIsRanking(r);
    for i := 0 to leftover
      invariant forall k: nat | k < |r| :: ents[k] == old(ents[k]).(amountCents :=
                  old(ents[k].amountCents) + if k in Winners(r, i) then 1 else 0)
    {
      NoEarlierWinner(r, i);
      ents[order[i]] := ents[order[i]].(amountCents := ents[order[i]].amountCents + 1);
    }
  }

  lemma WeightAt(accounts: seq<string>, credits: Credits, i: nat)
    requires i < |accounts| && forall a | a in accounts :: a in credits
    ensures accounts[i] in credits && WeightsOf(accounts, credits)[i] == credits[accounts[i]]
  {
    assert accounts[i] in accounts;
    assert CreditsOf(credits)(accounts[i]) == credits[accounts[i]];
  }

  // Floors every exact share.
  method FloorShares(poolCents: nat, accounts: seq<string>, credits: Credits, total: int)
    returns (ents: array<Entitlement>, remainders: seq<int>, handedOut: int)
    requires forall a | a in accounts :: a in credits
    requires total == Sum(WeightsOf(accounts, credits)) > 0
    ensures fresh(ents) && ents[..] == Entitled(accounts, WeightsOf(accounts, credits),
                                                Quotients(poolCents, WeightsOf(accounts, credits)))
    ensures remainders == Remainders(poolCents, WeightsOf(accounts, credits))
    ensures handedOut == Sum(Quotients(poolCents, WeightsOf(accounts, credits)))
  {
    ghost var w := WeightsOf(accounts, credits);
    ghost var nums := Products(poolCents, w);
    ghost var q, r := DivideAll(nums, total), ModuloAll(nums, total);
    var n := |accounts|;
    ents := new Entitlement[n];
    remainders, handedOut := [], 0;
    for i := 0 to n
      invariant forall k | 0 <= k < i :: ents[k] == Entitlement(accounts[k], w[k], q[k])
      invariant remainders == r[..i] && handedOut == Sum(q[..i])
    {
      WeightAt(accounts, credits, i);
      var num := poolCents * credits[accounts[i]];
      assert num == nums[i];
      ents[i] := Entitlement(accounts[i], credits[accounts[i]], num / total);
      remainders := remainders + [num % total];
      SumSnoc(q, i);
      handedOut := handedOut + ents[i].amountCents;
    }
    assert q[..n] == q;
  }

  // Floors every exact share and pays the leftover cents to the largest remainders.
  method Divide(poolCents: nat, accounts: seq<string>, credits: Credits, total: int)
    returns (ents: array<Entitlement>)
    requires forall a | a in accounts :: a in credits
    requires Weights(WeightsOf(accounts, credits)) && total == Sum(WeightsOf(accounts, credits))
    ensures |Allotted(poolCents, WeightsOf(accounts, credits))| == |accounts|
    ensures ents[..] == Entitled(accounts, WeightsOf(accounts, credits),
                                 Allotted(poolCents, WeightsOf(accounts, credits)))
  {
    ghost var w := WeightsOf(accounts, credits);
    LeftoverBound(poolCents, w);
    var remainders, handedOut;
    ents, remainders, handedOut := FloorShares(poolCents, accounts, credits, total);
    var order := Sort(Indices(ents.Length), ByRemainder(remainders));
    ghost var q := Quotients(poolCents, w);
    assert forall k | 0 <= k < |w| :: ents[..][k] == Entitlement(accounts[k], w[k], q[k]);
    PayLeftover(ents, Remainders(poolCents, w), order, poolCents - handedOut);
  }

  /** Splits poolCents among the accounts, whatever order the map is read in. */
  method Allocate(poolCents: int, credits: Credits)
    returns (r: Result<seq<Entitlement>, AllocateError>)
    ensures r == AllocationOf(poolCents, credits)
  {
    if poolCents < 0 {
      return Err(NegativePool);
    }
    var negative, accounts, total := Gather(credits);
    if negative {
      return Err(NegativeCredits);
    }
    ghost var unsorted := accounts;
    SortAccounts(accounts);
    accounts := Sort(accounts, LessEq);
    AccountsUnique(accounts, credits);
    SumByPermutation(accounts, unsorted, CreditsOf(credits));
    if accounts != [] {
      PositiveWeights(accounts, credits);
      SumOfWeights(accounts, credits);
    }
    if total == 0 {
      return Ok([]);
    }
    assert accounts != [];
    var ents := Divide(poolCents, accounts, credits, total);
    return Ok(ents[..]);
  }

  // ----- what an allocation means

  ghost predicate ByAccount(ents: seq<Entitlement>) {
    forall i, j | 0 <= i < j < |ents| :: Less(ents[i].account, ents[j].account)
  }

  lemma {:induction false} SumOfAmounts(accounts: seq<string>, w: seq<int>, amounts: seq<int>)
    requires |accounts| == |w| == |amounts|
    ensures SumBy(Entitled(accounts, w, amounts), AmountOf()) == Sum(amounts)
  {
    if accounts != [] {
      var n := |accounts| - 1;
      SumOfAmounts(accounts[..n], w[..n], amounts[..n]);
      assert Entitled(accounts, w, amounts)[..n] == Entitled(accounts[..n], w[..n], amounts[..n]);
    }
  }

  // What every allocation is made of: the accounts with positive credits in ascending order,
  // their credits, and the amounts of the largest-remainder method.
  lemma AllocationParts(pool: int, credits: Credits, ents: seq<Entitlement>)
    requires AllocationOf(pool, credits) == Ok(ents)
    ensures pool >= 0 && ByAccount(ents)
    ensures forall a | a in credits :: credits[a] >= 0
    ensures ents == [] <==> Accounts(credits) == []
    ensures ents != [] ==>
              var w := WeightsOf(Accounts(credits), credits);
              Weights(w) && |Allotted(pool, w)| == |w| == |Accounts(credits)|
              && ents == Entitled(Accounts(credits), w, Allotted(pool, w))
  {
    AccountsAscend(credits);
    var accounts := Accounts(credits);
    if accounts != [] {
      PositiveWeights(accounts, credits);
      AllottedIsExact(pool, WeightsOf(accounts, credits));
    }
  }

  // Every account with positive credits gets one entitlement, which records them.
  lemma AllocationListsCredits(pool: int, credits: Credits, ents: seq<Entitlement>)
    requires AllocationOf(pool, credits) == Ok(ents)
    ensures ByAccount(ents)
    ensures forall i | 0 <= i < |ents| ::
              ents[i].account in credits && 0 < credits[ents[i].account] == ents[i].credits
    ensures forall a | a in credits && credits[a] > 0 :: exists i :: 0 <= i < |ents| && ents[i].account == a
    ensures ents == [] <==> forall a | a in credits :: credits[a] == 0
  {
    AllocationParts(pool, credits, ents);
    AccountsAscend(credits);
    var accounts := Accounts(credits);
    forall i | 0 <= i < |ents|
      ensures ents[i].account in credits && 0 < credits[ents[i].account] == ents[i].credits
    {
      assert accounts[i] in accounts;
      assert ents[i].credits == CreditsOf(credits)(accounts[i]);
    }
    forall a | a in credits && credits[a] > 0
      ensures exists i :: 0 <= i < |ents| && ents[i].account == a
    {
      assert a in accounts;
      var i :| 0 <= i < |accounts| && accounts[i] == a;
      assert ents[i].account == a;
    }
  }

  // The whole pool is handed out as soon as one account has credits.
  lemma {:induction false} AllocationConserves(pool: int, credits: Credits, ents: seq<Entitlement>)
    requires AllocationOf(pool, credits) == Ok(ents)
    ensures SumBy(ents, AmountOf()) == if ents == [] then 0 else pool
    ensures forall i | 0 <= i < |ents| :: ents[i].amountCents >= 0
  {
    AllocationParts(pool, credits, ents);
    if ents != [] {
      var w := WeightsOf(Accounts(credits), credits);
      AllottedIsExact(pool, w);
      SumOfAmounts(Accounts(credits), w, Allotted(pool, w));
    }
  }

  function CreditsIn(): Entitlement -> int {
    (e: Entitlement) => e.credits
  }

  // Each amount is within a cent of its exact share pool * credits / total, and equal to it
  // when the share is a whole number of cents.
  lemma AllocationIsProportional(pool: int, credits: Credits, ents: seq<Entitlement>, i: nat)
    requires AllocationOf(pool, credits) == Ok(ents) && i < |ents|
    ensures var total := Sum(WeightsOf(Accounts(credits), credits));
            var share := pool * ents[i].credits;
            && total > 0
            && share - total < ents[i].amountCents * total < share + total
            && (share % total == 0 ==> ents[i].amountCents * total == share)
  {
    AllocationParts(pool, credits, ents);
    AllottedIsExact(pool, WeightsOf(Accounts(credits), credits));
  }

  // More credits never receive less; equal credits differ by at most one cent, in favour of the
  // account that sorts first.
  lemma AllocationIsFair(pool: int, credits: Credits, ents: seq<Entitlement>, i: nat, j: nat)
    requires AllocationOf(pool, credits) == Ok(ents) && i < |ents| && j < |ents|
    ensures ents[i].credits > ents[j].credits ==> ents[i].amountCents >= ents[j].amountCents
    ensures ents[i].credits == ents[j].credits && Less(ents[i].account, ents[j].account) ==>
              ents[j].amountCents <= ents[i].amountCents <= ents[j].amountCents + 1
  {
    AllocationParts(pool, credits, ents);
    AllottedIsFair(pool, WeightsOf(Accounts(credits), credits), i, j);
    LessTrichotomy(ents[i].account, ents[j].account);
  }

  // No other way of splitting the pool into whole cents strays less from the exact shares.
  lemma {:induction false} AllocationIsOptimal(pool: int, credits: Credits, ents: seq<Entitlement>, x: seq<int>)
    requires AllocationOf(pool, credits) == Ok(ents) && |x| == |ents| && Sum(x) == pool && ents != []
    ensures var w := WeightsOf(Accounts(credits), credits);
            var amounts := seq(|ents|, i requires 0 <= i < |ents| => ents[i].amountCents);
            && |w| == |ents|
            && Deviation(amounts, pool, w, Sum(w)) <= Deviation(x, pool, w, Sum(w))
  {
    AllocationParts(pool, credits, ents);
    var w := WeightsOf(Accounts(credits), credits);
    AllottedIsOptimal(pool, w, x);
    assert seq(|ents|, i requires 0 <= i < |ents| => ents[i].amountCents) == Allotted(pool, w);
  }

  const MAX_INT64 := 0x7FFF_FFFF_FFFF_FFFF

  lemma {:induction false} PrefixSums(s: seq<int>, k: nat)
    requires k <= |s| && forall i | 0 <= i < |s| :: s[i] >= 0
    ensures 0 <= Sum(s[..k]) <= Sum(s)
    ensures forall i | 0 <= i < |s| :: s[i] <= Sum(s)
    decreases |s| - k, |s|
  {
    if s != [] {
      var n := |s| - 1;
      if k <= n {
        PrefixSums(s[..n], k);
        assert s[..n][..k] == s[..k];
      } else {
        assert s[..k] == s;
        PrefixSums(s[..n], n);
      }
    }
  }

  // The unchecked int64 arithmetic of Allocate does not wrap when the pool and the sum of the
  // credits fit: then so does every partial sum, quotient and amount.
  lemma {:induction false} AllocateFitsInt64(pool: nat, w: seq<int>, k: nat)
    requires Weights(w) && pool <= MAX_INT64 && Sum(w) <= MAX_INT64 && k <= |w|
    ensures 0 <= Sum(w[..k]) <= MAX_INT64
    ensures |Quotients(pool, w)| == |w| && 0 <= Sum(Quotients(pool, w)[..k]) <= MAX_INT64
    ensures 0 <= Leftover(pool, w) <= MAX_INT64
    ensures forall i | 0 <= i < |w| ::
              0 <= Quotients(pool, w)[i] <= MAX_INT64 && 0 <= Allotted(pool, w)[i] <= MAX_INT64
  {
    LeftoverBound(pool, w);
    Divides(pool, w);
    AllottedIsExact(pool, w);
    PrefixSums(w, k);
    PrefixSums(Quotients(pool, w), k);
    PrefixSums(Allotted(pool, w), k);
  }
}
