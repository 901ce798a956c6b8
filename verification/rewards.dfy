/** The reward arithmetic of the block unlocker (payouts/unlocker.go). `big.Rat` values are
    exact rationals, modelled as `real`; the pool fee is an exact rational in [0, 1]. */
module Rewards {
  import opened Sums
  import opened Common

  datatype Config = Config(
    feeRate: real,
    keepTxFees: bool,
    poolFeeAddress: string,
    immatureDepth: int,
    depth: int)

  ghost predicate ValidConfig(cfg: Config) {
    0.0 <= cfg.feeRate <= 1.0
  }

  /** `FloatString(0)` followed by `ParseInt`: the nearest integer, halves away from zero. */
  function Round(x: real): int {
    if x >= 0.0 then (x + 0.5).Floor else -((0.5 - x).Floor)
  }

  ghost predicate IsNearestAwayFromZero(x: real, v: int) {
    && -0.5 <= v as real - x <= 0.5
    && (v as real - x == 0.5 ==> x > 0.0)
    && (v as real - x == -0.5 ==> x < 0.0)
  }

  /** Round is characterised by nearness plus the tie rule: no other integer qualifies. */
  lemma RoundIsNearest(x: real, v: int)
    ensures IsNearestAwayFromZero(x, v) <==> v == Round(x)
  {
    if IsNearestAwayFromZero(x, v) {
      var d := v - Round(x);
      assert -1.0 <= d as real <= 1.0;
    }
  }

  lemma RoundMonotone(x: real, y: real)
    requires x <= y
    ensures Round(x) <= Round(y)
  {
  }

  /** The reward of a share count: profit * (n / total), rounded. */
  function Share(n: int, total: int, profit: real): int
    requires total != 0
  {
    Round(profit * (n as real / total as real))
  }

  /** What calculateRewardsForShares returns, as a function: the order in which the code
      walks the Go map does not appear in it. */
  function Split(shares: map<string, int>, total: int, profit: real): map<string, int>
    requires total != 0 || shares == map[]
  {
    map login | login in shares :: Share(shares[login], total, profit)
  }

  /** Every login with shares, and nobody else, gets the integer nearest to its fraction of the
      profit, halves away from zero. */
  ghost predicate SplitByShare(shares: map<string, int>, total: int, profit: real, rewards: map<string, int>)
    requires total != 0 || shares == map[]
  {
    && rewards.Keys == shares.Keys
    && forall login | login in shares ::
         IsNearestAwayFromZero(profit * (shares[login] as real / total as real), rewards[login])
  }

  lemma SplitIsByShare(shares: map<string, int>, total: int, profit: real)
    requires total != 0 || shares == map[]
    ensures SplitByShare(shares, total, profit, Split(shares, total, profit))
  {
    hide Round, IsNearestAwayFromZero;
    var rewards := Split(shares, total, profit);
    forall login | login in shares
      ensures IsNearestAwayFromZero(profit * (shares[login] as real / total as real), rewards[login])
    {
      var exact := profit * (shares[login] as real / total as real);
      assert rewards[login] == Round(exact);
      RoundIsNearest(exact, Round(exact));
    }
  }

  lemma SplitAt(shares: map<string, int>, total: int, profit: real, login: string)
    requires (total != 0 || shares == map[]) && login in shares
    ensures IsNearestAwayFromZero(profit * (shares[login] as real / total as real),
                                  Split(shares, total, profit)[login])
  {
    hide IsNearestAwayFromZero, Split;
    SplitIsByShare(shares, total, profit);
  }

  /** calculateRewardsForShares (payouts/unlocker.go:407-417). `big.NewRat(n, 0)` panics, so a
      zero total is only tolerated with no shares. The map is walked in an arbitrary order. */
  method CalculateRewardsForShares(shares: map<string, int>, total: int, profit: real)
    returns (rewards: map<string, int>)
    requires total != 0 || shares == map[]
    ensures rewards == Split(shares, total, profit)
    ensures SplitByShare(shares, total, profit, rewards)
  {
    hide SplitByShare;
    SplitIsByShare(shares, total, profit);
    rewards := map[];
    var todo := shares.Keys;
    while todo != {}
      invariant todo <= shares.Keys
      invariant rewards == map login | login in shares && login !in todo :: Share(shares[login], total, profit)
    {
      var login :| login in todo;
      var percent := shares[login] as real / total as real;
      var value := Round(profit * percent);
      rewards := Incr(rewards, login, value);
      assert rewards[login] == Share(shares[login], total, profit);
      todo := todo - {login};
    }
  }

  /** chargeFee (payouts/unlocker.go:420-424): the value after the fee, and the fee. */
  function ChargeFee(value: real, rate: real): (real, real) {
    var feeValue := value * rate;
    (value - feeValue, feeValue)
  }

  /** profit * (n / total) is n times the profit per share. */
  lemma PerShare(profit: real, n: int, total: int)
    requires total != 0
    ensures profit * (n as real / total as real) == n as real * (profit / total as real)
  {
    DivMul(profit, n as real, total as real);
  }

  lemma DivMul(p: real, n: real, t: real)
    requires t != 0.0
    ensures p * (n / t) == n * (p / t)
  {
    assert t * (p * (n / t)) == p * n == t * (n * (p / t));
  }

  lemma Distribute(a: int, b: int, c: real)
    ensures Scale(a + b, c) == Scale(a, c) + Scale(b, c)
  {
  }

  ghost predicate Within(v: int, exact: real, roundings: nat) {
    exact - roundings as real / 2.0 <= v as real <= exact + roundings as real / 2.0
  }

  lemma WithinAdd(v: int, x: real, n: nat, w: int, y: real, m: nat)
    requires Within(v, x, n) && Within(w, y, m)
    ensures Within(v + w, x + y, n + m)
  {
  }

  lemma RoundWithin(x: real)
    ensures Within(Round(x), x, 1)
  {
  }

  /** Each value is rounded once, so k of them drift by at most k/2 from the exact sum. */
  lemma {:induction false} Drift<K>(rounded: map<K, int>, exact: map<K, real>)
    requires rounded.Keys == exact.Keys
    requires forall k | k in rounded :: Within(rounded[k], exact[k], 1)
    ensures Within(Sum(rounded), SumReal(exact), |rounded|)
    decreases |rounded|
  {
    if rounded == map[] {
      assert exact == map[];
    } else {
      var k :| k in exact.Keys && SumReal(exact) == exact[k] + SumReal(exact - {k});
      Shrinks(rounded, k);
      Drift(rounded - {k}, exact - {k});
      SumRemove(rounded, k);
      WithinAdd(rounded[k], exact[k], 1, Sum(rounded - {k}), SumReal(exact - {k}), |rounded| - 1);
    }
  }

  ghost function SumReal<K>(m: map<K, real>): real
    decreases |m|
  {
    if m == map[] then 0.0
    else
      var k :| k in m.Keys;
      assert |m - {k}| < |m| by { Shrinks(m, k); }
      m[k] + SumReal(m - {k})
  }

  /** If every exact value is its share count times the profit per share, so is the sum. */
  lemma {:induction false} SumRealScale<K>(shares: map<K, int>, exact: map<K, real>, unit: real)
    requires shares.Keys == exact.Keys
    requires forall k | k in exact :: exact[k] == Scale(shares[k], unit)
    ensures SumReal(exact) == Scale(Sum(shares), unit)
    decreases |shares|
  {
    if exact == map[] {
      assert shares == map[];
    } else {
      var k :| k in exact.Keys && SumReal(exact) == exact[k] + SumReal(exact - {k});
      Shrinks(shares, k);
      SumRealScale(shares - {k}, exact - {k}, unit);
      SumRemove(shares, k);
      Distribute(shares[k], Sum(shares - {k}), unit);
    }
  }

  ghost function Scale(n: int, unit: real): real {
    n as real * unit
  }

  lemma ShareWithin(n: int, total: int, profit: real)
    requires total != 0
    ensures Within(Share(n, total, profit), Scale(n, profit / total as real), 1)
  {
    PerShare(profit, n, total);
    RoundWithin(profit * (n as real / total as real));
  }

  lemma SplitDrift(shares: map<string, int>, total: int, profit: real, unit: real)
    requires total != 0 && unit == profit / total as real
    ensures Within(Sum(Split(shares, total, profit)), Scale(Sum(shares), unit), |shares|)
  {
    hide Share, Within;
    var exact := map k | k in shares :: Scale(shares[k], unit);
    var rounded := Split(shares, total, profit);
    assert |rounded| == |shares| by {
      assert rounded.Keys == shares.Keys && |rounded.Keys| == |shares.Keys|;
    }
    forall k | k in rounded
      ensures Within(rounded[k], exact[k], 1)
    {
      ShareWithin(shares[k], total, profit);
    }
    Drift(rounded, exact);
    SumRealScale(shares, exact, unit);
  }

  /** With shares summing to the total, the rewards sum to within k/2 of the miners' profit. */
  lemma SplitWithinHalfPerLogin(shares: map<string, int>, total: int, profit: real)
    requires total != 0 && Sum(shares) == total
    ensures Within(Sum(Split(shares, total, profit)), profit, |shares|)
  {
    hide Split;
    var unit := profit / total as real;
    assert Scale(total, unit) == profit by { WholeShare(profit, total as real); }
    SplitDrift(shares, total, profit, unit);
  }

  lemma WholeShare(p: real, t: real)
    requires t != 0.0
    ensures t * (p / t) == p
  {
  }

  /** A part of the profit, as a share count of the total, lies between nothing and all of it. */
  lemma PartBounds(p: real, a: real, b: real, t: real)
    requires p >= 0.0 && t > 0.0 && a <= b
    ensures p * (a / t) <= p * (b / t)
  {
    assert b / t - a / t == (b - a) / t;
    assert (b - a) / t >= 0.0;
    assert p * ((b - a) / t) >= 0.0;
  }

  lemma ShareMonotone(n: int, m: int, total: int, profit: real)
    requires total > 0 && profit >= 0.0 && n <= m
    ensures Share(n, total, profit) <= Share(m, total, profit)
  {
    var x, y := n as real / total as real, m as real / total as real;
    RatioMonotone(profit, n as real, m as real, total as real, x, y);
    RoundMonotone(profit * x, profit * y);
  }

  lemma RatioMonotone(p: real, a: real, b: real, t: real, x: real, y: real)
    requires p >= 0.0 && t > 0.0 && a <= b && x == a / t && y == b / t
    ensures p * x <= p * y
  {
    PartBounds(p, a, b, t);
  }

  /** More shares never earn less. */
  lemma SplitMonotone(shares: map<string, int>, total: int, profit: real, a: string, b: string)
    requires total > 0 && profit >= 0.0
    requires a in shares && b in shares && shares[a] <= shares[b]
    ensures Split(shares, total, profit)[a] <= Split(shares, total, profit)[b]
  {
    hide Share;
    ShareMonotone(shares[a], shares[b], total, profit);
  }

  lemma ShareBounds(n: int, total: int, profit: real)
    requires 0 <= n <= total && total > 0 && profit >= 0.0
    ensures 0 <= Share(n, total, profit) <= Round(profit)
  {
    var t := total as real;
    PartBounds(profit, 0.0, n as real, t);
    PartBounds(profit, n as real, t, t);
    WholeShare(1.0, t);
    var x := profit * (n as real / t);
    assert 0.0 <= x <= profit;
    RoundMonotone(x, profit);
    RoundMonotone(0.0, x);
  }

  /** A reward is never negative and never exceeds the rounded profit, so `ParseInt` on an
      int64 profit cannot overflow. */
  lemma RewardFitsInt64(shares: map<string, int>, total: int, profit: real, a: string)
    requires a in shares && forall k | k in shares :: shares[k] >= 0
    requires Sum(shares) == total > 0 && 0.0 <= profit <= MAX_INT64 as real
    ensures 0 <= Split(shares, total, profit)[a] <= MAX_INT64
  {
    hide Share;
    SumNonNegative(shares);
    ShareBounds(shares[a], total, profit);
    RoundMonotone(profit, MAX_INT64 as real);
  }
}
