/** The share arithmetic helpers of the calculator page (app/page.tsx). JavaScript numbers
    are modelled as mathematical reals; the divisions the source could turn into Infinity or
    NaN are excluded by preconditions. */
module ShareMath {

  function Min(a: real, b: real): (r: real)
    ensures r <= a && r <= b && (r == a || r == b)
  {
    if a <= b then a else b
  }

  /** The share count a SAFE amount buys before the cap: the amount divided by
      `1 - discount / 100`. */
  function DiscountedAmount(amount: real, discount: real): (discounted: real)
    requires discount != 100.0
  {
    amount / (1.0 - discount / 100.0)
  }

  /** calculateSafeShares: the discounted amount, capped at `valuationCap / sharePrice` when a
      (non-zero, hence JavaScript-truthy) cap is set. isPostMoney is accepted and not used. */
  function CalculateSafeShares(amount: real, discount: real, valuationCap: real,
                               sharePrice: real, isPostMoney: bool): (r: real)
    requires discount != 100.0
    requires valuationCap != 0.0 ==> sharePrice != 0.0
    ensures valuationCap == 0.0 ==> r == DiscountedAmount(amount, discount)
    ensures valuationCap != 0.0 ==>
      && r <= DiscountedAmount(amount, discount)
      && r <= valuationCap / sharePrice
      && (r == DiscountedAmount(amount, discount) || r == valuationCap / sharePrice)
  {
    var discountedAmount := DiscountedAmount(amount, discount);
    if valuationCap != 0.0 then Min(discountedAmount, valuationCap / sharePrice)
    else discountedAmount
  }

  /** Only the terms of the note matter, not whether it is marked post-money. */
  lemma SafeSharesIgnorePostMoney(amount: real, discount: real, valuationCap: real, sharePrice: real)
    requires discount != 100.0
    requires valuationCap != 0.0 ==> sharePrice != 0.0
    ensures CalculateSafeShares(amount, discount, valuationCap, sharePrice, true)
         == CalculateSafeShares(amount, discount, valuationCap, sharePrice, false)
  {
  }

  /** A larger amount never buys fewer SAFE shares, for a discount below 100. */
  lemma DiscountedAmountMonotone(a1: real, a2: real, discount: real)
    requires discount < 100.0 && a1 <= a2
    ensures DiscountedAmount(a1, discount) <= DiscountedAmount(a2, discount)
  {
    var k := 1.0 - discount / 100.0;
    assert k > 0.0;
    var u, v := a1 / k, a2 / k;
    assert u * k == a1 && v * k == a2;
    if v < u {
      MulLt(v, u, k);
    }
  }

  lemma SafeSharesMonotone(a1: real, a2: real, discount: real, valuationCap: real,
                           sharePrice: real, isPostMoney: bool)
    requires 0.0 <= discount < 100.0 && sharePrice > 0.0 && a1 <= a2
    ensures CalculateSafeShares(a1, discount, valuationCap, sharePrice, isPostMoney)
         <= CalculateSafeShares(a2, discount, valuationCap, sharePrice, isPostMoney)
  {
    DiscountedAmountMonotone(a1, a2, discount);
  }

  /** Without a discount and without a cap the note converts one share per unit of money. */
  lemma SafeSharesNoDiscountNoCap(amount: real, sharePrice: real, isPostMoney: bool)
    ensures CalculateSafeShares(amount, 0.0, 0.0, sharePrice, isPostMoney) == amount
  {
  }

  /** calculateNewRoundShares: whole shares only; the fraction is dropped (`Math.floor`). */
  function CalculateNewRoundShares(amount: real, sharePrice: real): (n: int)
    requires sharePrice != 0.0
    ensures sharePrice > 0.0 ==> n as real * sharePrice <= amount < (n + 1) as real * sharePrice
    ensures sharePrice > 0.0 && amount >= 0.0 ==> n >= 0
  {
    var q := amount / sharePrice;
    var n := q.Floor;
    FloorScaled(q, sharePrice, amount);
    n
  }

  lemma FloorScaled(q: real, p: real, amount: real)
    requires p != 0.0 && q == amount / p
    ensures p > 0.0 ==> q.Floor as real * p <= amount < (q.Floor + 1) as real * p
    ensures p > 0.0 && amount >= 0.0 ==> q.Floor >= 0
  {
    if p > 0.0 {
      var f := q.Floor as real;
      assert f <= q < f + 1.0;
      assert q * p == amount;
      MulLe(f, q, p);
      MulLt(q, f + 1.0, p);
      assert amount < (f + 1.0) * p;
      var g := (q.Floor + 1) as real;
      assert g == f + 1.0;
      assert amount < g * p;
    }
  }

  lemma MulLe(x: real, y: real, p: real)
    requires x <= y && p > 0.0
    ensures x * p <= y * p
  {
    assert y * p - x * p == (y - x) * p;
  }

  lemma MulLt(x: real, y: real, p: real)
    requires x < y && p > 0.0
    ensures x * p < y * p
  {
    assert y * p - x * p == (y - x) * p;
  }

  datatype Ownership = Ownership(ownershipPercentage: real, totalShares: real)

  /** calculateOwnership: the combined shares of a holder and their percentage of a total. */
  function CalculateOwnership(safeShares: real, newRoundShares: real, totalShares: real): (o: Ownership)
    requires totalShares != 0.0
    ensures o.totalShares == safeShares + newRoundShares
    ensures o.ownershipPercentage * totalShares == 100.0 * (safeShares + newRoundShares)
  {
    var total := safeShares + newRoundShares;
    var o := Ownership((total / totalShares) * 100.0, total);
    assert total / totalShares * totalShares == total;
    o
  }
}
