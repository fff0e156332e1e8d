/**
 * The display arithmetic of the calculator: health factor, liquidation price,
 * the leverage shown in the loops table, and the colour band of a health factor.
 */
module Health {
  import opened Numbers

  /** Health factors at or below this are shown red; the simulator also stops here. */
  const RedLimit: real := 1.07
  const OrangeLimit: real := 1.25
  const YellowLimit: real := 1.5

  /**
   * `debt > 0 ? (collateralUsd * threshold) / debt : Infinity`: the weighted
   * collateral value per dollar of debt, unbounded when there is no debt.
   */
  function HealthFactor(collateralUsd: real, threshold: real, debt: real): (h: Num)
    ensures h.Finite? <==> debt > 0.0
    ensures !h.Finite? ==> h == PosInf
    ensures h.Finite? ==> h.value * debt == collateralUsd * threshold
  {
    if debt > 0.0 then Finite(collateralUsd * threshold / debt) else PosInf
  }

  /** A position with debt is above water exactly when its weighted collateral exceeds the debt. */
  lemma HealthyIffCovered(collateralUsd: real, threshold: real, debt: real)
    requires debt > 0.0
    ensures HealthFactor(collateralUsd, threshold, debt).value > 1.0 <==> collateralUsd * threshold > debt
    ensures HealthFactor(collateralUsd, threshold, debt).value == 1.0 <==> collateralUsd * threshold == debt
  {
    var h := HealthFactor(collateralUsd, threshold, debt).value;
    assert h * debt == collateralUsd * threshold;
    if h > 1.0 {
      assert h * debt > 1.0 * debt;
    } else if h < 1.0 {
      assert h * debt < 1.0 * debt;
    }
  }

  /**
   * `collateral > 0 ? debt / (collateral * threshold) : 0`: the asset price at
   * which the health factor falls to exactly 1.
   */
  function LiquidationPrice(collateral: real, debt: real, threshold: real): (lp: Num)
    ensures collateral <= 0.0 ==> lp == Finite(0.0)
    ensures collateral > 0.0 && threshold != 0.0 ==> lp.Finite? && lp.value * (collateral * threshold) == debt
    ensures collateral > 0.0 && threshold == 0.0 ==> !lp.Finite?
  {
    if collateral > 0.0 then Divide(debt, collateral * threshold) else Finite(0.0)
  }

  /** At the liquidation price the health factor is exactly 1. */
  lemma LiquidationPriceIsBreakEven(collateral: real, debt: real, threshold: real)
    requires collateral > 0.0 && threshold > 0.0 && debt > 0.0
    ensures LiquidationPrice(collateral, debt, threshold).Finite?
    ensures HealthFactor(collateral * LiquidationPrice(collateral, debt, threshold).value, threshold, debt) == Finite(1.0)
  {
    var lp := LiquidationPrice(collateral, debt, threshold).value;
    assert collateral * lp * threshold == lp * (collateral * threshold) == debt;
    HealthyIffCovered(collateral * lp, threshold, debt);
  }

  /** The position is healthy (factor above 1) exactly when the price is above the liquidation price. */
  lemma HealthyIffAboveLiquidationPrice(collateral: real, debt: real, threshold: real, price: real)
    requires collateral > 0.0 && threshold > 0.0 && debt > 0.0
    ensures HealthFactor(collateral * price, threshold, debt).value > 1.0
            <==> price > LiquidationPrice(collateral, debt, threshold).value
  {
    var lp := LiquidationPrice(collateral, debt, threshold).value;
    var w := collateral * threshold;
    assert w > 0.0;
    assert lp * w == debt;
    assert collateral * price * threshold == price * w;
    HealthyIffCovered(collateral * price, threshold, debt);
    if price > lp {
      assert price * w > lp * w;
    } else {
      assert price * w <= lp * w;
    }
  }

  /**
   * The leverage column of the loops table,
   * `leverage * (currentPrice / (basePrice || currentPrice))`.
   */
  function RowLeverage(leverage: real, currentPrice: real, basePrice: real): (r: Num)
    ensures basePrice != 0.0 ==> r.Finite? && r.value * basePrice == leverage * currentPrice
    ensures basePrice == 0.0 && currentPrice != 0.0 ==> r == Finite(leverage)
    ensures basePrice == 0.0 && currentPrice == 0.0 ==> r.NaN?
  {
    // `basePrice || currentPrice` falls back to the current price when the base is 0;
    // x / x is exactly 1, and 0 / 0 is NaN, which stays NaN when multiplied
    if basePrice != 0.0 then Finite(leverage * (currentPrice / basePrice))
    else if currentPrice != 0.0 then Finite(leverage)
    else NaN
  }

  /** At the price the table was built for, the leverage column shows the stored leverage. */
  lemma RowLeverageAtBasePrice(leverage: real, price: real)
    requires price != 0.0
    ensures RowLeverage(leverage, price, price) == Finite(leverage)
  {
    var r := RowLeverage(leverage, price, price);
    assert r.value * price == leverage * price;
    assert (r.value - leverage) * price == 0.0;
  }

  datatype Band = Red | Orange | Yellow | Green

  /** `getHealthFactorColor`: the colour of a health factor. */
  function HealthBand(h: Num): (b: Band)
    ensures b == Red <==> h.Finite? && h.value <= RedLimit
    ensures b == Orange <==> h.Finite? && RedLimit < h.value <= OrangeLimit
    ensures b == Yellow <==> h.Finite? && OrangeLimit < h.value <= YellowLimit
    ensures b == Green <==> !h.Finite? || YellowLimit < h.value
  {
    if !h.Finite? then Green
    else if h.value <= RedLimit then Red
    else if h.value <= OrangeLimit then Orange
    else if h.value <= YellowLimit then Yellow
    else Green
  }

  function BandRank(b: Band): nat
  {
    match b
    case Red => 0
    case Orange => 1
    case Yellow => 2
    case Green => 3
  }

  /** A larger health factor never gets a more alarming colour. */
  lemma HealthBandMonotone(h1: Num, h2: Num)
    requires h1.Finite? || h1.PosInf?
    requires LessEq(h1, h2)
    ensures BandRank(HealthBand(h1)) <= BandRank(HealthBand(h2))
  {
  }
}
