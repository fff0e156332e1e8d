/**
 * The calculator's page state (`allLoopsData`, the two prices, the selected
 * and recommended loop indices, `calculationDone`) and the handlers that
 * change it: the simulation run, the recommendation scan, the loop step
 * buttons and the three presets.
 */
module Calculator {
  import opened Numbers
  import opened Health
  import opened Simulation
  import opened Recommendation

  datatype Asset = Bitcoin | Ethereum

  /** The three preset buttons. */
  datatype Preset = Conservative | Recommended | Degen

  /** The price used when the live price cannot be fetched. */
  function FallbackPrice(asset: Asset): (price: real)
    ensures price > 0.0
  {
    if asset == Bitcoin then 65000.0 else 3500.0
  }

  /** What the page shows for the selected loop. */
  datatype Snapshot = Snapshot(loopCount: nat, healthFactor: Num, liquidationPrice: Num,
                               collateralUsd: real, collateral: real, debt: real)

  /** The numbers `updateDisplayForLoop` shows for `row` at `price`. */
  function RowSnapshot(row: LoopState, price: real, threshold: real): Snapshot
  {
    Snapshot(row.loopCount, RowHealthFactor(row, price, threshold),
             LiquidationPrice(row.totalCollateral, row.totalBorrowedUsd, threshold),
             row.totalCollateral * price, row.totalCollateral, row.totalBorrowedUsd)
  }

  /**
   * The snapshot's two risk figures agree: with collateral, a positive
   * threshold and debt, the shown health factor is above 1 exactly when the
   * shown price is above the shown liquidation price; without debt the
   * factor is Infinity, and without collateral the liquidation price is 0.
   */
  lemma SnapshotConsistent(row: LoopState, price: real, threshold: real)
    ensures var s := RowSnapshot(row, price, threshold);
            && s.loopCount == row.loopCount
            && (row.totalBorrowedUsd <= 0.0 ==> s.healthFactor == PosInf)
            && (row.totalCollateral <= 0.0 ==> s.liquidationPrice == Finite(0.0))
            && (row.totalCollateral > 0.0 && threshold > 0.0 && row.totalBorrowedUsd > 0.0 ==>
                  (s.healthFactor.value > 1.0 <==> price > s.liquidationPrice.value))
  {
    var c, d := row.totalCollateral, row.totalBorrowedUsd;
    var s := RowSnapshot(row, price, threshold);
    assert s.healthFactor == HealthFactor(c * price, threshold, d);
    assert s.liquidationPrice == LiquidationPrice(c, d, threshold);
    if c > 0.0 && threshold > 0.0 && d > 0.0 {
      HealthyIffAboveLiquidationPrice(c, d, threshold, price);
    }
  }

  /**
   * One pass of the simulator's loop body before the stop test: borrow up to
   * the LTV cap on the current collateral, redeposit it, and compute the new
   * health factor.
   */
  method TentativeLoop(p: Params, totalCollateral: real, totalBorrowedUsd: real) returns (next: Tentative)
    requires p.price != 0.0
    ensures next == Attempt(p, totalCollateral, totalBorrowedUsd)
  {
    var totalCollateralUsd := totalCollateral * p.price;
    var newBorrowableUsd := totalCollateralUsd * p.ltv - totalBorrowedUsd;
    var nextTotalBorrowedUsd := totalBorrowedUsd + newBorrowableUsd;
    var nextTotalCollateral := totalCollateral + newBorrowableUsd / p.price;
    var nextTotalCollateralUsd := nextTotalCollateral * p.price;
    var nextHealthFactor := HealthFactor(nextTotalCollateralUsd, p.threshold, nextTotalBorrowedUsd);
    next := Tentative(newBorrowableUsd, nextTotalBorrowedUsd, nextTotalCollateral, nextHealthFactor);
  }

  class LoopCalculator {
    var loops: seq<LoopState>
    var baseAssetPrice: real
    var currentPrice: real
    var currentLoopIndex: int
    var recommendedLoopIndex: int
    var calculationDone: bool
    /** The inputs of the run that built `loops`. */
    ghost var built: Params

    /** Both indices point into the table, and the table is a simulation's output. */
    ghost predicate Valid()
      reads this
    {
      && 0 <= currentLoopIndex <= LastIndex(|loops|)
      && 0 <= recommendedLoopIndex <= LastIndex(|loops|)
      && (forall i :: 0 <= i < |loops| ==> loops[i].loopCount == i)
      && (loops != [] ==> built.price != 0.0 && loops == Simulate(built))
    }

    /** The page before anything has been fetched or computed. */
    constructor ()
      ensures Valid()
      ensures loops == [] && baseAssetPrice == 0.0 && currentPrice == 0.0
      ensures currentLoopIndex == 0 && recommendedLoopIndex == 0 && !calculationDone
    {
      loops := [];
      baseAssetPrice := 0.0;
      currentPrice := 0.0;
      currentLoopIndex := 0;
      recommendedLoopIndex := 0;
      calculationDone := false;
    }

    /**
     * The state change of `fetchAssetData`: the fetched price, or the asset's
     * fallback when the fetch failed, becomes both the base and the current price.
     */
    method ApplyFetchedPrice(fetched: Option<real>, asset: Asset)
      requires Valid()
      modifies this`baseAssetPrice, this`currentPrice
      ensures Valid()
      ensures baseAssetPrice == currentPrice
      ensures currentPrice == (if fetched.Some? then fetched.value else FallbackPrice(asset))
    {
      var price := if fetched.Some? then fetched.value else FallbackPrice(asset);
      baseAssetPrice := price;
      currentPrice := price;
    }

    /** The step-down button is disabled at loop 0 or when there is no table. */
    function MinusDisabled(): (disabled: bool)
      reads this
      ensures Valid() ==> (!disabled <==> 0 <= currentLoopIndex - 1 < |loops|)
    {
      currentLoopIndex <= 0 || |loops| == 0
    }

    /** The step-up button is disabled at the last loop or when there is no table. */
    function PlusDisabled(): (disabled: bool)
      reads this
      ensures Valid() ==> (!disabled <==> 0 <= currentLoopIndex + 1 < |loops|)
    {
      currentLoopIndex >= LastIndex(|loops|) || |loops| == 0
    }

    /** What the page shows for the selected loop, if it names a row. */
    function Display(threshold: real): (s: Option<Snapshot>)
      reads this
      ensures s.Some? <==> 0 <= currentLoopIndex < |loops|
      ensures Valid() && loops != [] ==> s.Some? && s.value.loopCount == currentLoopIndex
    {
      if 0 <= currentLoopIndex < |loops| then
        Some(RowSnapshot(loops[currentLoopIndex], currentPrice, threshold))
      else None
    }

    /**
     * `calculateRecommendedLoop`: scan rows 1.. at the current price and keep
     * the first one whose health factor is closest to 1.40.
     */
    method CalculateRecommendedLoop(threshold: real)
      modifies this`recommendedLoopIndex
      ensures recommendedLoopIndex == Recommend(loops, currentPrice, threshold)
      ensures IsBest(loops, currentPrice, threshold, recommendedLoopIndex)
    {
      if |loops| <= 1 {
        recommendedLoopIndex := 0;
      } else {
        var idealLoopIndex := 1;
        var smallestDiff := PosInf;
        for i := 1 to |loops|
          invariant Scan(loops, currentPrice, threshold, i, idealLoopIndex, smallestDiff)
                    == Recommend(loops, currentPrice, threshold)
        {
          var diff := Distance(RowHealthFactor(loops[i], currentPrice, threshold), TargetHealthFactor);
          if Less(diff, smallestDiff) {
            smallestDiff := diff;
            idealLoopIndex := i;
          }
        }
        recommendedLoopIndex := idealLoopIndex;
      }
      RecommendIsBest(loops, currentPrice, threshold);
    }

    /**
     * `runFullSimulation`: on valid input, rebuild the table at `price`,
     * recompute the recommendation and clamp the selected loop into the table;
     * on invalid input, change nothing.
     */
    method RunFullSimulation(price: Option<real>, form: Form)
      requires Valid()
      requires PriceUsable(price)
      modifies this
      ensures Valid()
      ensures ReadParams(form, price).None? ==> unchanged(this)
      ensures ReadParams(form, price).Some? ==>
                var p := ReadParams(form, price).value;
                && loops == Simulate(p)
                && currentPrice == p.price
                && recommendedLoopIndex == Recommend(loops, p.price, p.threshold)
                && currentLoopIndex == ClampIndex(old(currentLoopIndex), |loops|)
                && baseAssetPrice == old(baseAssetPrice)
                && calculationDone == old(calculationDone)
    {
      var params := ReadParams(form, price);
      if params.None? {
        return;
      }
      var p := params.value;
      currentPrice := p.price;
      BuildLoops(p);
      CalculateRecommendedLoop(p.threshold);

      currentLoopIndex := ClampIndex(currentLoopIndex, |loops|);
      built := p;
      SimulateShape(p);
    }

    /**
     * The loop of `runFullSimulation`: push loop 0, then borrow and redeposit
     * until the stop test fires or 100 loops have run.
     */
    method BuildLoops(p: Params)
      requires p.price != 0.0
      modifies this`loops
      ensures loops == Simulate(p)
    {
      loops := [];
      var totalCollateral := p.amount;
      var totalBorrowedUsd := p.debt;
      loops := loops + [LoopState(0, totalCollateral, totalBorrowedUsd, PosInf, 1.0)];

      var loopCount := 0;
      while loopCount < MaxLoops
        invariant 0 <= loopCount <= MaxLoops
        invariant loops + Steps(p, totalCollateral, totalBorrowedUsd, loopCount) == Simulate(p)
      {
        var next := TentativeLoop(p, totalCollateral, totalBorrowedUsd);
        if next.increment < MinIncrement || LessEq(next.healthFactor, Finite(RedLimit)) {
          assert Steps(p, totalCollateral, totalBorrowedUsd, loopCount) == [];
          break;
        }
        ghost var rest := Steps(p, next.collateral, next.debt, loopCount + 1);
        // the collateral's value over the initial deposit's value
        var leverage := Leverage(p, next.collateral);
        var row := LoopState(loopCount + 1, next.collateral, next.debt, next.healthFactor, leverage);
        assert Steps(p, totalCollateral, totalBorrowedUsd, loopCount) == [row] + rest;

        loopCount := loopCount + 1;
        totalBorrowedUsd := next.debt;
        totalCollateral := next.collateral;
        loops := loops + [row];
      }
    }

    /** The step-down button: one loop back, when a calculation has been done and loop 0 is not selected. */
    method LoopMinus()
      requires Valid()
      modifies this`currentLoopIndex
      ensures Valid()
      ensures currentLoopIndex == if old(calculationDone) && !old(MinusDisabled()) then old(currentLoopIndex) - 1
                                  else old(currentLoopIndex)
    {
      if calculationDone && currentLoopIndex > 0 {
        currentLoopIndex := currentLoopIndex - 1;
      }
    }

    /** The step-up button: one loop forward, when a calculation has been done and the last loop is not selected. */
    method LoopPlus()
      requires Valid()
      modifies this`currentLoopIndex
      ensures Valid()
      ensures currentLoopIndex == if old(calculationDone) && !old(PlusDisabled()) then old(currentLoopIndex) + 1
                                  else old(currentLoopIndex)
    {
      if calculationDone && currentLoopIndex < |loops| - 1 {
        currentLoopIndex := currentLoopIndex + 1;
      }
    }

    /** The conservative preset: loop 1 if the table has it, else loop 0. */
    method PresetConservative()
      requires Valid()
      modifies this`currentLoopIndex, this`calculationDone
      ensures Valid() && calculationDone
      ensures currentLoopIndex == ConservativeIndex(|loops|)
    {
      if |loops| > 1 {
        currentLoopIndex := if 1 < |loops| - 1 then 1 else |loops| - 1;
      } else {
        currentLoopIndex := 0;
      }
      calculationDone := true;
    }

    /** The recommended preset: the recommended loop, clamped into the table. */
    method PresetRecommended()
      requires Valid()
      modifies this`currentLoopIndex, this`calculationDone
      ensures Valid() && calculationDone
      ensures currentLoopIndex == ClampIndex(recommendedLoopIndex, |loops|)
      ensures currentLoopIndex == recommendedLoopIndex
    {
      currentLoopIndex := ClampIndex(recommendedLoopIndex, |loops|);
      calculationDone := true;
    }

    /** The aggressive ("degen") preset: the last loop. */
    method PresetDegen()
      requires Valid()
      modifies this`currentLoopIndex, this`calculationDone
      ensures Valid() && calculationDone
      ensures currentLoopIndex == LastIndex(|loops|)
      ensures loops != [] ==> currentLoopIndex == |loops| - 1
    {
      currentLoopIndex := if 0 < |loops| - 1 then |loops| - 1 else 0;
      calculationDone := true;
    }

    /** The loop index a preset selects before the table is rebuilt. */
    function PresetTarget(preset: Preset): (k: int)
      reads this
      ensures Valid() ==> 0 <= k <= LastIndex(|loops|)
    {
      match preset
      case Conservative => ConservativeIndex(|loops|)
      case Recommended => ClampIndex(recommendedLoopIndex, |loops|)
      case Degen => LastIndex(|loops|)
    }

    /**
     * A preset button: select the preset's loop, then rebuild the table at the
     * current price, which clamps the selection into the new table.
     */
    method ClickPreset(preset: Preset, form: Form)
      requires Valid()
      requires currentPrice != 0.0
      modifies this
      ensures Valid() && calculationDone
      ensures baseAssetPrice == old(baseAssetPrice) && currentPrice == old(currentPrice)
      ensures ReadParams(form, Some(old(currentPrice))).None? ==>
                && loops == old(loops)
                && recommendedLoopIndex == old(recommendedLoopIndex)
                && currentLoopIndex == old(PresetTarget(preset))
      ensures ReadParams(form, Some(old(currentPrice))).Some? ==>
                var p := ReadParams(form, Some(old(currentPrice))).value;
                && loops == Simulate(p)
                && currentPrice == old(currentPrice)
                && recommendedLoopIndex == Recommend(loops, p.price, p.threshold)
                && currentLoopIndex == ClampIndex(old(PresetTarget(preset)), |loops|)
    {
      match preset {
        case Conservative => PresetConservative();
        case Recommended => PresetRecommended();
        case Degen => PresetDegen();
      }
      RunFullSimulation(Some(currentPrice), form);
    }

    /**
     * Editing the price field: a parsed, positive price marks the calculation
     * done and rebuilds the table at that price; anything else changes nothing.
     */
    method EditPrice(newPrice: Option<real>, form: Form)
      requires Valid()
      modifies this
      ensures Valid()
      ensures !(newPrice.Some? && newPrice.value > 0.0) ==> unchanged(this)
      ensures newPrice.Some? && newPrice.value > 0.0 ==>
                && calculationDone
                && baseAssetPrice == old(baseAssetPrice)
                && (ReadParams(form, newPrice).None? ==>
                      && loops == old(loops)
                      && currentPrice == old(currentPrice)
                      && recommendedLoopIndex == old(recommendedLoopIndex)
                      && currentLoopIndex == old(currentLoopIndex))
                && (ReadParams(form, newPrice).Some? ==>
                      var p := ReadParams(form, newPrice).value;
                      && loops == Simulate(p)
                      && currentPrice == newPrice.value
                      && recommendedLoopIndex == Recommend(loops, newPrice.value, p.threshold)
                      && currentLoopIndex == ClampIndex(old(currentLoopIndex), |loops|))
    {
      if newPrice.Some? && newPrice.value > 0.0 {
        calculationDone := true;
        RunFullSimulation(newPrice, form);
      }
    }

    /**
     * The Calculate button: back to loop 0, mark the calculation done, and
     * build the table at the base (fetched) price.
     */
    method Calculate(form: Form)
      requires Valid()
      requires baseAssetPrice != 0.0
      modifies this
      ensures Valid() && calculationDone && currentLoopIndex == 0
      ensures baseAssetPrice == old(baseAssetPrice)
      ensures ReadParams(form, Some(baseAssetPrice)).None? ==>
                && loops == old(loops)
                && currentPrice == old(currentPrice)
                && recommendedLoopIndex == old(recommendedLoopIndex)
      ensures ReadParams(form, Some(baseAssetPrice)).Some? ==>
                var p := ReadParams(form, Some(baseAssetPrice)).value;
                && loops == Simulate(p)
                && currentPrice == baseAssetPrice
                && recommendedLoopIndex == Recommend(loops, p.price, p.threshold)
    {
      var assetPrice := baseAssetPrice;
      currentLoopIndex := 0;
      calculationDone := true;
      RunFullSimulation(Some(assetPrice), form);
    }
  }
}
