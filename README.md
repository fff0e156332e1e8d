# DeFi loop calculator: simulation and selection core

This project models the arithmetic and state handling of `script.js`, a
browser calculator for "looping" a crypto deposit. Looping means depositing
collateral, borrowing stablecoins up to the loan-to-value (LTV) limit, buying
more of the asset, redepositing it, and repeating. The model covers:

- the loop simulator `runFullSimulation`. Starting from an initial amount,
  an asset price, an LTV, a liquidation threshold and an existing debt, it
  builds the table `allLoopsData` of loop states. It stops when the next
  loop would add less than $1 of debt, when the next health factor would be
  at or below 1.07, or after 100 loops;
- the recommendation scan `calculateRecommendedLoop`. It picks the loop whose
  health factor, re-evaluated at the current price, is closest to 1.40, with
  ties going to the earliest loop;
- the display arithmetic: health factor, liquidation price, the rescaled
  leverage column and the four-band colour of a health factor;
- the page state (`allLoopsData`, `baseAssetPrice`, `currentPrice`,
  `currentLoopIndex`, `recommendedLoopIndex`, `calculationDone`) as the class
  `Calculator.LoopCalculator`. Its methods mirror the step buttons, the
  three presets, the price field, the Calculate button and the state change
  made by the price fetch.

Modules:

- `Numbers`: JavaScript numbers as `Finite(real) | PosInf | NegInf | NaN`;
  `<` and `<=` with JavaScript's NaN and infinity rules; `/` on finite
  operands (a zero divisor gives ±Infinity or NaN); and `Math.abs(x - c)`
  for a finite constant `c`.
- `Health`: the display formulas and the colour bands.
- `Simulation`: the simulator as a specification. `Simulate(p)` is the table
  a valid run builds, defined loop by loop. The lemmas state the table's
  shape, the commit guard, the step arithmetic and monotonicity.
- `Recommendation`: the scan as a specification (`Recommend`). It is proved
  to pick the first closest row. This module also holds the preset indices.
- `Calculator`: the class. The `while` loop of `runFullSimulation`
  (`BuildLoops`) and the `for` loop of `calculateRecommendedLoop` are proved
  against `Simulate` and `Recommend`.

Two behaviours of the code that a reader might not expect:

- Take rows with health factors 1.41, 1.39 and 1.10 after loop 0. One might
  expect the 1.39 row to be recommended. Both rows are 0.01 from 1.40, and the
  strict `<` at script.js:170 keeps the earlier one, so the recommendation is
  the 1.41 row (index 1). See `Recommendation.TieKeepsFirst`.
- With the Bitcoin defaults (LTV 70%, threshold 75%), one might expect the
  run to end on the 1.07 health-factor cutoff. When the threshold is at least
  1.07 × LTV (75 ≥ 74.9 here), a loop that adds debt always lands above 1.07.
  So such a run ends only on the $1 rule or at the cap. See
  `Simulation.WideMarginRunEndsOnIncrement`.

## Model

| member | source | states |
|---|---|---|
| Numbers.Less | script.js:170 | JavaScript `<`: on two finite values it is real `<`; it is false whenever NaN is involved; anything but NaN and +Infinity is below +Infinity; nothing is below -Infinity and +Infinity is below nothing |
| Numbers.LessEq | script.js:235 | JavaScript `<=`: on two finite values it is real `<=`; it is false whenever NaN is involved; anything but NaN is at most +Infinity, and +Infinity is not at most a finite value |
| Numbers.LessTransitive | script.js:170 | JavaScript `<` is transitive, which the recommendation scan relies on |
| Numbers.NotLessThenAbove | script.js:170 | away from NaN, a value not below `s` is above anything below `s` |
| Numbers.Divide | script.js:115 | a nonzero divisor gives the finite quotient; a zero divisor gives a non-finite value (±Infinity or NaN) |
| Numbers.Distance | script.js:169 | `Math.abs(x - c)` is finite, non-negative and equal to ±(x − c) for finite x; it is +Infinity for infinite x and NaN exactly for NaN |
| Health.HealthFactor | script.js:111-113 | the health factor is finite exactly when the debt is positive, and then times the debt equals collateral value × threshold; otherwise it is +Infinity |
| Health.HealthyIffCovered | script.js:111-113 | with debt, the health factor is above 1 exactly when the weighted collateral exceeds the debt, and equals 1 exactly when the two are equal |
| Health.LiquidationPrice | script.js:115 | 0 when there is no collateral; otherwise the price × (collateral × threshold) equals the debt; with a zero threshold it is not finite |
| Health.LiquidationPriceIsBreakEven | script.js:111-115 | re-evaluating the health factor at the liquidation price gives exactly 1 |
| Health.HealthyIffAboveLiquidationPrice | script.js:111-115 | the position is healthy (factor above 1) exactly when the price is above the liquidation price |
| Health.RowLeverage | script.js:153 | the leverage column scales the stored leverage by current/base price; a zero base price falls back to the current price (factor 1), and 0/0 gives NaN |
| Health.RowLeverageAtBasePrice | script.js:153 | at the price the table was built for, the column shows the stored leverage unchanged |
| Health.HealthBand | script.js:93-99 | exactly one band applies: red at or below 1.07, orange up to 1.25, yellow up to 1.5, green above 1.5 or when not finite |
| Health.HealthBandMonotone | script.js:93-99 | a larger health factor never gets a more alarming colour |
| Simulation.ReadParams | script.js:208-213 | a run starts exactly when amount, price, LTV and threshold are numbers and the amount is positive; the percentages are divided by 100 and a NaN debt counts as 0 |
| Simulation.DebtOrZero | script.js:211 | the debt falls back to 0 on NaN: it is 0 exactly when the field is NaN or 0, and otherwise the parsed value |
| Simulation.RowHealthFactor | script.js:143-144 | a row's factor re-evaluated at a price is finite exactly when the row has debt, and then times the debt equals collateral × price × threshold; otherwise Infinity |
| Simulation.RowHealthFactorMonotoneInPrice | script.js:167-168 | with non-negative collateral and threshold, re-evaluating a row at a higher price never lowers its health factor |
| Simulation.StopsIffSmallOrRed | script.js:233-236 | a tentative loop stops exactly when it adds less than $1 or it has debt and a factor at or below 1.07; with no debt the factor is Infinity and only the $1 rule applies |
| Simulation.Leverage | script.js:219-241 | leverage is 0 when the initial USD value is not positive; otherwise leverage × initial value equals the collateral's value |
| Simulation.StepsShape | script.js:223-226 | the loop commits at most as many rows as it has iterations left, numbered consecutively from the next loop count |
| Simulation.StepsCommitted | script.js:225-243 | each committed row follows from the one before it by one commit-guarded borrow-and-redeposit step |
| Simulation.StepsEnd | script.js:225-237 | the loop ends only when its iterations run out or the next tentative loop fails the stop test |
| Simulation.StoredHealthFactorAtBuildPrice | script.js:221-243 | loop 0 stores Infinity even when existing debt makes its re-evaluated factor finite; every later row stores the factor of its own collateral and debt at the build price |
| Simulation.AttemptArithmetic | script.js:227-233 | the tentative loop's debt is the previous collateral × price × LTV, and its health factor is that of its own collateral and debt |
| Simulation.CommitOfAttempt | script.js:227-243 | a tentative loop that passes the stop test is a committed row in the sense of `Committed` |
| Simulation.SimulateShape | script.js:216-226 | row 0 is the deposit (health factor Infinity, leverage 1, even with existing debt), row i has loop count i, and there are 1 to 101 rows |
| Simulation.SimulateCommitted | script.js:225-243 | every row after loop 0 has debt = previous collateral × price × LTV and increment ≥ $1; its collateral is the previous plus increment/price; its health factor is above 1.07; its leverage is collateral value over the initial value (0 when that is not positive) |
| Simulation.SimulateEnd | script.js:225-237 | the table ends only at the 100-loop cap or where the next tentative loop fails the stop test, so a rejected loop is never recorded |
| Simulation.CommittedGrows | script.js:235-240 | one committed loop adds at least $1 of debt and, at a positive price, strictly more collateral |
| Simulation.SimulateMonotone | script.js:225-243 | between any two rows, debt grows by at least $1 per loop, and at a positive price collateral strictly grows |
| Simulation.WideMarginStopsOnlyOnIncrement | script.js:233-235 | when the threshold is at least 1.07 × LTV, the stop test fires exactly when the increment is below $1 |
| Simulation.WideMarginRunEndsOnIncrement | script.js:225-237 | under that margin, a run shorter than the cap ended because the next loop would add less than $1 |
| Simulation.IncrementShrinks | script.js:227-231 | after a tentative loop, the next one's borrowable amount is exactly LTV times this one's increment |
| Simulation.SimulateIncrementsShrink | script.js:225-243 | from loop 2 on, each row's new debt is exactly LTV times the previous row's, and strictly smaller when the LTV is below 1; with a threshold of at least 1.07 × LTV (`WideMarginRunEndsOnIncrement`) the increments fall geometrically toward the $1 rule, unless the cap comes first |
| Simulation.ChainIncrementsShrink | script.js:225-243 | the same recurrence for any sequence of rows each committed after the one before |
| Simulation.LeverageIsCollateralRatio | script.js:219-241 | for a real deposit at a positive price, leverage is collateral units over deposited units, and 1 for the deposit |
| Simulation.SimulatedLeverage | script.js:221-243 | every row's stored leverage is its collateral over the initial amount |
| Simulation.DisplayedLeverage | script.js:153 | the leverage column shows collateral value at the current price over the deposit's value at the base price |
| Simulation.CommittedRowsNotRed | script.js:95 | re-shown at the build price, no row after loop 0 is coloured red |
| Recommendation.RowDistance | script.js:167-169 | a row's distance from 1.40 is never NaN |
| Recommendation.Scan | script.js:166-174 | the scan ends on the row it started with or on a later row strictly closer to 1.40 than the starting distance |
| Recommendation.Recommend | script.js:160-175 | the recommendation is 0 for at most one row, and otherwise an index in 1..len-1 |
| Recommendation.ScanFindsBest | script.js:163-175 | the scan continued from any consistent intermediate state ends at the first closest row |
| Recommendation.RecommendIsBest | script.js:159-176 | the recommendation is 0 for at most one row; otherwise it is in 1..len-1, no row is strictly closer to 1.40, and every earlier row is strictly farther |
| Recommendation.BestIsUnique | script.js:170 | at most one index is the first closest row, so this pins the recommendation down |
| Recommendation.AllUnboundedKeepsFirst | script.js:163-173 | when every row after loop 0 has an infinite health factor, the recommendation stays 1 |
| Recommendation.TieKeepsFirst | script.js:169-172 | with health factors 1.41, 1.39, 1.10 the tie between the first two goes to index 1 |
| Recommendation.LastIndex | script.js:305 | `Math.max(0, n - 1)` is the largest index of a non-empty table, and 0 for an empty one |
| Recommendation.ConservativeIndex | script.js:291-293 | the conservative index is in range and is 1 exactly when there is more than one row |
| Recommendation.ClampIndex | script.js:248-249 | clamping leaves an in-range index alone, sends one above the end to the last row and a negative one to 0 |
| Recommendation.PresetsOrdered | script.js:289-306 | conservative ≤ recommended ≤ last row, and the recommended index needs no clamping |
| Calculator.SnapshotConsistent | script.js:109-115 | `RowSnapshot`, the numbers shown for the selected loop: without debt the factor is Infinity and without collateral the liquidation price is 0; with both and a positive threshold, the factor is above 1 exactly when the price is above the liquidation price |
| Calculator.LoopCalculator.constructor | script.js:4-9 | the page starts with an empty table, both prices 0, both indices 0 and no calculation done, and the class invariant holds |
| Calculator.TentativeLoop | script.js:227-233 | the loop body's arithmetic before the stop test computes exactly the tentative loop `Attempt`, whose debt, health factor and shrinking increment the `Simulation` lemmas describe |
| Calculator.FallbackPrice | script.js:85 | the fallback prices are positive |
| Calculator.LoopCalculator.ApplyFetchedPrice | script.js:78-88 | the fetched price, or the asset's fallback, becomes both the base and the current price, and the class invariant is kept |
| Calculator.LoopCalculator.MinusDisabled | script.js:132 | the step-down button is enabled exactly when one loop back is a row of the table |
| Calculator.LoopCalculator.PlusDisabled | script.js:129-133 | the step-up button is enabled exactly when one loop forward is a row of the table |
| Calculator.LoopCalculator.Display | script.js:101-115 | there is something to show exactly when the selected index names a row, and then it is that loop |
| Calculator.LoopCalculator.CalculateRecommendedLoop | script.js:159-176 | the `for` loop sets the recommended index to `Recommend`, the first closest row |
| Calculator.LoopCalculator.RunFullSimulation | script.js:207-253 | invalid input changes nothing. Valid input: the table becomes `Simulate(p)` at the given price; the recommendation is recomputed; the selection is clamped into the table; the base price and `calculationDone` are kept |
| Calculator.LoopCalculator.BuildLoops | script.js:215-244 | the `while` loop builds exactly `Simulate(p)` |
| Calculator.LoopCalculator.LoopMinus | script.js:273-279 | moves one loop back exactly when a calculation is done and the button is enabled; otherwise nothing changes |
| Calculator.LoopCalculator.LoopPlus | script.js:281-287 | moves one loop forward exactly when a calculation is done and the button is enabled; otherwise nothing changes |
| Calculator.LoopCalculator.PresetConservative | script.js:290-297 | selects loop 1 if the table has more than one row, else 0, and marks the calculation done |
| Calculator.LoopCalculator.PresetRecommended | script.js:298-303 | selects the clamped recommended index, which equals the recommended index, and marks the calculation done |
| Calculator.LoopCalculator.PresetDegen | script.js:304-309 | selects the last row (0 for an empty table) and marks the calculation done |
| Calculator.LoopCalculator.PresetTarget | script.js:289-309 | each preset's index lies in the table's index range |
| Calculator.LoopCalculator.ClickPreset | script.js:316-318 | marks the calculation done and keeps both prices. An invalid form keeps the table and the recommendation, and selects the preset's index. A valid form rebuilds the table and the recommendation at the current price, and selects the preset's index clamped into the new table |
| Calculator.LoopCalculator.EditPrice | script.js:320-334 | a missing or non-positive price changes nothing. A positive one marks the calculation done and keeps the base price. With an invalid form nothing else changes. With a valid form the table and the recommendation are rebuilt at that price and the selection is clamped |
| Calculator.LoopCalculator.Calculate | script.js:336-344 | selects loop 0, marks the calculation done and keeps the base price. An invalid form keeps the table, the current price and the recommendation. A valid form rebuilds the table and the recommendation at the base price |

## Left out

- Price fetching (`fetchAssetData`) is network I/O. Only its effect on the two prices is modelled (`ApplyFetchedPrice`), with the fetched price as a parameter. The read-only toggle of the price field is not modelled.
- `debounce` depends on timers. The debounced price handler is modelled as `EditPrice`, like the `change` handler.
- Localisation (`renderLanguage`) and `handleAssetChange` are not modelled. Apart from their DOM text, `renderLanguage` re-runs the simulation at the current price whenever a table exists (script.js:68-70); that re-run is `RunFullSimulation(Some(currentPrice), form)`. `handleAssetChange` writes the asset's default LTV and threshold from the `assetParams` table into the form (script.js:199-200), starts a price fetch (`ApplyFetchedPrice`) and calls `renderLanguage`, which re-runs at the price current at that moment (script.js:204).
- Formatting and DOM writes are not modelled: `toFixed`, `toLocaleString`, HTML table rows, the information cards, the `rebuild` flag that unhides the results. Only the numbers behind them are.
- The donation modal and clipboard code are UI only.
- `parseFloat` is not modelled. Form fields arrive already parsed, with `None` for NaN. An infinite field (`parseFloat("Infinity")`, `parseFloat("1e400")`) passes the NaN guard at script.js:213 and runs the loop, but a field of type `Option<real>` cannot hold it, so such runs are not modelled.
- IEEE-754 doubles are modelled as exact reals, so rounding, overflow to ±Infinity in the loop arithmetic and signed zero are not captured.
- Calculator.LoopCalculator.RunFullSimulation: requires a nonzero price, because the source divides by it. Every caller passes a positive price once a price has been fetched.
- Calculator.LoopCalculator.ClickPreset: requires a nonzero current price, so it does not model a preset click before any price has been fetched.
- Calculator.LoopCalculator.Calculate: requires a nonzero base price, so it does not model the Calculate button before any price has been fetched.
- Calculator.LoopCalculator.Display: takes the threshold as an already-parsed real, so a NaN threshold field at display time is not modelled.
- The end of the Bitcoin default run is not computed numerically. `Simulation.WideMarginRunEndsOnIncrement` states which stop rule ends it, and `Simulation.SimulateIncrementsShrink` explains why it ends: the increments shrink by a factor of 0.7 per loop. That the first increment times 0.7 to the k falls below $1 before the 100-loop cap is not proved.
