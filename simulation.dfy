/**
 * The loop simulator as a specification: the sequence of loop states that
 * `runFullSimulation` builds, defined step by step, and what is proved about it.
 */
module Simulation {
  import opened Numbers
  import opened Health

  /** The hard cap on loop iterations (`MAX_LOOPS`). */
  const MaxLoops: nat := 100
  /** A loop that would add less than this many dollars of debt is not taken. */
  const MinIncrement: real := 1.0

  /** The form fields the simulator reads, already parsed; `None` is NaN. */
  datatype Form = Form(amount: Option<real>, ltvPercent: Option<real>, thresholdPercent: Option<real>, debt: Option<real>)

  /** One run's inputs: collateral units, USD price, and the two fractions. */
  datatype Params = Params(amount: real, price: real, ltv: real, threshold: real, debt: real)

  /** One row of `allLoopsData`. */
  datatype LoopState = LoopState(loopCount: nat, totalCollateral: real, totalBorrowedUsd: real, healthFactor: Num, leverage: real)

  /** The next loop as computed before the stop test decides whether to keep it. */
  datatype Tentative = Tentative(increment: real, debt: real, collateral: real, healthFactor: Num)

  /** `parseFloat(debtField) || 0`: a NaN debt counts as no debt. */
  function DebtOrZero(d: Option<real>): (debt: real)
    ensures debt == 0.0 <==> d.None? || d.value == 0.0
    ensures d.Some? ==> debt == d.value
  {
    match d
    case Some(x) => x
    case None => 0.0
  }

  /**
   * The guard of `runFullSimulation`: `None` when the amount, price, LTV or
   * threshold is NaN or the amount is not positive; the percentages become fractions.
   */
  function ReadParams(form: Form, price: Option<real>): (r: Option<Params>)
    ensures r.Some? <==> form.amount.Some? && price.Some? && form.ltvPercent.Some?
                         && form.thresholdPercent.Some? && form.amount.value > 0.0
    ensures r.Some? ==> && r.value.amount == form.amount.value && r.value.price == price.value
                        && r.value.ltv * 100.0 == form.ltvPercent.value
                        && r.value.threshold * 100.0 == form.thresholdPercent.value
                        && r.value.debt == (if form.debt.Some? then form.debt.value else 0.0)
  {
    if form.amount.None? || price.None? || form.ltvPercent.None? || form.thresholdPercent.None? then None
    else if form.amount.value <= 0.0 then None
    else Some(Params(form.amount.value, price.value, form.ltvPercent.value / 100.0,
                     form.thresholdPercent.value / 100.0, DebtOrZero(form.debt)))
  }

  /** The price a run divides by must not be zero; every caller passes a positive one. */
  predicate PriceUsable(price: Option<real>)
  {
    price.Some? ==> price.value != 0.0
  }

  /** A row's health factor re-evaluated at `price`, as the table and the display do. */
  function RowHealthFactor(row: LoopState, price: real, threshold: real): (h: Num)
    ensures h.Finite? <==> row.totalBorrowedUsd > 0.0
    ensures !h.Finite? ==> h == PosInf
    ensures h.Finite? ==> h.value * row.totalBorrowedUsd == row.totalCollateral * price * threshold
  {
    HealthFactor(row.totalCollateral * price, threshold, row.totalBorrowedUsd)
  }

  /** Loop 0: the deposit alone, with no new borrowing. */
  function InitialState(p: Params): LoopState
  {
    LoopState(0, p.amount, p.debt, PosInf, 1.0)
  }

  /** With non-negative collateral and threshold, a higher price never lowers a row's health factor. */
  lemma RowHealthFactorMonotoneInPrice(row: LoopState, price1: real, price2: real, threshold: real)
    requires row.totalCollateral >= 0.0 && threshold >= 0.0 && price1 <= price2
    ensures LessEq(RowHealthFactor(row, price1, threshold), RowHealthFactor(row, price2, threshold))
  {
    var d := row.totalBorrowedUsd;
    if d > 0.0 {
      var h1 := RowHealthFactor(row, price1, threshold).value;
      var h2 := RowHealthFactor(row, price2, threshold).value;
      var w := row.totalCollateral * threshold;
      assert w >= 0.0;
      assert h1 * d == price1 * w;
      assert h2 * d == price2 * w;
      assert price1 * w <= price2 * w;
      assert h1 * d <= h2 * d;
    }
  }

  /** Borrow up to the LTV cap on the current collateral and redeposit it. */
  function Attempt(p: Params, collateral: real, debt: real): Tentative
    requires p.price != 0.0
  {
    var increment := collateral * p.price * p.ltv - debt;
    var nextDebt := debt + increment;
    var nextCollateral := collateral + increment / p.price;
    Tentative(increment, nextDebt, nextCollateral, HealthFactor(nextCollateral * p.price, p.threshold, nextDebt))
  }

  /** The stop test: a negligible increment, or a next health factor in the red band. */
  predicate Stops(t: Tentative)
  {
    t.increment < MinIncrement || LessEq(t.healthFactor, Finite(RedLimit))
  }

  /** Collateral value over the initial deposit's value, or 0 when that is not positive. */
  function Leverage(p: Params, collateral: real): (l: real)
    ensures p.amount * p.price <= 0.0 ==> l == 0.0
    ensures p.amount * p.price > 0.0 ==> l * (p.amount * p.price) == collateral * p.price
  {
    var initialUsd := p.amount * p.price;
    if initialUsd > 0.0 then collateral * p.price / initialUsd else 0.0
  }

  /**
   * The stop test in plain terms: JavaScript's `Infinity <= 1.07` is false, so
   * a loop with no debt stops only on the $1 rule.
   */
  lemma StopsIffSmallOrRed(p: Params, collateral: real, debt: real)
    requires p.price != 0.0
    ensures var t := Attempt(p, collateral, debt);
            (Stops(t) <==> t.increment < MinIncrement
                           || (t.debt > 0.0 && t.healthFactor.value <= RedLimit))
            && (t.debt <= 0.0 ==> (Stops(t) <==> t.increment < MinIncrement))
  {
  }

  /** The rows committed after `done` loops ended at `collateral` and `debt`. */
  function Steps(p: Params, collateral: real, debt: real, done: nat): seq<LoopState>
    requires p.price != 0.0 && done <= MaxLoops
    decreases MaxLoops - done
  {
    if done == MaxLoops then []
    else
      var t := Attempt(p, collateral, debt);
      if Stops(t) then []
      else [LoopState(done + 1, t.collateral, t.debt, t.healthFactor, Leverage(p, t.collateral))]
           + Steps(p, t.collateral, t.debt, done + 1)
  }

  /** The whole table a valid run builds. */
  function Simulate(p: Params): seq<LoopState>
    requires p.price != 0.0
  {
    [InitialState(p)] + Steps(p, p.amount, p.debt, 0)
  }

  /** What committing `next` after a loop that ended at `prevCollateral`, `prevDebt` means. */
  ghost predicate Committed(p: Params, prevCollateral: real, prevDebt: real, next: LoopState)
    requires p.price != 0.0
  {
    var increment := next.totalBorrowedUsd - prevDebt;
    && next.totalBorrowedUsd == prevCollateral * p.price * p.ltv
    && increment >= MinIncrement
    && next.totalCollateral == prevCollateral + increment / p.price
    && next.healthFactor == RowHealthFactor(next, p.price, p.threshold)
    && (next.healthFactor == PosInf || next.healthFactor.value > RedLimit)
    && next.leverage == Leverage(p, next.totalCollateral)
  }

  /** The tentative loop's health factor is that of its own collateral and debt. */
  lemma AttemptArithmetic(p: Params, collateral: real, debt: real)
    requires p.price != 0.0
    ensures var t := Attempt(p, collateral, debt);
            && t.debt == collateral * p.price * p.ltv
            && t.healthFactor == HealthFactor(t.collateral * p.price, p.threshold, t.debt)
  {
    var t := Attempt(p, collateral, debt);
    var increment := collateral * p.price * p.ltv - debt;
    assert t.collateral == collateral + increment / p.price;
    assert t.healthFactor == HealthFactor((collateral + increment / p.price) * p.price, p.threshold, debt + increment);
  }

  /** A tentative loop that passes the stop test is committed in the sense of `Committed`. */
  lemma CommitOfAttempt(p: Params, collateral: real, debt: real, done: nat)
    requires p.price != 0.0
    requires !Stops(Attempt(p, collateral, debt))
    ensures var t := Attempt(p, collateral, debt);
            Committed(p, collateral, debt, LoopState(done + 1, t.collateral, t.debt, t.healthFactor, Leverage(p, t.collateral)))
  {
    AttemptArithmetic(p, collateral, debt);
  }

  lemma {:induction false} StepsShape(p: Params, collateral: real, debt: real, done: nat)
    requires p.price != 0.0 && done <= MaxLoops
    ensures |Steps(p, collateral, debt, done)| <= MaxLoops - done
    ensures forall i :: 0 <= i < |Steps(p, collateral, debt, done)| ==>
              Steps(p, collateral, debt, done)[i].loopCount == done + 1 + i
    decreases MaxLoops - done
  {
    if done < MaxLoops {
      var t := Attempt(p, collateral, debt);
      if !Stops(t) {
        StepsShape(p, t.collateral, t.debt, done + 1);
      }
    }
  }

  /** Row 0 is the deposit, row i has loop count i, and there are at most 101 rows. */
  lemma SimulateShape(p: Params)
    requires p.price != 0.0
    ensures 1 <= |Simulate(p)| <= MaxLoops + 1
    ensures Simulate(p)[0] == LoopState(0, p.amount, p.debt, PosInf, 1.0)
    ensures forall i :: 0 <= i < |Simulate(p)| ==> Simulate(p)[i].loopCount == i
  {
    StepsShape(p, p.amount, p.debt, 0);
  }

  lemma {:induction false} StepsCommitted(p: Params, collateral: real, debt: real, done: nat)
    requires p.price != 0.0 && done <= MaxLoops
    ensures var s := Steps(p, collateral, debt, done);
            && (|s| > 0 ==> Committed(p, collateral, debt, s[0]))
            && forall i :: 1 <= i < |s| ==> Committed(p, s[i - 1].totalCollateral, s[i - 1].totalBorrowedUsd, s[i])
    decreases MaxLoops - done
  {
    if done < MaxLoops {
      var t := Attempt(p, collateral, debt);
      if !Stops(t) {
        var s := Steps(p, collateral, debt, done);
        var rest := Steps(p, t.collateral, t.debt, done + 1);
        assert s == [s[0]] + rest;
        StepsCommitted(p, t.collateral, t.debt, done + 1);
        CommitOfAttempt(p, collateral, debt, done);
        forall i | 1 <= i < |s|
          ensures Committed(p, s[i - 1].totalCollateral, s[i - 1].totalBorrowedUsd, s[i])
        {
          assert s[i] == rest[i - 1];
          if i >= 2 {
            assert s[i - 1] == rest[i - 2];
          }
        }
      }
    }
  }

  /**
   * Every row after loop 0 passed the commit guard and follows from the row
   * before it by one borrow-and-redeposit step.
   */
  lemma SimulateCommitted(p: Params)
    requires p.price != 0.0
    ensures forall i :: 1 <= i < |Simulate(p)| ==>
              Committed(p, Simulate(p)[i - 1].totalCollateral, Simulate(p)[i - 1].totalBorrowedUsd, Simulate(p)[i])
  {
    var r := Simulate(p);
    var s := Steps(p, p.amount, p.debt, 0);
    StepsCommitted(p, p.amount, p.debt, 0);
    forall i | 1 <= i < |r|
      ensures Committed(p, r[i - 1].totalCollateral, r[i - 1].totalBorrowedUsd, r[i])
    {
      assert r[i] == s[i - 1];
      if i >= 2 {
        assert r[i - 1] == s[i - 2];
      }
    }
  }

  /**
   * The stored health factor is the one computed at build time: Infinity for
   * loop 0 even when an existing debt makes its re-evaluated factor finite,
   * and for later loops the factor of the row's own collateral and debt.
   */
  lemma StoredHealthFactorAtBuildPrice(p: Params, i: nat)
    requires p.price != 0.0
    requires i < |Simulate(p)|
    ensures i == 0 ==> Simulate(p)[i].healthFactor == PosInf
    ensures i == 0 ==> (RowHealthFactor(Simulate(p)[i], p.price, p.threshold).Finite? <==> p.debt > 0.0)
    ensures i >= 1 ==> Simulate(p)[i].healthFactor == RowHealthFactor(Simulate(p)[i], p.price, p.threshold)
  {
    var r := Simulate(p);
    SimulateShape(p);
    if i >= 1 {
      SimulateCommitted(p);
      assert Committed(p, r[i - 1].totalCollateral, r[i - 1].totalBorrowedUsd, r[i]);
    }
  }

  lemma {:induction false} StepsEnd(p: Params, collateral: real, debt: real, done: nat)
    requires p.price != 0.0 && done <= MaxLoops
    ensures var s := Steps(p, collateral, debt, done);
            var last := if s == [] then (collateral, debt) else (s[|s| - 1].totalCollateral, s[|s| - 1].totalBorrowedUsd);
            |s| == MaxLoops - done || Stops(Attempt(p, last.0, last.1))
    decreases MaxLoops - done
  {
    if done < MaxLoops {
      var t := Attempt(p, collateral, debt);
      if !Stops(t) {
        var s := Steps(p, collateral, debt, done);
        var rest := Steps(p, t.collateral, t.debt, done + 1);
        assert s == [s[0]] + rest;
        StepsEnd(p, t.collateral, t.debt, done + 1);
        if rest != [] {
          assert s[|s| - 1] == rest[|rest| - 1];
        }
      }
    }
  }

  /** The table ends only at the cap or where the next loop would fail the stop test. */
  lemma SimulateEnd(p: Params)
    requires p.price != 0.0
    ensures var r := Simulate(p);
            |r| == MaxLoops + 1 || Stops(Attempt(p, r[|r| - 1].totalCollateral, r[|r| - 1].totalBorrowedUsd))
  {
    var s := Steps(p, p.amount, p.debt, 0);
    StepsEnd(p, p.amount, p.debt, 0);
    if s != [] {
      assert Simulate(p)[|Simulate(p)| - 1] == s[|s| - 1];
    }
  }

  /** One committed loop adds at least $1 of debt and, at a positive price, some collateral. */
  lemma CommittedGrows(p: Params, prevCollateral: real, prevDebt: real, next: LoopState)
    requires p.price != 0.0
    requires Committed(p, prevCollateral, prevDebt, next)
    ensures next.totalBorrowedUsd >= prevDebt + MinIncrement
    ensures p.price > 0.0 ==> prevCollateral < next.totalCollateral
  {
    var increment := next.totalBorrowedUsd - prevDebt;
    if p.price > 0.0 {
      assert increment / p.price > 0.0;
    }
  }

  /**
   * Debt grows by at least $1 per loop, and with a positive price the
   * collateral strictly grows too.
   */
  lemma {:induction false} SimulateMonotone(p: Params, i: nat, j: nat)
    requires p.price != 0.0
    requires i < j < |Simulate(p)|
    ensures Simulate(p)[j].totalBorrowedUsd >= Simulate(p)[i].totalBorrowedUsd + (j - i) as real * MinIncrement
    ensures p.price > 0.0 ==> Simulate(p)[i].totalCollateral < Simulate(p)[j].totalCollateral
    decreases j - i
  {
    var r := Simulate(p);
    SimulateCommitted(p);
    CommittedGrows(p, r[j - 1].totalCollateral, r[j - 1].totalBorrowedUsd, r[j]);
    if i < j - 1 {
      SimulateMonotone(p, i, j - 1);
    }
  }

  /**
   * When the threshold is at least 1.07 times the LTV, a loop that adds debt
   * always lands above the red limit, so only the $1 rule (or the cap) can stop
   * the run; the Bitcoin defaults (LTV 70%, threshold 75%) are such a case.
   */
  lemma WideMarginStopsOnlyOnIncrement(p: Params, collateral: real, debt: real)
    requires p.price > 0.0 && p.ltv > 0.0 && collateral > 0.0
    requires p.threshold >= RedLimit * p.ltv
    ensures Stops(Attempt(p, collateral, debt)) <==> Attempt(p, collateral, debt).increment < MinIncrement
  {
    var t := Attempt(p, collateral, debt);
    AttemptArithmetic(p, collateral, debt);
    if t.increment >= MinIncrement {
      assert t.collateral > collateral by {
        assert t.increment / p.price > 0.0;
      }
      PositiveProduct(collateral, p.price, p.ltv);
      RatioAboveRedLimit(t.healthFactor.value, t.collateral, collateral, p.price, p.threshold, p.ltv);
    }
  }

  /** With such a margin, a run shorter than the cap ended because the next loop would add less than $1. */
  lemma WideMarginRunEndsOnIncrement(p: Params)
    requires p.price > 0.0 && p.ltv > 0.0 && p.amount > 0.0
    requires p.threshold >= RedLimit * p.ltv
    ensures var r := Simulate(p);
            |r| == MaxLoops + 1
            || Attempt(p, r[|r| - 1].totalCollateral, r[|r| - 1].totalBorrowedUsd).increment < MinIncrement
  {
    var r := Simulate(p);
    SimulateShape(p);
    SimulateEnd(p);
    if |r| > 1 {
      SimulateMonotone(p, 0, |r| - 1);
    }
    WideMarginStopsOnlyOnIncrement(p, r[|r| - 1].totalCollateral, r[|r| - 1].totalBorrowedUsd);
  }

  lemma PositiveProduct(a: real, b: real, c: real)
    requires a > 0.0 && b > 0.0 && c > 0.0
    ensures a * b * c > 0.0
  {
    assert a * b > 0.0;
  }

  /** The arithmetic of the lemma above: more collateral than the debt was sized on keeps the factor above thr / ltv. */
  lemma RatioAboveRedLimit(h: real, nextCollateral: real, collateral: real, price: real, threshold: real, ltv: real)
    requires price > 0.0 && ltv > 0.0 && collateral > 0.0 && nextCollateral > collateral
    requires threshold >= RedLimit * ltv
    requires h * (collateral * price * ltv) == nextCollateral * price * threshold
    ensures h > RedLimit
  {
    var w := collateral * price;
    assert w > 0.0;
    var d := w * ltv;
    assert d > 0.0;
    assert threshold > 0.0;
    assert nextCollateral * price > w;
    assert nextCollateral * price * threshold > w * threshold;
    assert w * threshold >= w * (RedLimit * ltv);
    assert w * (RedLimit * ltv) == RedLimit * d;
    assert h * d > RedLimit * d;
  }

  /**
   * Redepositing an increment adds increment / price units, whose value at the
   * same price is the increment again; borrowing against it at the LTV adds
   * exactly LTV times that increment to the next loop's borrowable amount.
   */
  lemma {:induction false} IncrementShrinks(p: Params, collateral: real, debt: real)
    requires p.price != 0.0
    ensures var t := Attempt(p, collateral, debt);
            Attempt(p, t.collateral, t.debt).increment == p.ltv * t.increment
  {
    var t := Attempt(p, collateral, debt);
    AttemptArithmetic(p, collateral, debt);
    RedepositValue(collateral, t.increment, p.price, p.ltv);
  }

  /** The arithmetic of `IncrementShrinks`: `(c + inc / P) * P * ltv - c * P * ltv == ltv * inc`. */
  lemma RedepositValue(c: real, inc: real, price: real, ltv: real)
    requires price != 0.0
    ensures (c + inc / price) * price * ltv - c * price * ltv == ltv * inc
  {
    assert (inc / price) * price == inc;
    assert (c + inc / price) * price == c * price + inc;
  }

  /**
   * Row `i` of `r` adds exactly LTV times the new debt of row `i - 1`, and with
   * an LTV below 1 strictly less.
   */
  ghost predicate IncrementShrinksAt(p: Params, r: seq<LoopState>, i: nat)
    requires 2 <= i < |r|
  {
    var inc1 := r[i - 1].totalBorrowedUsd - r[i - 2].totalBorrowedUsd;
    var inc2 := r[i].totalBorrowedUsd - r[i - 1].totalBorrowedUsd;
    && inc2 == p.ltv * inc1
    && (0.0 <= p.ltv < 1.0 ==> inc2 < inc1)
  }

  /**
   * From loop 2 on, each loop adds exactly LTV times the previous loop's new
   * debt; with an LTV below 1 the increments strictly shrink toward the $1 rule.
   */
  lemma SimulateIncrementsShrink(p: Params, i: nat)
    requires p.price != 0.0
    requires 2 <= i < |Simulate(p)|
    ensures IncrementShrinksAt(p, Simulate(p), i)
  {
    var r := Simulate(p);
    SimulateCommitted(p);
    assert Chain(p, r);
    ChainIncrementsShrink(p, r, i);
  }

  /** Each row of `r` after the first is committed after the one before it. */
  ghost predicate Chain(p: Params, r: seq<LoopState>)
    requires p.price != 0.0
  {
    forall i :: 1 <= i < |r| ==> Committed(p, r[i - 1].totalCollateral, r[i - 1].totalBorrowedUsd, r[i])
  }

  lemma ChainIncrementsShrink(p: Params, r: seq<LoopState>, i: nat)
    requires p.price != 0.0 && Chain(p, r)
    requires 2 <= i < |r|
    ensures IncrementShrinksAt(p, r, i)
  {
    var row0, row1, row2 := r[i - 2], r[i - 1], r[i];
    assert Committed(p, row0.totalCollateral, row0.totalBorrowedUsd, row1);
    assert Committed(p, row1.totalCollateral, row1.totalBorrowedUsd, row2);
    CommittedIncrementsShrink(p, row0.totalCollateral, row0.totalBorrowedUsd, row1, row2);
  }

  /** Two committed loops in a row: the second increment is LTV times the first. */
  lemma CommittedIncrementsShrink(p: Params, c0: real, d0: real, row1: LoopState, row2: LoopState)
    requires p.price != 0.0
    requires Committed(p, c0, d0, row1)
    requires Committed(p, row1.totalCollateral, row1.totalBorrowedUsd, row2)
    ensures row2.totalBorrowedUsd - row1.totalBorrowedUsd == p.ltv * (row1.totalBorrowedUsd - d0)
    ensures 0.0 <= p.ltv < 1.0 ==> row2.totalBorrowedUsd - row1.totalBorrowedUsd < row1.totalBorrowedUsd - d0
  {
    IncrementRecurrence(c0, d0, row1.totalCollateral, row1.totalBorrowedUsd, row2.totalBorrowedUsd, p.price, p.ltv);
  }

  /** The arithmetic of two consecutive loops, over plain reals. */
  lemma IncrementRecurrence(c0: real, d0: real, c1: real, d1: real, d2: real, price: real, ltv: real)
    requires price != 0.0
    requires d1 == c0 * price * ltv && d1 - d0 >= MinIncrement
    requires c1 == c0 + (d1 - d0) / price
    requires d2 == c1 * price * ltv
    ensures d2 - d1 == ltv * (d1 - d0)
    ensures 0.0 <= ltv < 1.0 ==> d2 - d1 < d1 - d0
  {
    var inc := d1 - d0;
    RedepositValue(c0, inc, price, ltv);
    assert d2 - d1 == ltv * inc;
    if 0.0 <= ltv < 1.0 {
      assert (1.0 - ltv) * inc > 0.0;
      assert ltv * inc == inc - (1.0 - ltv) * inc;
    }
  }

  /** For a real deposit at a positive price, leverage is collateral units over deposited units. */
  lemma LeverageIsCollateralRatio(p: Params, collateral: real)
    requires p.amount > 0.0 && p.price > 0.0
    ensures Leverage(p, collateral) == collateral / p.amount
    ensures Leverage(p, p.amount) == 1.0
  {
    var u := p.amount * p.price;
    assert u > 0.0;
    var l := collateral * p.price / u;
    assert l * u == collateral * p.price;
    assert (l * p.amount - collateral) * p.price == 0.0;
    assert l * p.amount == collateral;
    assert Leverage(p, p.amount) == u / u == 1.0;
  }

  /** Re-shown at the price it was built at, no row after loop 0 is coloured red. */
  lemma CommittedRowsNotRed(p: Params, i: nat)
    requires p.price != 0.0
    requires 1 <= i < |Simulate(p)|
    ensures HealthBand(RowHealthFactor(Simulate(p)[i], p.price, p.threshold)) != Red
  {
    SimulateCommitted(p);
    var r := Simulate(p);
    assert Committed(p, r[i - 1].totalCollateral, r[i - 1].totalBorrowedUsd, r[i]);
  }

  /**
   * In the leverage column, a row whose leverage is collateral over deposited
   * units (every simulated row, by `SimulatedLeverage`) shows its collateral
   * value at the current price over the deposit's value at the base price.
   */
  lemma DisplayedLeverage(row: LoopState, amount: real, currentPrice: real, basePrice: real)
    requires amount > 0.0 && basePrice != 0.0
    requires row.leverage == row.totalCollateral / amount
    ensures RowLeverage(row.leverage, currentPrice, basePrice).Finite?
    ensures RowLeverage(row.leverage, currentPrice, basePrice).value * (amount * basePrice) == row.totalCollateral * currentPrice
  {
    var c := row.totalCollateral;
    var v := RowLeverage(c / amount, currentPrice, basePrice).value;
    assert v * basePrice == c / amount * currentPrice;
    assert (c / amount) * amount == c;
    assert v * basePrice * amount == c * currentPrice;
  }

  /** Every row's stored leverage is its collateral units over the deposited units. */
  lemma SimulatedLeverage(p: Params, i: nat)
    requires p.amount > 0.0 && p.price > 0.0
    requires i < |Simulate(p)|
    ensures Simulate(p)[i].leverage == Simulate(p)[i].totalCollateral / p.amount
  {
    var r := Simulate(p);
    SimulateShape(p);
    LeverageIsCollateralRatio(p, r[i].totalCollateral);
    if i >= 1 {
      SimulateCommitted(p);
      assert Committed(p, r[i - 1].totalCollateral, r[i - 1].totalBorrowedUsd, r[i]);
    } else {
      assert r[i].totalCollateral / p.amount == p.amount / p.amount == 1.0;
    }
  }
}
