/**
 * The recommendation selector: the loop whose health factor, re-evaluated at
 * the current price, is closest to 1.40, with ties going to the earliest
 * loop; and the three presets that pick a loop index.
 */
module Recommendation {
  import opened Numbers
  import opened Health
  import opened Simulation

  /** The health factor the recommendation aims for. */
  const TargetHealthFactor: real := 1.40

  /** `Math.abs(hf - 1.40)` for row `i` at `price`. */
  function RowDistance(loops: seq<LoopState>, i: nat, price: real, threshold: real): (d: Num)
    requires i < |loops|
    ensures !d.NaN?
  {
    Distance(RowHealthFactor(loops[i], price, threshold), TargetHealthFactor)
  }

  /**
   * The scan of `calculateRecommendedLoop` from row `i` on, having kept `best`
   * with distance `smallest`: a row replaces it only when strictly closer.
   */
  function Scan(loops: seq<LoopState>, price: real, threshold: real, i: nat, best: nat, smallest: Num): (k: nat)
    requires 1 <= i <= |loops|
    ensures k == best || i <= k < |loops|
    ensures k != best ==> Less(RowDistance(loops, k, price, threshold), smallest)
    decreases |loops| - i
  {
    if i == |loops| then best
    else
      var d := RowDistance(loops, i, price, threshold);
      if Less(d, smallest) then Scan(loops, price, threshold, i + 1, i, d)
      else Scan(loops, price, threshold, i + 1, best, smallest)
  }

  /** The recommended loop index: 0 for a table of at most one row. */
  function Recommend(loops: seq<LoopState>, price: real, threshold: real): (k: nat)
    ensures |loops| <= 1 ==> k == 0
    ensures |loops| > 1 ==> 1 <= k < |loops|
  {
    if |loops| <= 1 then 0 else Scan(loops, price, threshold, 1, 1, PosInf)
  }

  /**
   * `k` is the lowest index in 1..|loops|-1 whose distance to the target no
   * other index beats (0 when there is no such range).
   */
  ghost predicate IsBest(loops: seq<LoopState>, price: real, threshold: real, k: nat)
  {
    if |loops| <= 1 then k == 0
    else
      && 1 <= k < |loops|
      && (forall j :: 1 <= j < |loops| ==>
            !Less(RowDistance(loops, j, price, threshold), RowDistance(loops, k, price, threshold)))
      && (forall j :: 1 <= j < k ==>
            Less(RowDistance(loops, k, price, threshold), RowDistance(loops, j, price, threshold)))
  }

  /** What holds of the scan's variables when it is about to look at row `i`. */
  ghost predicate ScanState(loops: seq<LoopState>, price: real, threshold: real, i: nat, best: nat, smallest: Num)
  {
    && 1 <= best < |loops|
    && 1 <= i <= |loops|
    && (if i == 1 then best == 1 && smallest == PosInf
        else best < i && smallest == RowDistance(loops, best, price, threshold))
    && (forall j :: 1 <= j < i ==> !Less(RowDistance(loops, j, price, threshold), smallest))
    && (forall j :: 1 <= j < best ==> Less(smallest, RowDistance(loops, j, price, threshold)))
  }

  lemma {:induction false} ScanFindsBest(loops: seq<LoopState>, price: real, threshold: real, i: nat, best: nat, smallest: Num)
    requires ScanState(loops, price, threshold, i, best, smallest)
    ensures IsBest(loops, price, threshold, Scan(loops, price, threshold, i, best, smallest))
    decreases |loops| - i
  {
    if i < |loops| {
      var d := RowDistance(loops, i, price, threshold);
      if Less(d, smallest) {
        forall j | 1 <= j < i + 1
          ensures !Less(RowDistance(loops, j, price, threshold), d)
        {
          var dj := RowDistance(loops, j, price, threshold);
          if j < i && Less(dj, d) {
            LessTransitive(dj, d, smallest);
          }
        }
        forall j | 1 <= j < i
          ensures Less(d, RowDistance(loops, j, price, threshold))
        {
          var dj := RowDistance(loops, j, price, threshold);
          if j < best {
            LessTransitive(d, smallest, dj);
          } else {
            NotLessThenAbove(dj, smallest, d);
          }
        }
        ScanFindsBest(loops, price, threshold, i + 1, i, d);
      } else {
        ScanFindsBest(loops, price, threshold, i + 1, best, smallest);
      }
    }
  }

  /**
   * The recommendation is the first index in 1..|loops|-1 with the smallest
   * distance to 1.40, and 0 when the table has at most one row.
   */
  lemma RecommendIsBest(loops: seq<LoopState>, price: real, threshold: real)
    ensures IsBest(loops, price, threshold, Recommend(loops, price, threshold))
  {
    if |loops| > 1 {
      ScanFindsBest(loops, price, threshold, 1, 1, PosInf);
    }
  }

  /** At most one index satisfies `IsBest`, so it pins the recommendation down. */
  lemma BestIsUnique(loops: seq<LoopState>, price: real, threshold: real, k1: nat, k2: nat)
    requires IsBest(loops, price, threshold, k1) && IsBest(loops, price, threshold, k2)
    ensures k1 == k2
  {
    if |loops| > 1 {
      // each is at least as close as the other, so neither can come strictly first
      assert !Less(RowDistance(loops, k2, price, threshold), RowDistance(loops, k1, price, threshold));
      assert !Less(RowDistance(loops, k1, price, threshold), RowDistance(loops, k2, price, threshold));
    }
  }

  /** When no row after loop 0 has debt, every distance is infinite and the scan keeps loop 1. */
  lemma AllUnboundedKeepsFirst(loops: seq<LoopState>, price: real, threshold: real)
    requires |loops| > 1
    requires forall j :: 1 <= j < |loops| ==> RowHealthFactor(loops[j], price, threshold) == PosInf
    ensures Recommend(loops, price, threshold) == 1
  {
    RecommendIsBest(loops, price, threshold);
    assert RowDistance(loops, 1, price, threshold) == PosInf;
  }

  /**
   * Health factors 1.41 and 1.39 are both 0.01 from the target: the strict
   * comparison keeps the earlier row.
   */
  lemma TieKeepsFirst()
    ensures Recommend([LoopState(0, 1.0, 0.0, PosInf, 1.0),
                       LoopState(1, 141.0, 100.0, Finite(1.41), 1.41),
                       LoopState(2, 139.0, 100.0, Finite(1.39), 1.39),
                       LoopState(3, 110.0, 100.0, Finite(1.10), 1.10)], 1.0, 1.0) == 1
  {
    var loops := [LoopState(0, 1.0, 0.0, PosInf, 1.0),
                  LoopState(1, 141.0, 100.0, Finite(1.41), 1.41),
                  LoopState(2, 139.0, 100.0, Finite(1.39), 1.39),
                  LoopState(3, 110.0, 100.0, Finite(1.10), 1.10)];
    assert RowDistance(loops, 1, 1.0, 1.0) == Finite(0.01);
    assert RowDistance(loops, 2, 1.0, 1.0) == Finite(0.01);
    assert RowDistance(loops, 3, 1.0, 1.0) == Finite(0.30);
    assert Scan(loops, 1.0, 1.0, 4, 1, Finite(0.01)) == 1;
    assert Scan(loops, 1.0, 1.0, 3, 1, Finite(0.01)) == 1;
    assert Scan(loops, 1.0, 1.0, 2, 1, Finite(0.01)) == 1;
    assert Scan(loops, 1.0, 1.0, 1, 1, PosInf) == 1;
  }

  /** `Math.max(0, n - 1)`: the last row's index, the aggressive ("degen") preset. */
  function LastIndex(n: nat): (k: nat)
    ensures n > 0 ==> k < n <= k + 1
    ensures n == 0 ==> k == 0
  {
    if n > 0 then n - 1 else 0
  }

  /** The conservative preset: loop 1 when the table has it, else loop 0. */
  function ConservativeIndex(n: nat): (k: nat)
    ensures k <= LastIndex(n)
    ensures k == 1 <==> n > 1
  {
    if n > 1 then (if 1 < n - 1 then 1 else n - 1) else 0
  }

  /**
   * Clamping an index into the table: `k > n - 1` gives `n - 1`, then a
   * negative value gives 0; the same as `Math.max(0, Math.min(n - 1, k))`.
   */
  function ClampIndex(k: int, n: nat): (c: int)
    ensures 0 <= c <= LastIndex(n)
    ensures 0 <= k <= LastIndex(n) ==> c == k
    ensures k > LastIndex(n) ==> c == LastIndex(n)
    ensures k < 0 ==> c == 0
  {
    var upper := if k > n - 1 then n - 1 else k;
    if upper < 0 then 0 else upper
  }

  /** The three presets are ordered: conservative, then recommended, then the last loop. */
  lemma PresetsOrdered(loops: seq<LoopState>, price: real, threshold: real)
    ensures ConservativeIndex(|loops|) <= Recommend(loops, price, threshold) <= LastIndex(|loops|)
    ensures ClampIndex(Recommend(loops, price, threshold), |loops|) == Recommend(loops, price, threshold)
  {
    RecommendIsBest(loops, price, threshold);
  }
}
