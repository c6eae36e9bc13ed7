/** `calculate_quantiles`: pick the values that bound `g` equal-mass groups out of a list of
    `N` quantile values. The source computes `ceil((i+1) * ((N+1)/g)) - 1` in floating point;
    this model uses the exact ceiling of the rational `(i+1)(N+1)/g`. */
module Quantiles {
  import opened Wrappers

  /** The `IndexError` the source raises when a selected index falls outside the list. */
  datatype QuantileError = IndexOutOfRange

  const DefaultGroups: int := 4

  /** The group count the source works with: the requested one when it is given and lies
      in `1..N+1`, otherwise the default of 4. */
  function EffectiveGroups(requested: Option<int>, n: nat): (g: int)
    ensures g >= 1
    ensures requested.Some? && 0 < requested.value <= n + 1 ==> g == requested.value
    ensures !(requested.Some? && 0 < requested.value <= n + 1) ==> g == DefaultGroups
  {
    if requested.Some? && 0 < requested.value <= n + 1 then requested.value else DefaultGroups
  }

  lemma MulMonotone(x: int, y: int, g: int)
    requires x <= y && g >= 0
    ensures x * g <= y * g
  {
  }

  lemma MulCancel(x: int, y: int, g: int)
    requires g > 0 && x * g < y * g
    ensures x < y
  {
    if x >= y {
      MulMonotone(y, x, g);
    }
  }

  lemma DivBounds(a: int, g: int)
    requires g >= 1
    ensures g * (a / g) <= a < g * (a / g) + g
  {
  }

  /** The source index of boundary `i`: `ceil((i+1)(N+1)/g) - 1`, characterised as the unique
      `idx` with `idx < (i+1)(N+1)/g <= idx + 1`. */
  function QuantileIndex(i: nat, n: nat, g: int): (idx: int)
    requires g >= 1
    ensures idx * g < (i + 1) * (n + 1) <= (idx + 1) * g
  {
    var a := (i + 1) * (n + 1);
    DivBounds(a + g - 1, g);
    (a + g - 1) / g - 1
  }

  /** With `1 <= g <= N+1`, every boundary index lies in `[0, N)`. */
  lemma QuantileIndexInRange(i: nat, n: nat, g: int)
    requires 1 <= g <= n + 1
    requires i < g - 1
    ensures 0 <= QuantileIndex(i, n, g) < n
  {
    var idx := QuantileIndex(i, n, g);
    var a := (i + 1) * (n + 1);
    MulMonotone(1, i + 1, n + 1);
    assert 0 * g < (idx + 1) * g;
    MulCancel(0, idx + 1, g);
    MulMonotone(i + 1, g - 1, n + 1);
    assert (g - 1) * (n + 1) == n * g + g - (n + 1);
    assert idx * g < n * g;
    MulCancel(idx, n, g);
  }

  /** Boundary indices strictly increase: the groups are never empty. */
  lemma QuantileIndexIncreasing(i: nat, j: nat, n: nat, g: int)
    requires 1 <= g <= n + 1
    requires i < j
    ensures QuantileIndex(i, n, g) < QuantileIndex(j, n, g)
  {
    var qi := QuantileIndex(i, n, g);
    var qj := QuantileIndex(j, n, g);
    MulMonotone(i + 2, j + 1, n + 1);
    assert (i + 2) * (n + 1) == (i + 1) * (n + 1) + (n + 1);
    assert (qi + 1) * g == qi * g + g;
    MulCancel(qi + 1, qj + 1, g);
  }

  /** When the group count falls back to 4 on a list of fewer than three values, the last
      boundary index is past the end of the list: the source raises `IndexError`. */
  lemma DefaultOutOfRange(n: nat)
    requires n < 3
    ensures QuantileIndex(2, n, DefaultGroups) >= n
  {
  }

  /** `calculate_quantiles(requested, quantiles)`: a map from boundary number `0..g-2` to the
      quantile value at that boundary's index, or the `IndexError` the source raises. */
  function CalculateQuantiles<T>(requested: Option<int>, quantiles: seq<T>): (r: Result<map<int, T>, QuantileError>)
    ensures var n := |quantiles|; var g := EffectiveGroups(requested, n);
      r.Success? <==> forall i: nat :: i < g - 1 ==> QuantileIndex(i, n, g) < n
    ensures r.Success? <==>
      (requested.Some? && 0 < requested.value <= |quantiles| + 1) || |quantiles| >= 3
    ensures var n := |quantiles|; var g := EffectiveGroups(requested, n);
      r.Success? ==> forall i :: i in r.value <==> 0 <= i < g - 1
    ensures var n := |quantiles|; var g := EffectiveGroups(requested, n);
      r.Success? ==> forall i: nat :: i < g - 1 ==>
        0 <= QuantileIndex(i, n, g) < n && r.value[i] == quantiles[QuantileIndex(i, n, g)]
  {
    var n := |quantiles|;
    var g := EffectiveGroups(requested, n);
    if g <= n + 1 then
      assert forall i: nat :: i < g - 1 ==> 0 <= QuantileIndex(i, n, g) < n by {
        forall i: nat | i < g - 1 {
          QuantileIndexInRange(i, n, g);
        }
      }
      Success(map i: nat | i < g - 1 :: quantiles[QuantileIndex(i, n, g)])
    else
      DefaultOutOfRange(n);
      Failure(IndexOutOfRange)
  }

  /** The source's own worked example: 999 values in 4 groups are bounded by the values at
      indices 249, 499 and 749. */
  lemma ThousandValuesInQuartiles<T>(quantiles: seq<T>)
    requires |quantiles| == 999
    ensures CalculateQuantiles(Some(4), quantiles)
      == Success(map[0 := quantiles[249], 1 := quantiles[499], 2 := quantiles[749]])
  {
    assert QuantileIndex(0, 999, 4) == 249;
    assert QuantileIndex(1, 999, 4) == 499;
    assert QuantileIndex(2, 999, 4) == 749;
    var r := CalculateQuantiles(Some(4), quantiles);
    var expected := map[0 := quantiles[249], 1 := quantiles[499], 2 := quantiles[749]];
    assert r.Success?;
    assert forall i :: i in r.value <==> 0 <= i < 3;
    assert r.value.Keys == expected.Keys;
    assert r.value[0] == expected[0] && r.value[1] == expected[1] && r.value[2] == expected[2];
    assert r.value == expected;
  }
}
