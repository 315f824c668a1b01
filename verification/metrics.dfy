/** The baseline snapshot and the two return metrics derived from it
    (weETH-USDC.py:120-144). */
module Metrics {
  import opened Normalize

  /** The reference state every later sample is compared with. */
  datatype Baseline = Baseline(totalInvariant: real, totalSupply: real, lastPrice: real)

  /** Deployed plus borrowed invariant of a sample. */
  function TotalInvariant(s: Sample): real {
    s.lpInvariant + s.lpBorrowedInvariant
  }

  /** The baseline a sample sets when it is the first successful one. */
  function BaselineOf(s: Sample): Baseline {
    Baseline(TotalInvariant(s), s.totalSupply, s.lastPrice)
  }

  /** True when both metrics of `s` against `b` evaluate without raising: no
      division by zero and no square root of a negative price ratio. */
  predicate MetricsDefined(totalSupply: real, price: real, b: Baseline) {
    && b.totalInvariant != 0.0
    && b.totalSupply != 0.0
    && totalSupply != 0.0
    && b.lastPrice != 0.0
    && price / b.lastPrice >= 0.0
  }

  /** Invariant per unit of supply, relative to the baseline's invariant per unit
      of supply: the fee and interest accrual net of dilution. */
  function PerShareGrowth(totalInvariant: real, totalSupply: real, b: Baseline): real
    requires totalSupply != 0.0 && b.totalSupply != 0.0 && b.totalInvariant != 0.0
  {
    (totalInvariant / totalSupply) / (b.totalInvariant / b.totalSupply)
  }

  /** Return of a 50/50 holding in which only the first asset moves in price. */
  function SpotReturn(price: real, basePrice: real): (r: real)
    requires basePrice != 0.0
    ensures 2.0 * r == price / basePrice - 1.0
    ensures r == 0.0 <==> price == basePrice
    ensures basePrice > 0.0 ==> (r > 0.0 <==> price > basePrice)
  {
    ((price / basePrice) * 0.5 + 0.5) / 1.0 - 1.0
  }

  /** Return of the liquidity position: per-share invariant growth, times the
      square root of the relative price move, minus one. `sqrt` stands for the
      platform square root, applied only where the source applies it. */
  function LpReturn(totalInvariant: real, totalSupply: real, price: real, b: Baseline,
                    sqrt: real -> real): (r: real)
    requires MetricsDefined(totalSupply, price, b)
    ensures r + 1.0 == PerShareGrowth(totalInvariant, totalSupply, b) * sqrt(price / b.lastPrice)
  {
    var growth := (totalInvariant / b.totalInvariant) / (totalSupply / b.totalSupply);
    assert growth == PerShareGrowth(totalInvariant, totalSupply, b) by {
      PerShareGrowthSwap(totalInvariant, totalSupply, b);
    }
    growth * sqrt(price / b.lastPrice) - 1.0
  }

  /** The source's ratio of ratios is the per-share growth. */
  lemma PerShareGrowthSwap(i: real, s: real, b: Baseline)
    requires s != 0.0 && b.totalSupply != 0.0 && b.totalInvariant != 0.0
    ensures (i / b.totalInvariant) / (s / b.totalSupply) == PerShareGrowth(i, s, b)
  {
  }

  /** A position whose per-share invariant and price have not moved has earned
      nothing, provided the square root maps 1 to 1. */
  lemma LpReturnZeroWhenUnchanged(totalInvariant: real, totalSupply: real, price: real,
                                  b: Baseline, sqrt: real -> real)
    requires sqrt(1.0) == 1.0
    requires MetricsDefined(totalSupply, price, b) && price == b.lastPrice
    requires totalInvariant / totalSupply == b.totalInvariant / b.totalSupply
    ensures LpReturn(totalInvariant, totalSupply, price, b, sqrt) == 0.0
  {
    assert price / b.lastPrice == 1.0;
    assert PerShareGrowth(totalInvariant, totalSupply, b) == 1.0;
  }

  /** Both metrics are exactly zero at the sample that set the baseline. */
  lemma ReturnsZeroAtBaseline(s: Sample, sqrt: real -> real)
    requires sqrt(1.0) == 1.0
    requires MetricsDefined(s.totalSupply, s.lastPrice, BaselineOf(s))
    ensures LpReturn(TotalInvariant(s), s.totalSupply, s.lastPrice, BaselineOf(s), sqrt) == 0.0
    ensures SpotReturn(s.lastPrice, BaselineOf(s).lastPrice) == 0.0
  {
    LpReturnZeroWhenUnchanged(TotalInvariant(s), s.totalSupply, s.lastPrice, BaselineOf(s), sqrt);
  }
}
