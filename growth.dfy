/** The growth simulator (`simular_crecimiento`) and the per-species annual
    growth rates it is seeded with (`FACTORES_CRECIMIENTO`). */
module Growth {
  import opened Allometry
  import opened Columns
  import opened Inventory

  /** Annual growth rates of diameter and height, as fractions. */
  datatype GrowthRates = GrowthRates(dap: real, height: real)

  const ManualRatesKey: string := "Factor Manual"

  /** `FACTORES_CRECIMIENTO`. */
  const GrowthTable: map<string, GrowthRates> := map[
    "Eucalipto (E. globulus)" := GrowthRates(0.15, 0.12),
    "Pino (P. patula)" := GrowthRates(0.10, 0.08),
    "Caoba (S. macrophylla)" := GrowthRates(0.05, 0.05),
    "Hibiscus tiliaceus (Majao)" := GrowthRates(0.08, 0.07),
    "Algarrobo" := GrowthRates(0.06, 0.05),
    ManualRatesKey := GrowthRates(0.05, 0.05)
  ]

  /** The rates offered for a species: its own entry, or the manual default
      for a species the table does not list. */
  function RatesFor(species: string): (r: GrowthRates)
    ensures species in GrowthTable ==> r == GrowthTable[species]
    ensures species !in GrowthTable ==> r == GrowthRates(0.05, 0.05)
    ensures 0.05 <= r.dap <= 0.15 && 0.05 <= r.height <= 0.12
  {
    if species in GrowthTable then GrowthTable[species] else GrowthTable[ManualRatesKey]
  }

  /** One year of growth of one dimension: multiplied by (1 + factor) while
      strictly below the cap, set to the cap otherwise. */
  function GrowStep(v: real, factor: real, cap: real): real
  {
    if v < cap then v * (1.0 + factor) else cap
  }

  /** A value at or above the cap becomes the cap; a value below it ends the
      year below cap * (1 + factor) (not below the cap: the product is not
      compared with it) and, with a non-negative factor, does not shrink. */
  lemma GrowStepBounds(v: real, factor: real, cap: real)
    ensures v >= cap ==> GrowStep(v, factor, cap) == cap
    ensures factor > -1.0 && v < cap ==> GrowStep(v, factor, cap) < cap * (1.0 + factor)
    ensures factor >= 0.0 && v >= 0.0 && v < cap ==> v <= GrowStep(v, factor, cap)
  {
    if factor > -1.0 && v < cap {
      ScaleStrict(v, cap, 1.0 + factor);
      assert GrowStep(v, factor, cap) == v * (1.0 + factor) < cap * (1.0 + factor);
    }
    if factor >= 0.0 && v >= 0.0 && v < cap {
      assert v * (1.0 + factor) == v + v * factor;
      NonNegativeProduct(v, factor);
    }
  }

  /** The value of a dimension after `k` years of growth from `v0`. */
  function DimAt(v0: real, factor: real, cap: real, k: nat): real
  {
    if k == 0 then v0 else GrowStep(DimAt(v0, factor, cap, k - 1), factor, cap)
  }

  /** Once a year starts at or above the cap, every later year is exactly
      the cap. */
  lemma {:induction false} SaturatedStaysAtCap(v0: real, factor: real, cap: real, k: nat, j: nat)
    requires DimAt(v0, factor, cap, k) >= cap
    requires k < j
    ensures DimAt(v0, factor, cap, j) == cap
  {
    if j > k + 1 {
      SaturatedStaysAtCap(v0, factor, cap, k, j - 1);
    }
  }

  /** With a non-negative factor and cap, no simulated year exceeds
      cap * (1 + factor). */
  lemma BoundedByOneStepPastCap(v0: real, factor: real, cap: real, k: nat)
    requires factor >= 0.0 && cap >= 0.0 && k >= 1
    ensures DimAt(v0, factor, cap, k) <= cap * (1.0 + factor)
  {
    var prev := DimAt(v0, factor, cap, k - 1);
    GrowStepBounds(prev, factor, cap);
    if prev >= cap {
      assert cap <= cap * (1.0 + factor) by {
        assert cap * (1.0 + factor) == cap + cap * factor;
        assert cap * factor >= 0.0;
      }
    }
  }

  /** A positive starting value under a positive cap stays positive. */
  lemma {:induction false} DimPositive(v0: real, factor: real, cap: real, k: nat)
    requires v0 > 0.0 && factor >= 0.0 && cap > 0.0
    ensures DimAt(v0, factor, cap, k) > 0.0
  {
    if k > 0 {
      DimPositive(v0, factor, cap, k - 1);
      var prev := DimAt(v0, factor, cap, k - 1);
      if prev < cap {
        PositiveProduct(prev, 1.0 + factor);
      }
    }
  }

  /** The growth is not a running minimum with the cap: 40 cm under a cap of
      43 cm at 15 % grows to 46 cm in year one and drops to 43 cm in year two. */
  lemma OvershootThenSnapBack()
    ensures DimAt(40.0, 0.15, 43.0, 1) == 46.0
    ensures DimAt(40.0, 0.15, 43.0, 2) == 43.0
  {
  }

  /** One simulated year: `Año`, `DAP (cm)`, `Altura (m)`,
      `CO2e Lote (kg)` and `CO2e Acumulado (Ton)`. */
  datatype YearRow = YearRow(year: int, dap: real, height: real, co2e: real, cumulative: real)

  /** The `CO2e Lote (kg)` column. */
  function YearCO2e(r: YearRow): real { r.co2e }

  /** The lot's CO2e in a year with the given dimensions: the calculator's
      per-tree CO2e times the count. */
  function LotCO2eAt(pow: PowerLaw, rho: real, count: int, dap: real, height: real): real
  {
    TreeCO2(pow, rho, dap, height).co2e * count as real
  }

  /** The accumulated column as the simulator fills it: the first year's
      own CO2e in tonnes, and for a later year the CO2e of the years before
      it, since the sum is taken before the year's row is appended. */
  function CumulativeAsWritten(rows: seq<YearRow>, i: nat): real
    requires i < |rows|
  {
    if i == 0 then rows[0].co2e / 1000.0 else SumOf(rows[..i], YearCO2e) / 1000.0
  }

  /** From the second year on, the accumulated column grows by the previous
      year's CO2e in tonnes; the second year repeats the first. */
  lemma CumulativeRecurrence(rows: seq<YearRow>, i: nat)
    requires 1 <= i < |rows|
    ensures CumulativeAsWritten(rows, i) == CumulativeAsWritten(rows, i - 1) + (if i == 1 then 0.0 else rows[i - 1].co2e / 1000.0)
  {
    SumOfPrefixStep(rows, YearCO2e, i - 1);
    assert rows[..0] == [];
  }

  /** The last accumulated value misses the last year: over two years or
      more it falls short of the whole CO2e column by the last year's CO2e. */
  lemma LastCumulativeOmitsLastYear(rows: seq<YearRow>)
    requires |rows| >= 2
    ensures CumulativeAsWritten(rows, |rows| - 1) * 1000.0 + rows[|rows| - 1].co2e == SumOf(rows, YearCO2e)
  {
    SumOfPrefixStep(rows, YearCO2e, |rows| - 1);
    assert rows[..|rows|] == rows;
  }

  /** The generator `sum(r['CO2e Lote (kg)'] for r in resultados)`. */
  method SumEmitted(rows: seq<YearRow>) returns (s: real)
    ensures s == SumOf(rows, YearCO2e)
  {
    s := 0.0;
    for k := 0 to |rows|
      invariant s == SumOf(rows[..k], YearCO2e)
    {
      SumOfPrefixStep(rows, YearCO2e, k);
      s := s + rows[k].co2e;
    }
    assert rows[..|rows|] == rows;
  }

  /** Row `i` of a simulation of `lot`: year i + 1, the dimensions after
      i + 1 years of growth, the CO2e of the lot's density and count at
      those dimensions, and the accumulated value as the simulator fills it. */
  predicate ProjectedYear(pow: PowerLaw, lot: Lot, dapFactor: real, heightFactor: real,
                          maxDap: real, maxHeight: real, rows: seq<YearRow>, i: nat)
    requires i < |rows|
  {
    rows[i].year == i + 1 &&
    rows[i].dap == DimAt(lot.dap, dapFactor, maxDap, i + 1) &&
    rows[i].height == DimAt(lot.height, heightFactor, maxHeight, i + 1) &&
    rows[i].co2e == LotCO2eAt(pow, lot.rho, lot.count, rows[i].dap, rows[i].height) &&
    rows[i].cumulative == CumulativeAsWritten(rows, i)
  }

  /** Every row of `rows` is the simulated year at its position. */
  predicate IsProjection(pow: PowerLaw, lot: Lot, dapFactor: real, heightFactor: real,
                         maxDap: real, maxHeight: real, rows: seq<YearRow>)
  {
    forall i: nat :: i < |rows| ==> ProjectedYear(pow, lot, dapFactor, heightFactor, maxDap, maxHeight, rows, i)
  }

  /** Appending the next simulated year to a simulation keeps it one: the
      earlier rows' accumulated values look only at rows before them. */
  lemma ExtendProjection(pow: PowerLaw, lot: Lot, dapFactor: real, heightFactor: real,
                         maxDap: real, maxHeight: real, rows: seq<YearRow>, next: YearRow)
    requires IsProjection(pow, lot, dapFactor, heightFactor, maxDap, maxHeight, rows)
    requires ProjectedYear(pow, lot, dapFactor, heightFactor, maxDap, maxHeight, rows + [next], |rows|)
    ensures IsProjection(pow, lot, dapFactor, heightFactor, maxDap, maxHeight, rows + [next])
  {
    var ext := rows + [next];
    forall i: nat | i < |ext|
      ensures ProjectedYear(pow, lot, dapFactor, heightFactor, maxDap, maxHeight, ext, i)
    {
      if i < |rows| {
        assert ProjectedYear(pow, lot, dapFactor, heightFactor, maxDap, maxHeight, rows, i);
        assert ext[i] == rows[i];
        assert ext[..i] == rows[..i];
      }
    }
  }

  /** `simular_crecimiento`: nothing for an empty table; otherwise one row per
      year 1..years of the first lot grown year by year, each with the CO2e
      of that lot's density and count at the year's dimensions. */
  method SimulateGrowth(pow: PowerLaw, initial: seq<Lot>, years: int,
                        dapFactor: real, heightFactor: real,
                        maxDap: real := 100.0, maxHeight: real := 30.0)
    returns (rows: seq<YearRow>)
    ensures initial == [] ==> rows == []
    ensures initial != [] ==> |rows| == (if years > 0 then years else 0)
    ensures initial != [] ==> IsProjection(pow, initial[0], dapFactor, heightFactor, maxDap, maxHeight, rows)
  {
    rows := [];
    if initial == [] {
      return;
    }
    var lot := initial[0];
    var rho := lot.rho;
    var count := lot.count;
    var dap := lot.dap;
    var height := lot.height;
    var year := 1;
    while year <= years
      invariant 1 <= year && |rows| == year - 1
      invariant year <= (if years > 0 then years else 0) + 1
      invariant dap == DimAt(lot.dap, dapFactor, maxDap, year - 1)
      invariant height == DimAt(lot.height, heightFactor, maxHeight, year - 1)
      invariant IsProjection(pow, lot, dapFactor, heightFactor, maxDap, maxHeight, rows)
      decreases years - year
    {
      ghost var prevDap, prevHeight := dap, height;
      if dap < maxDap {
        dap := dap * (1.0 + dapFactor);
      } else {
        dap := maxDap;
      }
      if height < maxHeight {
        height := height * (1.0 + heightFactor);
      } else {
        height := maxHeight;
      }
      assert dap == GrowStep(prevDap, dapFactor, maxDap);
      assert height == GrowStep(prevHeight, heightFactor, maxHeight);
      var lotCO2e := LotCO2eAt(pow, rho, count, dap, height);
      var cumulative;
      if year > 1 {
        var emitted := SumEmitted(rows);
        cumulative := emitted / 1000.0;
      } else {
        cumulative := lotCO2e / 1000.0;
      }
      var next := YearRow(year, dap, height, lotCO2e, cumulative);
      assert (rows + [next])[..|rows|] == rows;
      assert cumulative == CumulativeAsWritten(rows + [next], |rows|);
      ExtendProjection(pow, lot, dapFactor, heightFactor, maxDap, maxHeight, rows, next);
      rows := rows + [next];
      year := year + 1;
    }
  }

  /** A lot that passed validation, grown with non-negative factors under
      positive caps and a positive power law, has a positive CO2e every
      simulated year: the calculator's error path is never taken. */
  lemma ProjectedYearsPositive(pow: PowerLaw, lot: Lot, dapFactor: real, heightFactor: real,
                               maxDap: real, maxHeight: real, k: nat)
    requires PositiveOnPositives(pow)
    requires AcceptedInput(lot.count, lot.dap, lot.height, lot.rho)
    requires dapFactor >= 0.0 && heightFactor >= 0.0 && maxDap > 0.0 && maxHeight > 0.0
    ensures var d := DimAt(lot.dap, dapFactor, maxDap, k);
      var h := DimAt(lot.height, heightFactor, maxHeight, k);
      TreeCO2(pow, lot.rho, d, h).trace.Steps? &&
      LotCO2eAt(pow, lot.rho, lot.count, d, h) > 0.0
  {
    var d := DimAt(lot.dap, dapFactor, maxDap, k);
    var h := DimAt(lot.height, heightFactor, maxHeight, k);
    DimPositive(lot.dap, dapFactor, maxDap, k);
    DimPositive(lot.height, heightFactor, maxHeight, k);
    ValidInputPositive(pow, lot.rho, d, h);
    PositiveProduct(TreeCO2(pow, lot.rho, d, h).co2e, lot.count as real);
  }
}
