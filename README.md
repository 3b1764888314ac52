# Carbon-capture calculator: verified model of the calculation core

The repository is a Streamlit tool for reforestation projects. Users register
lots of planted trees by species, count, diameter at breast height (DAP) and
height. The tool turns these measurements into biomass, carbon and CO2e, and
it projects a lot's CO2e forward under capped annual growth. This project
models the computational core of `Home.py` in Dafny and proves properties of it:

- `Allometry` (`allometry.dfy`): the per-tree calculator `calcular_co2_arbol`.
  It has a zero-guard that returns four zeros and an error message. Otherwise
  it applies the Chave et al. (2014) dry-forest law
  AGB = 0.112 · (ρ · DAP² · H)^0.916, then BGB = AGB · 0.28,
  total = AGB + BGB, carbon = total · 0.47 and CO2e = carbon · 3.67.
  Real exponentiation is not available over Dafny's `real`. The map
  x ↦ x^0.916 is therefore a parameter `pow: real -> real` of every
  operation that needs it. Lemmas that need it positive or increasing take
  that as a hypothesis on `pow`.
- `Inventory` (`inventory.dfy`): the species density table `DENSIDADES`
  with its "Densidad Manual (g/cm³)" sentinel, and the session inventory.
  The inventory is modelled as a class `InventoryState` that holds the ordered
  lot table (`rows: seq<Lot>`) and the cached `total_co2e_kg` (`totalCO2e`).
  Its methods are `AddLot` (`agregar_lote`), `UndoLastLot`
  (`deshacer_ultimo_lote`) and `ClearInventory` (`limpiar_inventario`). Its
  invariant `Valid()` says two things: the total is the sum of the
  `CO2e Lote (kg)` column, and every row passed validation and holds what the
  calculator gives for its inputs.
- `Growth` (`growth.dfy`): the growth-rate table `FACTORES_CRECIMIENTO` with
  its "Factor Manual" default, and the simulator `simular_crecimiento`. The
  simulator is a method with the source's year loop. Its contract ties every
  emitted row to reference functions: `DimAt` for the grown dimensions,
  `LotCO2eAt` for the yearly lot CO2e and `CumulativeAsWritten` for the
  accumulated column. Lemmas state what those functions imply.
- `Columns` (`columns.dfy`): the sum of a table column, shared by the
  inventory total and the simulator's accumulated column.

Numbers are exact `real`s. Floating-point rounding is not modelled.

### Intended behaviour that the code does not implement (the model follows the code)

- Growth cap. A capped dimension is meant to grow as a running minimum with
  the cap, `min(prev · (1 + rate), max)`: never above the cap and never going
  down. The code multiplies whenever the value is strictly below the cap and
  does not compare the product with the cap. A value can end a year above the
  cap and drop back to it the next year. The model follows the code
  (`GrowStep`). `OvershootThenSnapBack` shows it for 40 cm under a 43 cm cap
  at 15 %: 46 cm, then 43 cm. `BoundedByOneStepPastCap` gives the bound that
  does hold.
- Accumulated CO2e. The column `CO2e Acumulado (Ton)` is meant to be a running
  sum that includes the current year. The code sums the rows emitted before
  the current one, except in year 1. The model follows the code
  (`CumulativeAsWritten`). `CumulativeRecurrence` and
  `LastCumulativeOmitsLastYear` state the consequences: year 2 repeats year 1,
  and the last value misses the last year's CO2e.
- Invalid lot in the simulator. An invalid lot is meant to give an empty
  series. The code does not validate its input; it only returns an empty
  result for an empty table. When ρ ≤ 0 or a grown dimension is ≤ 0, a row's
  CO2e is the calculator's error-path zero. Otherwise a row holds the
  per-tree CO2e times the count, also when the count is 0 (a non-error zero)
  or negative (a negative CO2e). In the application the simulator only
  receives a row of the inventory (Home.py:379), and `AddLot` admits only
  validated rows.
- Invalid lot in the inventory. An invalid lot is meant to stay in the table
  as a zero row with an error marker. `agregar_lote` rejects it instead and
  leaves the table unchanged (Home.py:97-99); the model follows the code.

## Model

| member | source | states |
|---|---|---|
| `Allometry.TreeCO2` | Home.py:43-73 | the result is the error trace exactly when ρ ≤ 0, DAP ≤ 0 or H ≤ 0 (every sign combination), and then all four figures are 0 and the message is the source's; otherwise the trace is a non-error trace of the substituted inputs and AGB is 0.112 · pow(ρ · DAP² · H) |
| `Allometry.ChainIsLinearInAgb` | Home.py:64-71 | BGB = 0.28 · AGB, total = 1.28 · AGB, carbon = 0.6016 · AGB and CO2e = 2.207872 · AGB, on both paths |
| `Allometry.ValidInputPositive` | Home.py:53-73 | for positive inputs and a power law positive on positives, the trace is not an error and AGB, BGB, total and CO2e are all strictly positive |
| `Allometry.BaseIncreasingInDiameter` | Home.py:53 | for fixed positive ρ and H, the power-law base ρ · DAP² · H is positive and strictly increasing in DAP |
| `Allometry.BaseIncreasingInHeight` | Home.py:53 | for fixed positive ρ and DAP, the base is positive and strictly increasing in H |
| `Allometry.CO2eIncreasingInDiameter` | Home.py:53-71 | with a strictly increasing power law, per-tree CO2e is strictly increasing in DAP |
| `Allometry.CO2eIncreasingInHeight` | Home.py:53-71 | with a strictly increasing power law, per-tree CO2e is strictly increasing in H |
| `Inventory.ResolveDensity` | Home.py:91-95 | a listed species gets its table density, which is positive; the manual sentinel gets the typed-in density when present and positive, and 0 otherwise; the density is positive iff the species is not the sentinel or a positive manual value is given |
| `Inventory.LotRow` | Home.py:108-112 | the new row repeats the species, count, DAP, height and density it was built from |
| `Inventory.LotRowFigures` | Home.py:102-106 | for accepted input, lot biomass = per-tree total biomass × count, carbon = 0.47 × biomass, lot CO2e = per-tree CO2e × count, and the detail is the calculator's non-error trace; with a positive power law all three figures are positive |
| `Inventory.TotalOfWellFormedRows` | Home.py:114 | with a positive power law, the CO2e total of validated rows is 0 for an empty table and strictly positive otherwise |
| `Inventory.InventoryState.constructor` | Home.py:76-80 | a new session has an empty table with total 0 and satisfies the invariant |
| `Inventory.InventoryState.AddLot` | Home.py:84-114 | the lot is added iff count, DAP, height and the resolved density are all positive (the sentinel without a positive manual density is rejected); a rejection leaves the table and total unchanged; an add appends exactly the calculated row after the unchanged earlier rows and raises the total by that row's CO2e; the total stays the sum of the CO2e column |
| `Inventory.InventoryState.UndoLastLot` | Home.py:121-124 | on an empty table nothing changes; otherwise exactly the last row is removed, the rest stay in order, the total drops by the removed row's CO2e and is again the column sum |
| `Inventory.InventoryState.ClearInventory` | Home.py:127-132 | the table is empty and the total is 0 |
| `Inventory.AddThenUndo` | Home.py:84-124 | an accepted add followed by an undo restores the table and the total |
| `Columns.SumOfPrefixStep` | Home.py:114 | adding one row to a prefix adds that row's value to the column sum |
| `Columns.SumOfAppend` | Home.py:113-114 | the column sum of two concatenated tables is the sum of their sums (used for the total after an add) |
| `Growth.RatesFor` | Home.py:33-40 | a listed species gets its own rates, any other one the "Factor Manual" default (5 %, 5 %); every rate lies between 5 % and 15 % |
| `Growth.GrowStepBounds` | Home.py:157-165 | a value at or above the cap becomes exactly the cap; a value below it ends the year below cap × (1 + factor) when factor > -1, and does not shrink when factor ≥ 0 and the value is ≥ 0 |
| `Growth.SaturatedStaysAtCap` | Home.py:154-165 | once a year starts at or above the cap, every later year equals the cap |
| `Growth.BoundedByOneStepPastCap` | Home.py:157-165 | with factor ≥ 0 and cap ≥ 0, no simulated year exceeds cap × (1 + factor) |
| `Growth.DimPositive` | Home.py:157-165 | a positive start under a positive cap with a non-negative factor stays positive every year |
| `Growth.OvershootThenSnapBack` | Home.py:157-160 | 40 cm under a 43 cm cap at 15 % is 46 cm after year 1 and 43 cm after year 2 |
| `Growth.CumulativeRecurrence` | Home.py:178 | from year 3 on, the accumulated column grows by the previous year's CO2e in tonnes; year 2 repeats year 1 |
| `Growth.LastCumulativeOmitsLastYear` | Home.py:178 | over two or more years, the last accumulated value × 1000 plus the last year's CO2e is the whole CO2e column |
| `Growth.SumEmitted` | Home.py:178 | the generator sum over the emitted rows equals the CO2e column sum |
| `Growth.ExtendProjection` | Home.py:173-179 | appending the correct next year to a correct simulation keeps it correct |
| `Growth.SimulateGrowth` | Home.py:137-181 | an empty table gives no rows; otherwise exactly `years` rows (none when years ≤ 0); row i has year i + 1, the first lot's DAP and height after i + 1 growth steps, CO2e = calculator CO2e at the first lot's density × its count, and the accumulated value as the code fills it |
| `Growth.ProjectedYearsPositive` | Home.py:157-170 | a validated lot under non-negative factors, positive caps and a positive power law never hits the calculator's error path and has positive CO2e every year |

## Left out

- Real exponentiation x^0.916 is a parameter `pow`, so no numeric value (such as the ≈ 461.4 kg example) is computed. Double-precision rounding is not modelled either: all arithmetic is exact over `real`.
- The Markdown text of the calculation detail (Home.py:58-61) is replaced by a structured `Steps` trace holding the substituted inputs and AGB. `base` and `potencia` (Home.py:56-57) are computed, but the source never uses them.
- The widget-state resets after an add (Home.py:116-119), `st.error` display and `st.experimental_rerun` are UI plumbing. A rejected add reports `added == false` instead of displaying the message.
- The initial value of `total_co2e_kg` is in code the source abbreviates (Home.py:81). The constructor assumes 0, consistent with an empty table.
- `Inventory.ResolveDensity` and `AddLot` require the species to be a key of the density table. The source's selector only offers those keys, and another key raises `KeyError` at Home.py:95.
- All of `main_app` (Home.py:187-443) is left out: rendering, charts, grouping for charts, KPIs and equivalences. The simulator's input lot and its bounded slider values come from there.
- Water volume, water and planting cost, and the maximum-potential calculation do not appear in this version of `Home.py`. They are not part of this model.
