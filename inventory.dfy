/** The lot inventory: the species density table, the table of registered
    lots and its cached CO2e total, with the three operations that change
    them (`agregar_lote`, `deshacer_ultimo_lote`, `limpiar_inventario`). */
module Inventory {
  import opened Allometry
  import opened Columns

  datatype Option<T> = None | Some(value: T)

  /** The species entry whose density the user types in. */
  const ManualSpecies: string := "Densidad Manual (g/cm³)"

  /** Wood density (g/cm³) per species (`DENSIDADES`). */
  const Densities: map<string, real> := map[
    "Eucalipto (E. globulus)" := 0.76,
    "Cedro (C. odorata)" := 0.48,
    "Caoba (S. macrophylla)" := 0.54,
    "Pino (P. patula)" := 0.43,
    "Ficus (F. benghalensis)" := 0.50,
    "Palmera (varias)" := 0.35,
    "Roble Andino" := 0.65,
    "Meijo" := 0.60,
    "Algarrobo" := 0.80,
    "Torrellana" := 0.55,
    "Palmera hawaii" := 0.35,
    "Hibiscus tiliaceus (Majao)" := 0.65,
    ManualSpecies := 0.0
  ]

  /** The density a new lot uses: the typed-in value for the manual entry
      when one is present and positive, the table's value for any other
      species, and 0 otherwise. The selector only offers table keys. */
  function ResolveDensity(species: string, manual: Option<real>): (rho: real)
    requires species in Densities
    ensures species == ManualSpecies && manual.Some? && manual.value > 0.0 ==> rho == manual.value
    ensures species == ManualSpecies && !(manual.Some? && manual.value > 0.0) ==> rho == 0.0
    ensures species != ManualSpecies ==> rho == Densities[species] && rho > 0.0
    ensures rho > 0.0 <==> species != ManualSpecies || (manual.Some? && manual.value > 0.0)
  {
    if species == ManualSpecies && manual.Some? && manual.value > 0.0 then manual.value
    else if species != ManualSpecies then Densities[species]
    else 0.0
  }

  /** One row of the inventory table. */
  datatype Lot = Lot(
    species: string, count: int, dap: real, height: real, rho: real,
    biomass: real, carbon: real, co2e: real, detail: Trace)

  /** The `CO2e Lote (kg)` column. */
  function LotCO2e(l: Lot): real { l.co2e }

  /** The cached total that the table should carry. */
  function TotalCO2e(rows: seq<Lot>): real
  {
    SumOf(rows, LotCO2e)
  }

  /** The inputs `agregar_lote` accepts. */
  predicate AcceptedInput(count: int, dap: real, height: real, rho: real)
  {
    count > 0 && dap > 0.0 && height > 0.0 && rho > 0.0
  }

  /** The row `agregar_lote` builds: per-tree figures from the calculator,
      lot biomass = per-tree total biomass times the count, then the carbon
      and CO2e factors applied to the lot biomass. */
  function LotRow(pow: PowerLaw, species: string, count: int, dap: real, height: real, rho: real): (r: Lot)
    ensures r.species == species && r.count == count && r.dap == dap &&
            r.height == height && r.rho == rho
  {
    var tree := TreeCO2(pow, rho, dap, height);
    var biomass := tree.total * count as real;
    var carbon := biomass * CarbonFraction;
    var co2e := carbon * CO2ePerCarbon;
    Lot(species, count, dap, height, rho, biomass, carbon, co2e, tree.trace)
  }

  /** A row built from accepted input: its CO2e equals the calculator's
      per-tree CO2e times the count, its carbon is 0.47 of its biomass, its
      detail is the calculator's non-error trace, and with a positive power
      law every figure is positive. */
  lemma LotRowFigures(pow: PowerLaw, species: string, count: int, dap: real, height: real, rho: real)
    requires AcceptedInput(count, dap, height, rho)
    ensures var r := LotRow(pow, species, count, dap, height, rho);
      var tree := TreeCO2(pow, rho, dap, height);
      r.biomass == tree.total * count as real &&
      r.carbon == r.biomass * CarbonFraction &&
      r.co2e == tree.co2e * count as real &&
      r.detail == Steps(rho, dap, height, tree.agb)
    ensures PositiveOnPositives(pow) ==>
      var r := LotRow(pow, species, count, dap, height, rho);
      r.biomass > 0.0 && r.carbon > 0.0 && r.co2e > 0.0
  {
    var tree := TreeCO2(pow, rho, dap, height);
    var n := count as real;
    assert tree.total * n * CarbonFraction * CO2ePerCarbon
        == tree.total * CarbonFraction * CO2ePerCarbon * n;
    if PositiveOnPositives(pow) {
      ValidInputPositive(pow, rho, dap, height);
      PositiveProduct(tree.total, n);
      PositiveProduct(tree.co2e, n);
    }
  }

  /** Every row passed validation and holds what `LotRow` computes for it. */
  ghost predicate WellFormedRows(pow: PowerLaw, rows: seq<Lot>)
  {
    forall i :: 0 <= i < |rows| ==>
      AcceptedInput(rows[i].count, rows[i].dap, rows[i].height, rows[i].rho) &&
      rows[i] == LotRow(pow, rows[i].species, rows[i].count, rows[i].dap, rows[i].height, rows[i].rho)
  }

  /** With a positive power law the total of well-formed rows is positive
      unless the table is empty, where it is 0. */
  lemma {:induction false} TotalOfWellFormedRows(pow: PowerLaw, rows: seq<Lot>)
    requires PositiveOnPositives(pow) && WellFormedRows(pow, rows)
    ensures rows == [] ==> TotalCO2e(rows) == 0.0
    ensures rows != [] ==> TotalCO2e(rows) > 0.0
  {
    if rows != [] {
      var u := rows[..|rows| - 1];
      var l := rows[|rows| - 1];
      assert forall i :: 0 <= i < |u| ==> u[i] == rows[i];
      TotalOfWellFormedRows(pow, u);
      LotRowFigures(pow, l.species, l.count, l.dap, l.height, l.rho);
    }
  }

  /** The session's inventory: the ordered lot table and `total_co2e_kg`. */
  class InventoryState {
    var rows: seq<Lot>
    var totalCO2e: real
    /** The power law x |-> x^0.916 the calculator uses. */
    const pow: PowerLaw

    /** The cached total is the sum of the CO2e column, and every row is a
        validated, calculated lot. */
    ghost predicate Valid()
      reads this
    {
      totalCO2e == TotalCO2e(rows) && WellFormedRows(pow, rows)
    }

    /** The empty table of a new session. */
    constructor (pow: PowerLaw)
      ensures Valid() && this.pow == pow
      ensures rows == [] && totalCO2e == 0.0
    {
      this.pow := pow;
      rows := [];
      totalCO2e := 0.0;
    }

    /** `agregar_lote`: resolve the density, reject unless count, DAP,
        height and density are all positive, else append one calculated row
        and recompute the total. */
    method AddLot(species: string, count: int, dap: real, height: real, manual: Option<real>)
      returns (added: bool)
      requires Valid()
      requires species in Densities
      modifies this
      ensures Valid()
      ensures added == AcceptedInput(count, dap, height, ResolveDensity(species, manual))
      ensures added ==> rows == old(rows) + [LotRow(pow, species, count, dap, height, ResolveDensity(species, manual))]
      ensures added ==> totalCO2e == old(totalCO2e) + rows[|rows| - 1].co2e
      ensures !added ==> rows == old(rows) && totalCO2e == old(totalCO2e)
    {
      var rho := ResolveDensity(species, manual);
      if !AcceptedInput(count, dap, height, rho) {
        return false;
      }
      var row := LotRow(pow, species, count, dap, height, rho);
      rows := rows + [row];
      totalCO2e := TotalCO2e(rows);
      added := true;
      SumOfAppend(old(rows), [row], LotCO2e);
      assert [row][..0] == [];
      var n := |rows| - 1;
      assert rows[..n] == old(rows);
      assert forall i :: 0 <= i < n ==> rows[i] == old(rows)[i];
    }

    /** `deshacer_ultimo_lote`: nothing on an empty table, else drop the last
        row and recompute the total. */
    method UndoLastLot()
      requires Valid()
      modifies this
      ensures Valid()
      ensures old(rows) == [] ==> rows == [] && totalCO2e == old(totalCO2e)
      ensures old(rows) != [] ==> rows == old(rows)[..|old(rows)| - 1]
      ensures old(rows) != [] ==> totalCO2e == old(totalCO2e) - old(rows)[|old(rows)| - 1].co2e
    {
      if rows != [] {
        var last := rows[|rows| - 1];
        rows := rows[..|rows| - 1];
        totalCO2e := TotalCO2e(rows);
        assert forall i :: 0 <= i < |rows| ==> rows[i] == old(rows)[i];
      }
    }

    /** `limpiar_inventario`: an empty table with total 0. */
    method ClearInventory()
      modifies this
      ensures Valid()
      ensures rows == [] && totalCO2e == 0.0
    {
      rows := [];
      totalCO2e := 0.0;
    }
  }

  /** An accepted add followed by an undo gives back the table and total
      it started from. */
  method AddThenUndo(inv: InventoryState, species: string, count: int, dap: real, height: real, manual: Option<real>)
    returns (added: bool)
    requires inv.Valid() && species in Densities
    modifies inv
    ensures inv.Valid()
    ensures added ==> inv.rows == old(inv.rows) && inv.totalCO2e == old(inv.totalCO2e)
  {
    added := inv.AddLot(species, count, dap, height, manual);
    if added {
      inv.UndoLastLot();
    }
  }
}
