/** The per-tree allometric calculator (`calcular_co2_arbol`).
    Above-ground biomass follows the Chave et al. (2014) dry-forest power law
    AGB = 0.112 * (rho * DAP^2 * H)^0.916; the rest of the chain is linear:
    BGB = AGB * 0.28, total = AGB + BGB, carbon = total * 0.47,
    CO2e = carbon * 3.67. */
module Allometry {

  /** Conversion factors of the calculator. */
  const CarbonFraction: real := 0.47      // FACTOR_CARBONO
  const CO2ePerCarbon: real := 3.67       // FACTOR_CO2E
  const RootShootRatio: real := 0.28      // FACTOR_BGB_SECO
  const AgbCoefficient: real := 0.112
  const AgbExponent: real := 0.916

  /** CO2e per kilogram of above-ground biomass: (1 + 0.28) * 0.47 * 3.67. */
  const CO2ePerAgb: real := 2.207872

  /** The map x |-> x^AgbExponent. Real exponentiation is not part of the
      model; every operation that needs it receives it as this parameter. */
  type PowerLaw = real -> real

  /** The power law is positive for positive arguments. */
  ghost predicate PositiveOnPositives(pow: PowerLaw)
  {
    forall x :: x > 0.0 ==> pow(x) > 0.0
  }

  /** The power law is strictly increasing for positive arguments. */
  ghost predicate IncreasingOnPositives(pow: PowerLaw)
  {
    forall x, y :: 0.0 < x < y ==> pow(x) < pow(y)
  }

  const InputErrorMessage: string :=
    "ERROR: Valores de entrada (DAP, Altura o Densidad) deben ser mayores a cero."

  /** The calculation detail: either the error message, or the substituted
      inputs and the resulting AGB that the technical view displays. */
  datatype Trace =
    | Failed(message: string)
    | Steps(rho: real, dap: real, height: real, agb: real)

  /** The five values `calcular_co2_arbol` returns, in order. */
  datatype TreeResult = TreeResult(agb: real, bgb: real, total: real, co2e: real, trace: Trace)

  /** The base of the power law, rho * DAP^2 * H. */
  function PowerBase(rho: real, dap: real, height: real): real
  {
    rho * dap * dap * height
  }

  /** The inputs the calculator rejects. */
  predicate InvalidInput(rho: real, dap: real, height: real)
  {
    rho <= 0.0 || dap <= 0.0 || height <= 0.0
  }

  /** `calcular_co2_arbol(rho, dap_cm, altura_m)`. */
  function TreeCO2(pow: PowerLaw, rho: real, dap: real, height: real): (r: TreeResult)
    ensures r.trace.Failed? <==> InvalidInput(rho, dap, height)
    ensures r.trace.Failed? ==>
      r.agb == 0.0 && r.bgb == 0.0 && r.total == 0.0 && r.co2e == 0.0 &&
      r.trace.message == InputErrorMessage
    ensures r.trace.Steps? ==>
      r.agb == AgbCoefficient * pow(PowerBase(rho, dap, height)) &&
      r.trace == Steps(rho, dap, height, r.agb)
    ensures r.bgb == r.agb * RootShootRatio
    ensures r.total == r.agb + r.bgb
    ensures r.co2e == r.total * CarbonFraction * CO2ePerCarbon
  {
    if InvalidInput(rho, dap, height) then
      TreeResult(0.0, 0.0, 0.0, 0.0, Failed(InputErrorMessage))
    else
      var agb := AgbCoefficient * pow(PowerBase(rho, dap, height));
      var bgb := agb * RootShootRatio;
      var total := agb + bgb;
      var carbon := total * CarbonFraction;
      var co2e := carbon * CO2ePerCarbon;
      TreeResult(agb, bgb, total, co2e, Steps(rho, dap, height, agb))
  }

  /** Every output of the calculator is a fixed multiple of the above-ground
      biomass, on the error path (all zero) as on the normal one. */
  lemma ChainIsLinearInAgb(pow: PowerLaw, rho: real, dap: real, height: real)
    ensures var r := TreeCO2(pow, rho, dap, height);
      r.bgb == 0.28 * r.agb && r.total == 1.28 * r.agb &&
      r.total * CarbonFraction == 0.6016 * r.agb &&
      r.co2e == CO2ePerAgb * r.agb
  {
  }

  /** Valid inputs give strictly positive outputs and a non-error trace. */
  lemma ValidInputPositive(pow: PowerLaw, rho: real, dap: real, height: real)
    requires PositiveOnPositives(pow)
    requires rho > 0.0 && dap > 0.0 && height > 0.0
    ensures var r := TreeCO2(pow, rho, dap, height);
      r.trace.Steps? && r.agb > 0.0 && r.bgb > 0.0 && r.total > 0.0 && r.co2e > 0.0
  {
    PositiveProduct(rho, dap);
    PositiveProduct(rho * dap, dap);
    PositiveProduct(rho * dap * dap, height);
    ChainIsLinearInAgb(pow, rho, dap, height);
  }

  /** The product of two positive reals is positive. */
  lemma PositiveProduct(a: real, b: real)
    requires a > 0.0 && b > 0.0
    ensures a * b > 0.0
  {
  }

  /** An increasing power law keeps the order of two positive bases. */
  lemma ApplyIncreasing(pow: PowerLaw, x: real, y: real)
    requires IncreasingOnPositives(pow) && 0.0 < x < y
    ensures pow(x) < pow(y)
  {
  }

  /** Multiplying by a positive factor keeps a strict order. */
  lemma ScaleStrict(a: real, b: real, c: real)
    ensures a < b && c > 0.0 ==> a * c < b * c
  {
    if a < b && c > 0.0 {
      assert b * c - a * c == (b - a) * c;
      PositiveProduct(b - a, c);
    }
  }

  /** The product of two non-negative reals is non-negative. */
  lemma NonNegativeProduct(a: real, b: real)
    requires a >= 0.0 && b >= 0.0
    ensures a * b >= 0.0
  {
    if a > 0.0 && b > 0.0 {
      PositiveProduct(a, b);
    } else if a == 0.0 {
      assert a * b == 0.0 * b;
    } else {
      assert a * b == a * 0.0;
    }
  }

  /** The power-law base rho * D^2 * H grows strictly with the diameter. */
  lemma BaseIncreasingInDiameter(rho: real, d1: real, d2: real, height: real)
    requires rho > 0.0 && height > 0.0 && 0.0 < d1 < d2
    ensures 0.0 < PowerBase(rho, d1, height) < PowerBase(rho, d2, height)
  {
    var x1, x2 := rho * d1, rho * d2;
    ScaleStrict(d1, d2, rho);
    PositiveProduct(rho, d1);
    ScaleStrict(x1, x2, d1);
    ScaleStrict(d1, d2, x2);
    var y1, y2 := x1 * d1, x2 * d2;
    PositiveProduct(x1, d1);
    ScaleStrict(y1, y2, height);
    PositiveProduct(y1, height);
  }

  /** The power-law base rho * D^2 * H grows strictly with the height. */
  lemma BaseIncreasingInHeight(rho: real, dap: real, h1: real, h2: real)
    requires rho > 0.0 && dap > 0.0 && 0.0 < h1 < h2
    ensures 0.0 < PowerBase(rho, dap, h1) < PowerBase(rho, dap, h2)
  {
    var k := rho * dap * dap;
    PositiveProduct(rho, dap);
    PositiveProduct(rho * dap, dap);
    PositiveProduct(k, h1);
    assert k * h1 < k * h2;
  }

  /** With an increasing power law, CO2e grows strictly with the diameter. */
  lemma CO2eIncreasingInDiameter(pow: PowerLaw, rho: real, d1: real, d2: real, height: real)
    requires IncreasingOnPositives(pow)
    requires rho > 0.0 && height > 0.0 && 0.0 < d1 < d2
    ensures TreeCO2(pow, rho, d1, height).co2e < TreeCO2(pow, rho, d2, height).co2e
  {
    BaseIncreasingInDiameter(rho, d1, d2, height);
    var b1, b2 := PowerBase(rho, d1, height), PowerBase(rho, d2, height);
    ApplyIncreasing(pow, b1, b2);
    ChainIsLinearInAgb(pow, rho, d1, height);
    ChainIsLinearInAgb(pow, rho, d2, height);
  }

  /** With an increasing power law, CO2e grows strictly with the height. */
  lemma CO2eIncreasingInHeight(pow: PowerLaw, rho: real, dap: real, h1: real, h2: real)
    requires IncreasingOnPositives(pow)
    requires rho > 0.0 && dap > 0.0 && 0.0 < h1 < h2
    ensures TreeCO2(pow, rho, dap, h1).co2e < TreeCO2(pow, rho, dap, h2).co2e
  {
    BaseIncreasingInHeight(rho, dap, h1, h2);
    var b1, b2 := PowerBase(rho, dap, h1), PowerBase(rho, dap, h2);
    ApplyIncreasing(pow, b1, b2);
    ChainIsLinearInAgb(pow, rho, dap, h1);
    ChainIsLinearInAgb(pow, rho, dap, h2);
  }
}
