/** The older top-level mixture module: its own copies of the reference constants and
    of the molar-mass table, and a mixture whose mole fractions can be overwritten in
    place from mass fractions. Its two mixing rules are the same computation as the
    package's, so the model uses MolarMass.FromMoleFractions and
    MolarMass.FromMassFractions for them. */
module LegacyMixture {
  import opened Results
  import opened Constants
  import opened MolarMass

  /** The module's own reference constants: T_0 and the limits in K, p_0 in MPa, and
      the class attribute R_m in J/(mol K). */
  const ReferenceTemperature: real := 273.15
  const ReferencePressure: real := 0.101325
  const LowerTemperatureLimit: real := 200.0
  const UpperTemperatureLimit: real := 3300.0
  const UniversalGasConstant: real := 8.314472

  /** The module's own molar-mass table, in kg/mol, as written. */
  function MolarMassAsWritten(c: Component): (m: real)
  {
    match c
    case N2 => 28.01348e-3
    case O2 => 31.9988e-3
    case Ar => 39.938e-3
    case Ne => 20.1797e-3
    case H2O => 18.01528e-3
    case CO2 => 44.0095e-3
    case CO => 28.0101e-3
    case SO2 => 64.0648e-3
  }

  /** The copies agree with the package's constants, entry for entry. */
  lemma SameConstantsAsPackage()
    ensures forall c :: MolarMassAsWritten(c) == OfComponent(c)
    ensures ReferenceTemperature == Constants.ReferenceTemperature
    ensures ReferencePressure == Constants.ReferencePressure
    ensures LowerTemperatureLimit == Constants.LowerTemperatureLimit
    ensures UpperTemperatureLimit == Constants.UpperTemperatureLimit
    ensures UniversalGasConstant == Constants.UniversalGasConstant
  {
  }

  /** The mole fractions that `from_mass_fraction` writes, x_k = w_k * M_mix / M_k
      with M_mix the mass-fraction molar mass. It raises ValueError unless the mass
      fractions sum to exactly 1, and then ZeroDivisionError when M_mix cannot be
      computed. */
  function MoleFromMass(w: Fractions): (r: Result<Fractions>)
    ensures r.Ok? <==> Total(w) == 1.0 && InverseMassSum(w) != 0.0
    ensures r.Err? ==> r.error == if Total(w) != 1.0 then ValueError else ZeroDivisionError
  {
    if Total(w) != 1.0 then Err(ValueError)
    else
      match FromMassFractions(w)
      case Err(e) => Err(e)
      case Ok(m) => Ok(Scaled(w, m))
  }

  /** w_k * m / M_k for every component. */
  function Scaled(w: Fractions, m: real): (x: Fractions)
  {
    Fractions(w.n2 * m / OfComponent(N2), w.o2 * m / OfComponent(O2),
              w.ar * m / OfComponent(Ar), w.ne * m / OfComponent(Ne),
              w.h2o * m / OfComponent(H2O), w.co2 * m / OfComponent(CO2),
              w.co * m / OfComponent(CO), w.so2 * m / OfComponent(SO2))
  }

  /** (v * m) / M == m * (v / M). */
  lemma ScaledQuotient(v: real, m: real, mc: real)
    requires mc != 0.0
    ensures v * m / mc == m * (v / mc)
  {
  }

  /** (a / b) * b == a. */
  lemma QuotientTimesDivisor(a: real, b: real)
    requires b != 0.0
    ensures a / b * b == a
  {
  }

  /** v * m / M is zero exactly when v is (for non-zero m and M), and non-negative
      when v and m are (for positive M). */
  lemma ScaledSign(v: real, m: real, mc: real)
    requires mc > 0.0
    ensures m != 0.0 ==> (v * m / mc == 0.0 <==> v == 0.0)
    ensures v >= 0.0 && m >= 0.0 ==> v * m / mc >= 0.0
  {
    if v >= 0.0 && m >= 0.0 {
      NonNegativeProduct(v, m);
    }
  }

  /** x_k = m * (w_k / M_k): each scaled fraction is m times that component's term
      of the denominator. */
  lemma ScaledTerm(w: Fractions, m: real, c: Component)
    ensures Fraction(Scaled(w, m), c) == m * (Fraction(w, c) / OfComponent(c))
  {
    ScaledQuotient(Fraction(w, c), m, OfComponent(c));
  }

  /** x_k * M_k = w_k * m. */
  lemma ScaledWeight(w: Fractions, m: real, c: Component)
    ensures Fraction(Scaled(w, m), c) * OfComponent(c) == Fraction(w, c) * m
  {
    QuotientTimesDivisor(Fraction(w, c) * m, OfComponent(c));
  }

  /** The scaled fractions sum to m times the denominator of the mass-fraction rule. */
  lemma {:induction false} ScaledTotal(w: Fractions, m: real)
    ensures Total(Scaled(w, m)) == m * InverseMassSum(w)
  {
    ScaledTerm(w, m, N2);
    ScaledTerm(w, m, O2);
    ScaledTerm(w, m, Ar);
    ScaledTerm(w, m, Ne);
    ScaledTerm(w, m, H2O);
    ScaledTerm(w, m, CO2);
    ScaledTerm(w, m, CO);
    ScaledTerm(w, m, SO2);
  }

  /** The mole-fraction molar mass of the scaled fractions is m times the sum of the
      mass fractions. */
  lemma {:induction false} ScaledMolarMass(w: Fractions, m: real)
    ensures FromMoleFractions(Scaled(w, m)) == Total(w) * m
  {
    ScaledWeight(w, m, N2);
    ScaledWeight(w, m, O2);
    ScaledWeight(w, m, Ar);
    ScaledWeight(w, m, Ne);
    ScaledWeight(w, m, H2O);
    ScaledWeight(w, m, CO2);
    ScaledWeight(w, m, CO);
    ScaledWeight(w, m, SO2);
  }

  /** The converted mole fractions satisfy x_k * M_k = w_k * M_mix. */
  lemma ConvertedWeights(w: Fractions, c: Component)
    requires MoleFromMass(w).Ok?
    ensures Fraction(MoleFromMass(w).value, c) * OfComponent(c) ==
            Fraction(w, c) * FromMassFractions(w).value
  {
    var m := FromMassFractions(w).value;
    assert MoleFromMass(w).value == Scaled(w, m);
    ScaledWeight(w, m, c);
  }

  /** The converted mole fractions sum to exactly 1. */
  lemma ConvertedSumsToOne(w: Fractions)
    requires MoleFromMass(w).Ok?
    ensures Total(MoleFromMass(w).value) == 1.0
  {
    ScaledTotal(w, FromMassFractions(w).value);
  }

  /** Round trip: the mole-fraction molar mass of the converted fractions is the
      mass-fraction molar mass of the input. */
  lemma RoundTrip(w: Fractions)
    requires MoleFromMass(w).Ok?
    ensures FromMoleFractions(MoleFromMass(w).value) == FromMassFractions(w).value
  {
    ScaledMolarMass(w, FromMassFractions(w).value);
  }

  /** A component is absent after the conversion exactly when its mass fraction
      is 0. */
  lemma ConvertedZeros(w: Fractions, c: Component)
    requires MoleFromMass(w).Ok?
    ensures Fraction(MoleFromMass(w).value, c) == 0.0 <==> Fraction(w, c) == 0.0
  {
    var m := FromMassFractions(w).value;
    assert m * InverseMassSum(w) == 1.0;
    ScaledZero(w, m, c);
  }

  /** Scaling by a non-zero m leaves exactly the zero fractions zero. */
  lemma ScaledZero(w: Fractions, m: real, c: Component)
    requires m != 0.0
    ensures Fraction(Scaled(w, m), c) == 0.0 <==> Fraction(w, c) == 0.0
  {
    var v, mc := Fraction(w, c), OfComponent(c);
    assert Fraction(Scaled(w, m), c) == v * m / mc;
    ScaledSign(v, m, mc);
  }

  /** Non-negative mass fractions that sum to 1 always convert, and to non-negative
      mole fractions. */
  lemma ConvertedNonNegative(w: Fractions)
    requires NonNegative(w) && Total(w) == 1.0
    ensures MoleFromMass(w).Ok? && NonNegative(MoleFromMass(w).value)
  {
    MassFractionBounds(w);
    ScaledNonNegative(w, FromMassFractions(w).value);
  }

  /** Scaling non-negative fractions by a non-negative m keeps them non-negative. */
  lemma ScaledNonNegative(w: Fractions, m: real)
    requires NonNegative(w) && m >= 0.0
    ensures NonNegative(Scaled(w, m))
  {
    ScaledSign(w.n2, m, OfComponent(N2));
    ScaledSign(w.o2, m, OfComponent(O2));
    ScaledSign(w.ar, m, OfComponent(Ar));
    ScaledSign(w.ne, m, OfComponent(Ne));
    ScaledSign(w.h2o, m, OfComponent(H2O));
    ScaledSign(w.co2, m, OfComponent(CO2));
    ScaledSign(w.co, m, OfComponent(CO));
    ScaledSign(w.so2, m, OfComponent(SO2));
  }

  class Mixture {
    var xN2: real
    var xO2: real
    var xAr: real
    var xNe: real
    var xH2O: real
    var xCO2: real
    var xCO: real
    var xSO2: real

    /** The stored mole fractions. */
    function Composition(): (x: Fractions)
      reads this
    {
      Fractions(xN2, xO2, xAr, xNe, xH2O, xCO2, xCO, xSO2)
    }

    /** The invariant construction establishes and from_mass_fraction keeps: the
        stored fractions sum to 1. */
    ghost predicate Valid()
      reads this
    {
      Total(Composition()) == 1.0
    }

    /** Stores fractions that Create has already checked. */
    constructor Validated(x: Fractions)
      requires Total(x) == 1.0
      ensures Composition() == x && Valid()
    {
      xN2, xO2, xAr, xNe := x.n2, x.o2, x.ar, x.ne;
      xH2O, xCO2, xCO, xSO2 := x.h2o, x.co2, x.co, x.so2;
    }

    /** `Mixture(n2, ..., so2)`: raises ValueError unless the fractions sum to exactly
        1, and otherwise stores every fraction unchanged. */
    static method Create(x: Fractions) returns (r: Result<Mixture>)
      ensures r.Ok? <==> Total(x) == 1.0
      ensures r.Err? ==> r.error == ValueError
      ensures r.Ok? ==> fresh(r.value) && r.value.Composition() == x && r.value.Valid()
    {
      var total := Total(x);
      if total != 1.0 {
        return Err(ValueError);
      }
      var m := new Mixture.Validated(x);
      return Ok(m);
    }

    /** `from_mass_fraction(n2, ..., so2)`: overwrites all eight mole fractions with
        the conversion of the mass fractions. It raises before writing anything, so a
        failure leaves the mixture as it was; a success leaves a valid mixture, whose
        molar mass is the mass-fraction molar mass of the input, whatever the mixture
        held before. */
    method FromMassFraction(w: Fractions) returns (r: Outcome)
      modifies this
      ensures r.Pass? <==> MoleFromMass(w).Ok?
      ensures r.Fail? ==> r.error == MoleFromMass(w).error && unchanged(this)
      ensures r.Pass? ==> Composition() == MoleFromMass(w).value
      ensures r.Pass? ==> Valid() && MolarMass() == FromMassFractions(w).value
    {
      var xi := Total(w);
      if xi != 1.0 {
        return Fail(ValueError);
      }
      var mixed := FromMassFractions(w);
      if mixed.Err? {
        return Fail(mixed.error);
      }
      var m := mixed.value;
      var x := Scaled(w, m);
      xN2, xO2, xAr, xNe := x.n2, x.o2, x.ar, x.ne;
      xH2O, xCO2, xCO, xSO2 := x.h2o, x.co2, x.co, x.so2;
      assert Composition() == x;
      ConvertedSumsToOne(w);
      RoundTrip(w);
      return Pass;
    }

    /** `molar_mass()`: the mole-fraction mixing rule applied to the stored fractions;
        a pure component gives its own molar mass, and a non-negative valid
        composition lies between water's and sulphur dioxide's. */
    function MolarMass(): (r: real)
      reads this
      ensures r == FromMoleFractions(Composition())
      ensures forall c :: Composition() == Pure(c) ==> r == OfComponent(c)
      ensures Valid() && NonNegative(Composition()) ==>
                OfComponent(H2O) <= r <= OfComponent(SO2)
    {
      MoleFractionFacts(Composition());
      FromMoleFractions(Composition())
    }
  }
}
