/** The package's mixture: a composition in mole fractions that is validated once,
    when it is built, and never changed afterwards. */
module VdiMixture {
  import opened Results
  import opened Constants
  import opened MolarMass

  /** Standard dry air. */
  const AirFractions: Fractions := NoFractions.(n2 := 0.781109, o2 := 0.209548, ar := 0.009343)

  /** The reference combustion test gas. */
  const TestGasFractions: Fractions :=
    Fractions(0.6, 0.1, 0.01, 0.0, 0.17, 0.1, 0.01, 0.01)

  class Mixture {
    const xN2: real
    const xO2: real
    const xAr: real
    const xNe: real
    const xH2O: real
    const xCO2: real
    const xCO: real
    const xSO2: real

    /** The stored mole fractions. */
    function Composition(): (x: Fractions)
    {
      Fractions(xN2, xO2, xAr, xNe, xH2O, xCO2, xCO, xSO2)
    }

    /** What construction establishes: the fractions sum to 1. */
    ghost predicate Valid()
    {
      Total(Composition()) == 1.0
    }

    /** Stores fractions that Create has already checked. */
    constructor Validated(x: Fractions)
      requires Total(x) == 1.0
      ensures Composition() == x && Valid()
    {
      xN2, xO2, xAr, xNe := x.n2, x.o2, x.ar, x.ne;
      xH2O, xCO2, xCO, xSO2 := x.h2o, x.co2, x.co, x.so2;
    }

    /** `Mixture(n2, ..., so2)`: raises ValueError unless the fractions sum to exactly
        1, and otherwise stores every fraction unchanged. Single fractions are not
        range-checked. */
    static method Create(x: Fractions) returns (r: Result<Mixture>)
      ensures r.Ok? <==> Total(x) == 1.0
      ensures r.Err? ==> r.error == ValueError
      ensures r.Ok? ==> fresh(r.value) && r.value.Composition() == x && r.value.Valid()
    {
      var total := Total(x);
      if total != 1.0 {
        return Err(ValueError);
      }
      var m := new Mixture.Validated(x);
      return Ok(m);
    }

    /** `Mixture.air()`: N2 0.781109, O2 0.209548, Ar 0.009343; the constructor
        accepts it because these sum to 1. */
    static method Air() returns (m: Mixture)
      ensures fresh(m) && m.Composition() == AirFractions && m.Valid()
    {
      var r := Create(AirFractions);
      m := r.value;
    }

    /** `Mixture.test_gas()`: the seven-component test gas, accepted likewise. */
    static method TestGas() returns (m: Mixture)
      ensures fresh(m) && m.Composition() == TestGasFractions && m.Valid()
    {
      var r := Create(TestGasFractions);
      m := r.value;
    }

    /** `molar_mass()`: the mole-fraction mixing rule applied to the stored fractions;
        a pure component gives its own molar mass, and a non-negative valid
        composition lies between water's and sulphur dioxide's. */
    function MolarMass(): (r: real)
      ensures r == FromMoleFractions(Composition())
      ensures forall c :: Composition() == Pure(c) ==> r == OfComponent(c)
      ensures Valid() && NonNegative(Composition()) ==>
                OfComponent(H2O) <= r <= OfComponent(SO2)
    {
      MoleFractionFacts(Composition());
      FromMoleFractions(Composition())
    }
  }

  /** Which fraction vectors the constructor accepts: the all-default call and
      n2 = 1.1 raise, n2 = 1 is accepted, and so is a negative fraction balanced by
      another above 1. */
  lemma ConstructionCases()
    ensures Total(NoFractions) != 1.0
    ensures Total(NoFractions.(n2 := 1.1)) != 1.0
    ensures Total(Pure(N2)) == 1.0 && Pure(N2).n2 == 1.0 && Pure(N2).o2 == 0.0
    ensures Total(NoFractions.(n2 := 1.5, o2 := -0.5)) == 1.0
  {
    PureIsComposition(N2);
  }

  /** Both presets are valid, non-negative compositions. */
  lemma PresetsAreCompositions()
    ensures Total(AirFractions) == 1.0 && NonNegative(AirFractions)
    ensures Total(TestGasFractions) == 1.0 && NonNegative(TestGasFractions)
  {
  }
}
