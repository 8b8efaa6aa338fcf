/** Reference constants, the eight components, and the composition vector that every
    mixing rule takes (the eight keyword arguments n2=0, o2=0, ..., so2=0). */
module Constants {

  /** Reference state and applicability range: T_0 and the limits in K, p_0 in MPa,
      R_m in J/(mol K). The limits are declared but never enforced. */
  const ReferenceTemperature: real := 273.15
  const ReferencePressure: real := 0.101325
  const LowerTemperatureLimit: real := 200.0
  const UpperTemperatureLimit: real := 3300.0
  const UniversalGasConstant: real := 8.314472

  /** The gases a mixture may contain. */
  datatype Component = N2 | O2 | Ar | Ne | H2O | CO2 | CO | SO2

  /** The key under which a component is known in the coefficient tables. */
  function Name(c: Component): (s: string)
  {
    match c
    case N2 => "n2"
    case O2 => "o2"
    case Ar => "ar"
    case Ne => "ne"
    case H2O => "h2o"
    case CO2 => "co2"
    case CO => "co"
    case SO2 => "so2"
  }

  /** The `components` set. */
  const Components: set<string> := {"n2", "o2", "ar", "ne", "h2o", "co2", "co", "so2"}

  /** The components set holds exactly the eight names, one per component. */
  lemma ComponentNames()
    ensures forall c :: Name(c) in Components
    ensures forall s :: s in Components ==> exists c :: Name(c) == s
    ensures forall c, d :: Name(c) == Name(d) ==> c == d
    ensures |Components| == 8
  {
    assert Name(N2) == "n2" && Name(O2) == "o2" && Name(Ar) == "ar" && Name(Ne) == "ne";
    assert Name(H2O) == "h2o" && Name(CO2) == "co2" && Name(CO) == "co" && Name(SO2) == "so2";
    var small := {"n2", "o2", "ar", "ne"};
    var large := {"h2o", "co2", "co", "so2"};
    assert "n2"[1] == '2' && "o2"[0] == 'o' && "ar"[0] == 'a' && "ne"[0] == 'n' && "ne"[1] == 'e';
    assert |small| == 4;
    assert "h2o"[0] == 'h' && "co2"[2] == '2' && "so2"[0] == 's' && |"co"| == 2;
    assert |large| == 4;
    assert small !! large;
    assert Components == small + large;
  }

  /** The reference temperature lies inside the applicability range. */
  lemma ReferenceTemperatureInRange()
    ensures LowerTemperatureLimit < ReferenceTemperature < UpperTemperatureLimit
  {
  }

  /** One fraction (mole or mass) per component, in the source's argument order. */
  datatype Fractions = Fractions(n2: real, o2: real, ar: real, ne: real,
                                 h2o: real, co2: real, co: real, so2: real)

  /** Every keyword argument left at its default of 0. */
  const NoFractions: Fractions := Fractions(0.0, 0.0, 0.0, 0.0, 0.0, 0.0, 0.0, 0.0)

  /** The fraction of component `c`. */
  function Fraction(x: Fractions, c: Component): (v: real)
  {
    match c
    case N2 => x.n2
    case O2 => x.o2
    case Ar => x.ar
    case Ne => x.ne
    case H2O => x.h2o
    case CO2 => x.co2
    case CO => x.co
    case SO2 => x.so2
  }

  /** The composition of the pure component `c`. */
  function Pure(c: Component): (x: Fractions)
    ensures forall d :: Fraction(x, d) == if d == c then 1.0 else 0.0
  {
    match c
    case N2 => NoFractions.(n2 := 1.0)
    case O2 => NoFractions.(o2 := 1.0)
    case Ar => NoFractions.(ar := 1.0)
    case Ne => NoFractions.(ne := 1.0)
    case H2O => NoFractions.(h2o := 1.0)
    case CO2 => NoFractions.(co2 := 1.0)
    case CO => NoFractions.(co := 1.0)
    case SO2 => NoFractions.(so2 := 1.0)
  }

  /** The sum the constructors compare with 1. */
  function Total(x: Fractions): (t: real)
  {
    x.n2 + x.o2 + x.ar + x.ne + x.h2o + x.co2 + x.co + x.so2
  }

  /** No fraction is negative (the source never checks this). */
  predicate NonNegative(x: Fractions)
  {
    x.n2 >= 0.0 && x.o2 >= 0.0 && x.ar >= 0.0 && x.ne >= 0.0 &&
    x.h2o >= 0.0 && x.co2 >= 0.0 && x.co >= 0.0 && x.so2 >= 0.0
  }

  /** A pure component is a valid, non-negative composition. */
  lemma PureIsComposition(c: Component)
    ensures Total(Pure(c)) == 1.0 && NonNegative(Pure(c))
  {
  }
}

/** Molar masses of the components and the two mixing rules for the molar mass of a
    mixture, in kg/mol. */
module MolarMass {
  import opened Results
  import opened Constants

  /** Table 1 as the program writes it, argon included (see Corrected). Water is the
      lightest component and sulphur dioxide the heaviest. */
  function OfComponent(c: Component): (m: real)
    ensures 18.01528e-3 <= m <= 64.0648e-3
  {
    match c
    case N2 => 28.01348e-3
    case O2 => 31.9988e-3
    case Ar => 39.938e-3
    case Ne => 20.1797e-3
    case H2O => 18.01528e-3
    case CO2 => 44.0095e-3
    case CO => 28.0101e-3
    case SO2 => 64.0648e-3
  }

  /** Table 1 with argon's entry corrected to 39.948e-3 kg/mol, the value the
      tabulated specific gas constant of argon was derived from; every other entry
      as written, and argon heavier than written by 0.01e-3 kg/mol. */
  function Corrected(c: Component): (m: real)
    ensures c != Ar ==> m == OfComponent(c)
    ensures c == Ar ==> m > OfComponent(c)
    ensures 18.01528e-3 <= m <= 64.0648e-3
  {
    if c == Ar then 39.948e-3 else OfComponent(c)
  }

  /** M_mix = sum of x_k * M_k, the molar mass of a mixture given in mole fractions. */
  function FromMoleFractions(x: Fractions): (m: real)
  {
    x.n2 * OfComponent(N2) + x.o2 * OfComponent(O2) + x.ar * OfComponent(Ar) +
    x.ne * OfComponent(Ne) + x.h2o * OfComponent(H2O) + x.co2 * OfComponent(CO2) +
    x.co * OfComponent(CO) + x.so2 * OfComponent(SO2)
  }

  /** A pure component has its own tabulated molar mass. */
  lemma PureMoleFractions(c: Component)
    ensures FromMoleFractions(Pure(c)) == OfComponent(c)
  {
  }

  /** With every argument at its default the sum is 0. */
  lemma NoMoleFractions()
    ensures FromMoleFractions(NoFractions) == 0.0
  {
  }

  /** For a proper composition the molar mass lies between the lightest and the
      heaviest component's. */
  lemma MoleFractionBounds(x: Fractions)
    requires NonNegative(x) && Total(x) == 1.0
    ensures OfComponent(H2O) <= FromMoleFractions(x) <= OfComponent(SO2)
  {
  }

  /** The two facts about the mole-fraction rule that a mixture's molar mass
      promises, for any composition: the pure-component value, and the bounds when
      the composition is proper. */
  lemma MoleFractionFacts(x: Fractions)
    ensures forall c :: x == Pure(c) ==> FromMoleFractions(x) == OfComponent(c)
    ensures NonNegative(x) && Total(x) == 1.0 ==>
              OfComponent(H2O) <= FromMoleFractions(x) <= OfComponent(SO2)
  {
    forall c | x == Pure(c)
      ensures FromMoleFractions(x) == OfComponent(c)
    {
      PureMoleFractions(c);
    }
    if NonNegative(x) && Total(x) == 1.0 {
      MoleFractionBounds(x);
    }
  }

  /** sum of w_k / M_k, the denominator of the mass-fraction rule. */
  function InverseMassSum(w: Fractions): (s: real)
  {
    w.n2 / OfComponent(N2) + w.o2 / OfComponent(O2) + w.ar / OfComponent(Ar) +
    w.ne / OfComponent(Ne) + w.h2o / OfComponent(H2O) + w.co2 / OfComponent(CO2) +
    w.co / OfComponent(CO) + w.so2 / OfComponent(SO2)
  }

  /** M_mix = 1 / (sum of w_k / M_k), the molar mass of a mixture given in mass
      fractions; a zero denominator raises ZeroDivisionError. */
  function FromMassFractions(w: Fractions): (r: Result<real>)
    ensures r.Ok? <==> InverseMassSum(w) != 0.0
    ensures r.Err? ==> r.error == ZeroDivisionError
    ensures r.Ok? ==> r.value * InverseMassSum(w) == 1.0
  {
    var total := InverseMassSum(w);
    if total == 0.0 then Err(ZeroDivisionError) else Ok(1.0 / total)
  }

  /** For a pure component the denominator is 1 / M_k. */
  lemma PureInverseMassSum(c: Component)
    ensures InverseMassSum(Pure(c)) == 1.0 / OfComponent(c)
  {
    match c
    case N2 =>
    case O2 =>
    case Ar =>
    case Ne =>
    case H2O =>
    case CO2 =>
    case CO =>
    case SO2 =>
  }

  /** A pure component has its own tabulated molar mass under this rule too. */
  lemma PureMassFractions(c: Component)
    ensures FromMassFractions(Pure(c)) == Ok(OfComponent(c))
  {
    var m := OfComponent(c);
    PureInverseMassSum(c);
    assert 1.0 / (1.0 / m) == m;
  }

  /** With every argument at its default the denominator is 0. */
  lemma NoMassFractions()
    ensures FromMassFractions(NoFractions) == Err(ZeroDivisionError)
  {
  }

  /** Mass fractions that sum to 1 with a negative water fraction. */
  const Cancelling: Fractions :=
    NoFractions.(h2o := -18.01528 / 46.04952, so2 := 64.0648 / 46.04952)

  /** Mass fractions that sum to 1 can still raise, once one of them is negative:
      water and sulphur dioxide in these proportions cancel. */
  lemma CancellingMassFractions()
    ensures Total(Cancelling) == 1.0 && FromMassFractions(Cancelling) == Err(ZeroDivisionError)
  {
    CancellingInverseSum();
  }

  /** The water and sulphur dioxide terms of the cancelling fractions are opposite,
      and the fractions add up to 1. */
  lemma CancellingInverseSum()
    ensures Total(Cancelling) == 1.0 && InverseMassSum(Cancelling) == 0.0
  {
    var w := Cancelling;
    assert w.h2o / OfComponent(H2O) == -1.0 / 46.04952e-3;
    assert w.so2 / OfComponent(SO2) == 1.0 / 46.04952e-3;
    assert InverseMassSum(w) == w.h2o / OfComponent(H2O) + w.so2 / OfComponent(SO2);
  }

  /** A product of non-negative factors is non-negative. */
  lemma NonNegativeProduct(a: real, b: real)
    requires a >= 0.0 && b >= 0.0
    ensures a * b >= 0.0
  {
  }

  /** A factor of a non-negative product with a positive factor is non-negative. */
  lemma NonNegativeFactor(a: real, s: real)
    requires s > 0.0 && a * s >= 0.0
    ensures a >= 0.0
  {
  }

  /** 1/s lies in [lo, hi] when s lies in [1/hi, 1/lo]. */
  lemma ReciprocalBounds(s: real, lo: real, hi: real)
    requires 0.0 < lo <= hi
    requires 1.0 / hi <= s <= 1.0 / lo
    ensures s > 0.0 && lo <= 1.0 / s <= hi
  {
    assert 1.0 / hi > 0.0;
    NonNegativeProduct(1.0 / lo - s, lo);
    assert (1.0 / lo - s) * lo == 1.0 - s * lo;
    NonNegativeProduct(s - 1.0 / hi, hi);
    assert (s - 1.0 / hi) * hi == s * hi - 1.0;
    var r := 1.0 / s;
    assert r * s == 1.0;
    assert (r - lo) * s == r * s - lo * s;
    NonNegativeFactor(r - lo, s);
    assert (hi - r) * s == hi * s - r * s;
    NonNegativeFactor(hi - r, s);
  }

  /** For non-negative mass fractions that sum to 1 the rule never raises, and the
      result lies between the lightest and the heaviest component's molar mass. */
  lemma MassFractionBounds(w: Fractions)
    requires NonNegative(w) && Total(w) == 1.0
    ensures FromMassFractions(w).Ok?
    ensures OfComponent(H2O) <= FromMassFractions(w).value <= OfComponent(SO2)
  {
    var lo, hi := OfComponent(H2O), OfComponent(SO2);
    var s := InverseMassSum(w);
    assert 1.0 / hi <= s <= 1.0 / lo;
    ReciprocalBounds(s, lo, hi);
  }
}

/** Specific gas constants R = R_m / M, in J/(kg K). */
module SpecificGasConstant {
  import opened Results
  import opened Constants
  import MolarMass

  /** The tabulated specific gas constants of table 1. */
  function Tabulated(c: Component): (r: real)
  {
    match c
    case N2 => 296.8025
    case O2 => 259.8370
    case Ar => 208.1324
    case Ne => 412.0216
    case H2O => 461.5233
    case CO2 => 188.9245
    case CO => 296.8384
    case SO2 => 129.7822
  }

  /** R_m over the mole-fraction molar mass; a zero molar mass raises. */
  function FromMoleFractions(x: Fractions): (r: Result<real>)
    ensures r.Ok? <==> MolarMass.FromMoleFractions(x) != 0.0
    ensures r.Err? ==> r.error == ZeroDivisionError
    ensures r.Ok? ==> r.value * MolarMass.FromMoleFractions(x) == UniversalGasConstant
  {
    var m := MolarMass.FromMoleFractions(x);
    if m == 0.0 then Err(ZeroDivisionError) else Ok(UniversalGasConstant / m)
  }

  /** R_m over the mass-fraction molar mass; it raises exactly when that rule raises,
      and otherwise equals R_m times the sum of w_k / M_k. */
  function FromMassFractions(w: Fractions): (r: Result<real>)
    ensures r.Ok? <==> MolarMass.FromMassFractions(w).Ok?
    ensures r.Err? ==> r.error == ZeroDivisionError
    ensures r.Ok? ==> r.value == UniversalGasConstant * MolarMass.InverseMassSum(w)
  {
    match MolarMass.FromMassFractions(w)
    case Err(e) => Err(e)
    case Ok(m) =>
      assert m != 0.0 && 1.0 / m == MolarMass.InverseMassSum(w);
      Ok(UniversalGasConstant / m)
  }

  /** Every tabulated specific gas constant is R_m / M_k rounded to four decimals,
      once argon's molar mass is corrected. */
  lemma TabulatedAgreesWithMolarMass(c: Component)
    ensures -0.00005 <= UniversalGasConstant / MolarMass.Corrected(c) - Tabulated(c) <= 0.00005
  {
  }

  /** With argon's molar mass as written, R_m / M_Ar misses the tabulated value by
      more than 0.05 J/(kg K), a thousand times the rounding of the table. */
  lemma ArgonAsWrittenDisagrees()
    ensures UniversalGasConstant / MolarMass.OfComponent(Ar) - Tabulated(Ar) > 0.05
  {
  }

  /** A pure component's specific gas constant is R_m / M_k under both rules; it
      matches table 1 to four decimals for every component but argon, and misses
      argon's entry by more than 0.05 J/(kg K). */
  lemma PureComponent(c: Component)
    ensures FromMoleFractions(Pure(c)).Ok?
    ensures FromMassFractions(Pure(c)) == FromMoleFractions(Pure(c))
    ensures FromMoleFractions(Pure(c)).value * MolarMass.OfComponent(c) == UniversalGasConstant
    ensures c != Ar ==> -0.00005 <= FromMoleFractions(Pure(c)).value - Tabulated(c) <= 0.00005
    ensures c == Ar ==> FromMoleFractions(Pure(c)).value - Tabulated(c) > 0.05
  {
    MolarMass.PureMoleFractions(c);
    MolarMass.PureMassFractions(c);
    TabulatedAgreesWithMolarMass(c);
    ArgonAsWrittenDisagrees();
  }
}
