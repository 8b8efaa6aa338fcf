/** The read-only coefficient tables of VDI 4670: the temperature exponents b_i (B),
    and the per-component coefficients a_k,i (A, J/(mol K)), c_k,i (C, J/mol) and
    d_k,i (D, J/(mol K)). Each table is a constant dictionary; a lookup returns the
    entry or raises KeyError when the component or the index is not a key. */
module Coefficients {
  import opened Results
  import Constants

  /** An entry of table D: a number, or the NaN placeholder the table holds for
      d_0 of argon and neon. */
  datatype Entry = Number(value: real) | NaN

  /** Table 2: the exponents b_1 .. b_10. */
  const BValues: map<int, real> := map[
    1 := 0.00,
    2 := -1.50,
    3 := -1.25,
    4 := -0.75,
    5 := -0.50,
    6 := -0.25,
    7 := 0.25,
    8 := 0.50,
    9 := 0.75,
    10 := 1.00
  ]

  /** Ten placeholder zeros, the entries the table has not been filled in with yet. */
  const Unfilled: map<int, real> := map[
    1 := 0.0, 2 := 0.0, 3 := 0.0, 4 := 0.0, 5 := 0.0,
    6 := 0.0, 7 := 0.0, 8 := 0.0, 9 := 0.0, 10 := 0.0
  ]

  /** Table 3: the heat-capacity coefficients a_k,1 .. a_k,10. Only nitrogen is filled
      in; argon and neon carry a_1 alone. */
  const AValues: map<string, map<int, real>> := map[
    "n2" := map[
      1 := 2.475830346e6,
      2 := -2.815239891e4,
      3 := 1.116401165e5,
      4 := -8.147644187e5,
      5 := 2.185120405e6,
      6 := -2.978031305e6,
      7 := -1.308008001e6,
      8 := 4.305948510e5,
      9 := -8.082302563e4,
      10 := 6.622545214e3
    ],
    "o2" := Unfilled,
    "ar" := Unfilled[1 := 2.078618000e1],
    "ne" := Unfilled[1 := 2.078618000e1],
    "h2o" := Unfilled,
    "co2" := Unfilled,
    "co" := Unfilled,
    "so2" := Unfilled
  ]

  /** The enthalpy coefficients c_k,0 .. c_k,10; only nitrogen, argon and neon have
      entries. */
  const CValues: map<string, map<int, real>> := map[
    "n2" := map[
      0 := 4.305300363e8,
      1 := 6.762730590e8,
      2 := 1.537965552e7,
      3 := -1.219779913e8,
      4 := -8.902116039e8,
      5 := 1.193731277e9,
      6 := -1.084599001e9,
      7 := -2.858259084e8,
      8 := 7.841132237e7,
      9 := -1.261531969e7,
      10 := 9.044741126e5
    ],
    "o2" := map[],
    "ar" := map[0 := -5.677745067e3, 1 := 5.677745067e3],
    "ne" := map[0 := -5.677745067e3, 1 := 5.677745067e3],
    "h2o" := map[],
    "co2" := map[],
    "co" := map[],
    "so2" := map[]
  ]

  /** The entropy coefficients d_k,0 .. d_k,10; only nitrogen, argon and neon have
      entries. */
  const DValues: map<string, map<int, Entry>> := map[
    "n2" := map[
      0 := Number(-4.085709350e6),
      1 := Number(2.475830346e6),
      2 := Number(1.876826594e4),
      3 := Number(-8.931209320e4),
      4 := Number(1.086352558e6),
      5 := Number(-4.370240810e6),
      6 := Number(1.191212522e7),
      7 := Number(-5.232032004e6),
      8 := Number(8.611897020e5),
      9 := Number(-1.077640342e5),
      10 := Number(6.622545214e3)
    ],
    "o2" := map[],
    "ar" := map[0 := NaN, 1 := Number(2.078618000e1)],
    "ne" := map[0 := NaN, 1 := Number(2.078618000e1)],
    "h2o" := map[],
    "co2" := map[],
    "co" := map[],
    "so2" := map[]
  ]

  /** `B()[index]`: defined exactly for the indices 1 .. 10. */
  function B(index: int): (r: Result<real>)
    ensures r.Ok? <==> 1 <= index <= 10
    ensures r.Err? ==> r.error == KeyError
  {
    if index in BValues then Ok(BValues[index]) else Err(KeyError)
  }

  /** `A()[component, index]`: defined exactly for the eight components at the
      indices 1 .. 10. */
  function A(component: string, index: int): (r: Result<real>)
    ensures r.Ok? <==> component in Constants.Components && 1 <= index <= 10
    ensures r.Err? ==> r.error == KeyError
  {
    if component in AValues && index in AValues[component]
    then Ok(AValues[component][index])
    else Err(KeyError)
  }

  /** `C()[component, index]`: nitrogen at 0 .. 10, argon and neon at 0 and 1, and
      no index of any other component. */
  function C(component: string, index: int): (r: Result<real>)
    ensures r.Ok? <==> (component == "n2" && 0 <= index <= 10) ||
                       ((component == "ar" || component == "ne") && 0 <= index <= 1)
    ensures r.Err? ==> r.error == KeyError
  {
    if component in CValues && index in CValues[component]
    then Ok(CValues[component][index])
    else Err(KeyError)
  }

  /** `D()[component, index]`: the same keys as C. */
  function D(component: string, index: int): (r: Result<Entry>)
    ensures r.Ok? <==> C(component, index).Ok?
    ensures r.Err? ==> r.error == KeyError
  {
    if component in DValues && index in DValues[component]
    then Ok(DValues[component][index])
    else Err(KeyError)
  }

  /** The first and last exponent, and the two indices just outside the range. */
  lemma BEnds()
    ensures B(1) == Ok(0.0) && B(10) == Ok(1.0)
    ensures B(0) == Err(KeyError) && B(11) == Err(KeyError)
  {
  }

  /** b_2 .. b_10 increase strictly from -1.5 to 1. */
  lemma BIncreasing()
    ensures B(2) == Ok(-1.5)
    ensures forall i, j :: 2 <= i < j <= 10 ==> B(i).value < B(j).value
  {
    forall i, j | 2 <= i < j <= 10
      ensures B(i).value < B(j).value
    {
      assert i in {2, 3, 4, 5, 6, 7, 8, 9};
      assert j in {3, 4, 5, 6, 7, 8, 9, 10};
    }
  }

  /** A has the same indices as B, for every component. */
  lemma ASharesBIndices(c: Constants.Component, index: int)
    ensures A(Constants.Name(c), index).Ok? <==> B(index).Ok?
  {
    Constants.ComponentNames();
  }

  /** A fails below and above the index range and for an unknown component. */
  lemma AOutOfRange(component: string)
    ensures A(component, 0) == Err(KeyError) && A(component, 11) == Err(KeyError)
    ensures A("invalid component", 1) == Err(KeyError)
  {
    assert "invalid component" !in Constants.Components by {
      assert |"invalid component"| == 17;
    }
  }

  /** The first and last nitrogen coefficient of table 3. */
  lemma ANitrogenEnds()
    ensures A("n2", 1) == Ok(2.475830346e6) && A("n2", 10) == Ok(6.622545214e3)
  {
  }

  /** c_0 = -c_1 for argon and for neon. */
  lemma EnthalpyOffsets()
    ensures C("ar", 0).Ok? && C("ar", 0).value == -C("ar", 1).value
    ensures C("ne", 0).Ok? && C("ne", 0).value == -C("ne", 1).value
  {
    assert C("ar", 0) == Ok(-5.677745067e3) && C("ar", 1) == Ok(5.677745067e3);
    assert C("ne", 0) == Ok(-5.677745067e3) && C("ne", 1) == Ok(5.677745067e3);
  }

  /** d_1 = a_1 for nitrogen and argon, and d_10 = a_10 for nitrogen; d_0 of argon
      and neon is NaN. */
  lemma EntropySharesHeatCapacity()
    ensures D("n2", 1) == Ok(Number(A("n2", 1).value))
    ensures D("n2", 10) == Ok(Number(A("n2", 10).value))
    ensures D("ar", 1) == Ok(Number(A("ar", 1).value))
    ensures D("ar", 0) == Ok(NaN) && D("ne", 0) == Ok(NaN)
  {
    assert A("n2", 1) == Ok(2.475830346e6) && A("n2", 10) == Ok(6.622545214e3);
    assert A("ar", 1) == Ok(2.078618000e1);
  }
}
