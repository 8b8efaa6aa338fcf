# vdi4670 — molar masses, gas constants and mixtures

A Dafny model of the core of `vdi4670`, a partial Python implementation of the
VDI 4670 guideline on the thermodynamic properties of humid air and combustion gases.
The model covers these parts:

- **Coefficient tables** (`coefficients.dfy`): the temperature exponents b_i (table 2)
  and the per-component coefficients a_k,i (table 3), c_k,i and d_k,i. Each table is a
  constant dictionary. A lookup returns the entry, or `KeyError` when the component or
  the index is not a key. The tables are only partly filled in, and the model keeps
  exactly which keys exist. d_0 of argon and neon is the NaN placeholder `Entry.NaN`.
- **Constants** (`constants.dfy`, module `Constants`): the reference state, the
  temperature limits, R_m = 8.314472 J/(mol K), the eight component names, and
  `Fractions`. `Fractions` is the eight-argument composition vector
  `n2=0, ..., so2=0` that every mixing rule takes.
- **Molar masses** (`constants.dfy`, module `MolarMass`): table 1, and the two mixing
  rules M = sum x_k M_k and M = 1 / sum (w_k / M_k). The second rule raises
  `ZeroDivisionError` when its denominator is zero.
- **Specific gas constants** (`constants.dfy`, module `SpecificGasConstant`): table 1's
  R_k, and R = R_m / M under both mixing rules.
- **The package's mixture** (`vdi_mixture.dfy`): a class whose fields are fixed at
  construction. The constructor raises `ValueError` unless the mole fractions sum to
  exactly 1. The model also covers the `air` and `test_gas` presets and `molar_mass`.
- **The older top-level mixture** (`legacy_mixture.dfy`): the same constructor, plus
  `from_mass_fraction`. That method overwrites the stored mole fractions in place with
  x_k = w_k M_mix / M_k, after checking that the mass fractions sum to 1.
  The module's own `MolarMass.from_mole_fractions` and `from_mass_fractions`
  (mixture.py:29-52) compute the same sums over a table equal to the package's
  (`LegacyMixture.SameConstantsAsPackage`). They are therefore modelled by the
  package's `MolarMass.FromMoleFractions` and `MolarMass.FromMassFractions`.

Python exceptions are modelled as values (`Results.Result`, `Results.Outcome`), never as
preconditions. Arithmetic is over exact reals.

The model follows the code, which:
- raises `KeyError` for a missing table key;
- never range-checks a single fraction, only the sum;
- fills its coefficient tables in only partly: nitrogen has all its entries, argon and
  neon a few, and the other components none but zeros or empty dictionaries;
- never checks a temperature against the guideline's 200 K to 3300 K range;
- builds the package's mixture from mole fractions only.

Every mixing rule computes with table 1 exactly as the program writes it, argon's
39.938e-3 kg/mol included. The argon value that agrees with the tabulated specific
gas constant, 39.948e-3 kg/mol, is kept apart as `MolarMass.Corrected` (see Findings).

## Model

| member | source | states |
|---|---|---|
| Coefficients.B | vdi4670/coefficients.py:8-22 | b[i] is defined exactly for 1 <= i <= 10 and raises KeyError otherwise |
| Coefficients.BEnds | vdi4670/coefficients.py:9-18 | b[1] = 0 and b[10] = 1; b[0] and b[11] raise KeyError |
| Coefficients.BIncreasing | vdi4670/coefficients.py:10-18 | b_2 .. b_10 increase strictly, starting at -1.5 |
| Coefficients.A | vdi4670/coefficients.py:28-129 | a[k, i] is defined exactly for the eight component names and 1 <= i <= 10; otherwise KeyError |
| Coefficients.ASharesBIndices | vdi4670/coefficients.py:28-129 | for every component, a[k, i] is defined exactly where b[i] is |
| Coefficients.AOutOfRange | vdi4670/coefficients.py:127-129 | index 0, index 11 and an invalid component raise KeyError |
| Coefficients.ANitrogenEnds | vdi4670/coefficients.py:30-39 | a[n2, 1] = 2.475830346e6 and a[n2, 10] = 6.622545214e3 |
| Coefficients.C | vdi4670/coefficients.py:135-166 | c[k, i] is defined exactly for n2 at 0..10 and for ar and ne at 0..1; every other key raises KeyError |
| Coefficients.EnthalpyOffsets | vdi4670/coefficients.py:150-157 | c_0 = -c_1 for argon and for neon |
| Coefficients.D | vdi4670/coefficients.py:172-203 | d[k, i] has exactly the keys of c[k, i]; every other key raises KeyError |
| Coefficients.EntropySharesHeatCapacity | vdi4670/coefficients.py:173-194 | d_1 = a_1 for n2 and ar, and d_10 = a_10 for n2; d_0 of ar and ne is NaN |
| Constants.ComponentNames | vdi4670/constants.py:15-24 | the components set holds exactly the eight names, one per component, with no two alike |
| Constants.ReferenceTemperatureInRange | vdi4670/constants.py:6-11 | T_min < T_0 < T_max |
| Constants.Pure | vdi4670/mixture.py:11 | the composition with one component at 1 and every other at its default 0 |
| Constants.Total | vdi4670/mixture.py:13 | the sum of the eight fractions, which both constructors (also mixture.py:62) and from_mass_fraction (mixture.py:75) compare with 1 |
| Constants.PureIsComposition | vdi4670/mixture.py:13-15 | every pure composition sums to 1 and has no negative fraction, so the constructor accepts it |
| MolarMass.OfComponent | vdi4670/constants.py:32-39 | table 1 as written; every entry lies between water's and sulphur dioxide's |
| MolarMass.Corrected | vdi4670/constants.py:34 | table 1 with argon alone changed, to 39.948e-3 instead of the written 39.938e-3 (see Findings); every entry still lies between water's and sulphur dioxide's |
| MolarMass.FromMoleFractions | vdi4670/constants.py:42-52 | the mole-fraction rule: the sum of x_k * M_k over the eight components, with the table as written |
| MolarMass.PureMoleFractions | vdi4670/constants.py:42-52 | a pure component's mole-fraction molar mass is its own M_k |
| MolarMass.NoMoleFractions | vdi4670/constants.py:42-52 | with every argument at its default, the mole-fraction molar mass is 0 |
| MolarMass.MoleFractionBounds | vdi4670/constants.py:42-52 | for non-negative fractions summing to 1, M lies between M_H2O and M_SO2 |
| MolarMass.MoleFractionFacts | vdi4670/constants.py:42-52 | for any composition: a pure one gives its own M_k, and a proper one lies between M_H2O and M_SO2 |
| MolarMass.InverseMassSum | vdi4670/constants.py:57-64 | the denominator of the mass-fraction rule: the sum of w_k / M_k over the eight components |
| MolarMass.FromMassFractions | vdi4670/constants.py:55-66 | raises ZeroDivisionError exactly when sum w_k / M_k is 0; otherwise it returns the reciprocal of that sum |
| MolarMass.PureMassFractions | vdi4670/constants.py:55-66 | a pure component's mass-fraction molar mass is its own M_k |
| MolarMass.NoMassFractions | vdi4670/constants.py:55-66 | with every argument at its default, the rule raises ZeroDivisionError |
| MolarMass.CancellingMassFractions | vdi4670/constants.py:55-66 | mass fractions that sum to 1, one of them negative, can still raise ZeroDivisionError |
| MolarMass.CancellingInverseSum | vdi4670/constants.py:57-64 | the denominator of those cancelling fractions is exactly 0 |
| MolarMass.MassFractionBounds | vdi4670/constants.py:55-66 | for non-negative fractions summing to 1, the rule does not raise, and M lies between M_H2O and M_SO2 |
| SpecificGasConstant.Tabulated | vdi4670/constants.py:72-79 | the specific gas constants of table 1, as written |
| SpecificGasConstant.FromMoleFractions | vdi4670/constants.py:81-84 | raises ZeroDivisionError exactly when the molar mass is 0; otherwise R * M = R_m |
| SpecificGasConstant.FromMassFractions | vdi4670/constants.py:86-89 | raises exactly when the molar-mass rule raises; otherwise R = R_m * sum w_k / M_k |
| SpecificGasConstant.TabulatedAgreesWithMolarMass | vdi4670/constants.py:72-79 | every tabulated R_k equals R_m / M_k to four decimals once argon's molar mass is corrected |
| SpecificGasConstant.ArgonAsWrittenDisagrees | vdi4670/constants.py:34 | with argon's molar mass as written, R_m / M_Ar misses the tabulated 208.1324 by more than 0.05 |
| SpecificGasConstant.PureComponent | vdi4670/constants.py:81-89 | for a pure component both rules give the same R, with R * M_k = R_m; it matches table 1 to four decimals for every component except argon, which misses by more than 0.05 |
| VdiMixture.Mixture.Create | vdi4670/mixture.py:11-23 | succeeds exactly when the fractions sum to 1; otherwise it raises ValueError; on success it stores every fraction unchanged |
| VdiMixture.Mixture.Air | vdi4670/mixture.py:25-27 | builds a valid mixture of the air composition |
| VdiMixture.Mixture.TestGas | vdi4670/mixture.py:29-31 | builds a valid mixture of the test-gas composition |
| VdiMixture.Mixture.MolarMass | vdi4670/mixture.py:33-43 | the mole-fraction rule on the stored fractions; a pure component gives its own M_k; a valid non-negative mixture lies between M_H2O and M_SO2 |
| VdiMixture.ConstructionCases | vdi4670/mixture.py:13-15 | the all-default call and n2 = 1.1 are refused; n2 = 1 is accepted, with o2 = 0; a negative fraction balanced by one above 1 is accepted |
| VdiMixture.PresetsAreCompositions | vdi4670/mixture.py:25-31 | both presets sum to 1 and have no negative fraction |
| LegacyMixture.SameConstantsAsPackage | mixture.py:9-58 | the module's own constants and molar-mass table equal the package's, entry for entry |
| LegacyMixture.MolarMassAsWritten | mixture.py:19-27 | the module's own molar-mass table, as written (equal to the package's by SameConstantsAsPackage) |
| LegacyMixture.MoleFromMass | mixture.py:74-86 | raises ValueError unless the mass fractions sum to 1, then ZeroDivisionError exactly when the mass-fraction denominator is 0 |
| LegacyMixture.Scaled | mixture.py:79-86 | the eight values from_mass_fraction writes, x_k = w_k * M_mix / M_k |
| LegacyMixture.ConvertedWeights | mixture.py:79-86 | each converted fraction satisfies x_k M_k = w_k M_mix |
| LegacyMixture.ConvertedSumsToOne | mixture.py:74-86 | the converted mole fractions sum to exactly 1 |
| LegacyMixture.RoundTrip | mixture.py:78-98 | the mole-fraction molar mass of the converted fractions equals the mass-fraction molar mass of the input |
| LegacyMixture.ConvertedZeros | mixture.py:79-86 | a converted fraction is 0 exactly when its mass fraction is 0 |
| LegacyMixture.ConvertedNonNegative | mixture.py:74-86 | non-negative mass fractions summing to 1 always convert, and give non-negative mole fractions |
| LegacyMixture.Mixture.Create | mixture.py:61-72 | succeeds exactly when the fractions sum to 1; otherwise it raises ValueError; on success it stores every fraction unchanged |
| LegacyMixture.Mixture.FromMassFraction | mixture.py:74-86 | succeeds exactly when MoleFromMass does; a failure raises the same error and leaves the mixture unchanged; a success stores the converted fractions, keeps the mixture valid and makes its molar mass the mass-fraction molar mass |
| LegacyMixture.Mixture.MolarMass | mixture.py:88-98 | the mole-fraction rule on the stored fractions; a pure component gives its own M_k; a valid non-negative mixture lies between M_H2O and M_SO2 |

## Left out

- Floating point: all arithmetic is exact. In IEEE doubles the air preset's fractions
  sum to 1.0000000000000002 rather than 1, so `Mixture.air()` as written would raise
  ValueError. The model proves the exact-real sum is 1, and does not capture that
  rounding. Every `== 1` test and every quotient is exact in the model.
- VdiMixture.Mixture.Air, VdiMixture.Mixture.TestGas: they state only the exact-real
  behaviour, because floating-point rounding is not modelled.
- Units (`pint` quantities): every value is a plain real in the unit the source
  attaches to it (kg/mol, J/(kg K), J/(mol K), K, MPa).
- NaN: the placeholder d_0 of argon and neon is an abstract `Entry.NaN`. Its IEEE
  properties (NaN != NaN) are not modelled.
- Temperature range: `temperature_range` and the limits are constants only, because
  nothing in the core checks a temperature against them.
- Property methods (density, heat capacity, enthalpy, entropy): they do not exist in the
  modelled classes, and they would need non-integer powers and logarithms.
- Assigning to or deleting a table entry (a TypeError in Python): the tables are
  immutable constants with no write operation, so the model has no such call.
- Python's key equality quirks (a key of `1.0` or `True` finding entry 1) and the
  error from a subscript that is not a pair: lookups take an int index and a string.
- The top-level module's `components` set (mixture.py:16) is never used. It is not
  modelled separately, and its capitalised names are a different key set.
- `usage.py` and the test modules are callers only. The tests' `n2.x[...]` attribute
  does not exist in either mixture class.
- MolarMass.Corrected: only SpecificGasConstant.TabulatedAgreesWithMolarMass uses it.
  No mixing rule is restated over the corrected table, because the program computes
  with the written value.

## Findings

| source | as written | input that shows it | evidently intended | confidence | as-written member | corrected member |
|---|---|---|---|---|---|---|
| vdi4670/constants.py:34 (also mixture.py:22) | molar mass of argon 39.938e-3 kg/mol | pure argon: R_m / 0.039938 = 208.1845 J/(kg K), against the tabulated 208.1324 at vdi4670/constants.py:74 | 39.948e-3 kg/mol, for which R_m / M_Ar = 208.1324 to four decimals, as for the other seven components | high, not executed | SpecificGasConstant.ArgonAsWrittenDisagrees | MolarMass.Corrected, SpecificGasConstant.TabulatedAgreesWithMolarMass |
