# CRflux composite spectrum engine, modelled in Dafny

This project models the event-generation core of CRflux, the cosmic-ray
generator of the GLAST/Fermi LAT simulation. The host framework asks a
species entry point (`CrElectron` or `CrGamma`) for an energy, a direction
and a flux. The entry point chooses one of its sub-components (primary,
reentrant or splash) in proportion to its rate.

The reentrant and splash components resolve the geomagnetic latitude
`|theta_M|` to one latitude bin, or to a blend of two adjacent bins. Each bin
samples a piecewise analytic spectrum by inverse transform, with
envelope-and-reject for cutoff power laws. `CrProtonPrimary` draws the
primary proton spectrum from two envelopes, keeps the energy limits it
derives from the cutoff rigidity, and reads its flux from a 16 x 7 table.
`CrCoordinateTransfer` turns geographic coordinates into geomagnetic ones.

Modelling conventions:

- All arithmetic is on `real`.
- `pow`, `exp`, `log`, `sqrt`, `sin`, `cos`, `asin` and `acos` are fields of
  a `Math` value (module `Transcendental`). A lemma names, in its requires
  clause, the properties of them it relies on (monotone, inverse of each
  other, range).
- The CLHEP random engine is a finite sequence of draws, consumed left to
  right. Every operation returns the draws it left unconsumed, so draw order
  is part of each contract.
- Each `while(1)` rejection loop is written twice: once as a recursive
  function over the draws, and once as a method with a loop that is proved
  equal to that function. The function returns `None` when the finite
  prefix of draws runs out.

Modules:

| module | models |
|---|---|
| `Wrappers`, `Engine`, `Sums`, `Transcendental` | shared vocabulary: Option, draws, sums and prefix sums, the math library |
| `Params` | `parseParamList` and the bit field of `CrElectron`/`CrGamma` |
| `Selection` | the cumulative-weight scan of `selectComponent` |
| `Electron` | `CrElectron` as a class with its component list and cached choice |
| `Gamma` | `CrGamma` as a class |
| `LatitudeBins`, `Directions` | the latitude-bin resolver and the hemisphere directions shared by the reentrant and splash generators |
| `ElectronReentrant`, `PositronReentrant`, `PositronSplash`, `ProtonReentrant` | the four resolvers with their own bin centres |
| `Spectrum` | the spectral helper functions and the piecewise sampler shared by the per-bin generators |
| `ElectronSubSplash`, `PositronSubReentrant` | the per-bin spectra and samplers |
| `Interpolation` | linear and bilinear interpolation |
| `ProtonPrimary` | `CrProtonPrimary`: spectrum, envelopes, rejection loop, energy limits, flux table |
| `CoordinateTransfer` | `CrCoordinateTransfer`: grid interpolation, dipole formulas, dispatch |

## Model

| member | source | states |
|---|---|---|
| Params.FirstComma | src/CrElectron.cxx:205 | the position of the first comma, or the length (npos) when there is none; no earlier character is a comma |
| Params.ParseParamList | src/CrElectron.cxx:202-211 | the loop appends exactly `ParsedValues`: `atof` of the rest of the input, then cuts after the first comma, stopping on an empty rest or no comma |
| Params.OneValuePerField | src/CrElectron.cxx:202-211 | when `atof` stops at a comma, there is one value per comma-separated field, in order, and none for an empty string |
| Params.TrailingCommaIgnored | src/CrElectron.cxx:202-211 | a comma at the very end adds no field ("1,2," parses like "1,2") |
| Params.Trunc | src/CrElectron.cxx:60 | the float-to-int conversion truncates toward zero: `n <= x < n+1` for `x >= 0`, `n-1 < x <= n` for `x < 0` |
| Params.Present | src/CrElectron.cxx:62-64 | slots are listed in ascending order; slot 0, 1 or 2 is present iff bit 1, 2 or 4 of the flag is set |
| Params.DefaultAllOn | src/CrElectron.cxx:60 | no parameters, or a first parameter of 0, gives flag 7 and all three components |
| Params.EmptyExactlyForMultiplesOfEight | src/CrElectron.cxx:60-64 | the component list is empty iff the flag is a multiple of 8 |
| Params.EmptyMaskInputs | src/CrElectron.cxx:60-64 | "8" gives flag 8 and "0.5" gives flag 0 (not equal to 0 as a float, so no default); both build an empty list |
| Params.EffectiveFlag | src/CrElectron.cxx:60-64 | the corrected flag always names at least one component, and equals the source's flag whenever that names one |
| Selection.Select | src/CrElectron.cxx:110-113 | the index is at most the list length; an index inside the list covers `flat * total`, and no earlier index does |
| Selection.FirstCovering | src/CrElectron.cxx:110-113 | the returned index covers the threshold (cumulative weight `>= rnum`) and no earlier index does; the end index when none does |
| Selection.FirstCoveringUnique | src/CrElectron.cxx:110-113 | any index that covers the threshold with no earlier covering index is the one the scan returns |
| Selection.ScanCumulative | src/CrElectron.cxx:88-117 | the two loops (accumulate `integ_flux`, then stop at the first `integ_flux >= flat * total`) return `Select(w, u)` |
| Selection.SelectInRange | src/CrElectron.cxx:110-117 | with non-negative weights, a draw in [0,1) and a non-empty list, the index is inside the list; for an empty list it is the end |
| Selection.SelectWindow | src/CrElectron.cxx:110-113 | component k is chosen iff the threshold lies in its cumulative window `(W_k, W_k+1]` |
| Electron.Normalization | src/CrElectron.cxx:66 | a normalization is set iff there are at least two parameters and the second is positive; it is the second parameter |
| Electron.Components | src/CrElectron.cxx:62-71 | one component per present slot, primary/reentrant/splash by slot, each carrying the normalization |
| Electron.ComponentsInBitOrder | src/CrElectron.cxx:62-64 | kinds appear in strictly ascending slot order: primary before reentrant before splash, none twice |
| Electron.ComponentPresentIffBit | src/CrElectron.cxx:62-64 | a kind is in the list iff its bit (1, 2 or 4) is set |
| Electron.PushComponents | src/CrElectron.cxx:62-64 | the three conditional `push_back`s build `Components(flag)` without normalization |
| Electron.SetNormalization | src/CrElectron.cxx:66-71 | the loop sets the normalization on every component and changes nothing else, keeping order and length |
| Electron.Weights | src/CrElectron.cxx:95-108 | weight is `solidAngle * flux` with more than one component and `flux` with exactly one |
| Electron.WeightsNonNegative | src/CrElectron.cxx:95-108 | non-negative fluxes and solid angles give non-negative weights |
| Electron.SpeciesSolidAngle | src/CrElectron.cxx:162-172 | 4 pi unless there is exactly one component |
| Electron.FluxMatchesWeights | src/CrElectron.cxx:139-172 | with several components flux times solid angle equals the total selection weight; with one the flux is that component's flux |
| Electron.EmptyMaskSelectsEnd | src/CrElectron.cxx:110-115 | for the "8" mask the list is empty and the scan returns the end position that `m_component = *i` dereferences |
| Electron.SpeciesFlux | src/CrElectron.cxx:139-160 | with non-negative component fluxes and solid angles the species flux is non-negative |
| Electron.Electron.constructor | src/CrElectron.cxx:53-72 | the component list is `Components` of the parsed parameters (with the corrected flag) and no component is cached |
| Electron.Electron.SelectComponent | src/CrElectron.cxx:88-117 | returns and caches `Select` of the weights, an index inside the list, leaving the list unchanged |
| Electron.Electron.Energy | src/CrElectron.cxx:122-126 | always reselects with the first draw and caches the choice; the energy and the draws left are the chosen component's `energySrc` on the remaining draws |
| Electron.Electron.Dir | src/CrElectron.cxx:130-135 | reuses the cached component without drawing; selects and caches with one draw only when none is cached; the direction is that component's `dir(energy)` on the draws after any selection draw |
| Electron.Electron.Flux | src/CrElectron.cxx:139-160 | the loop returns the solid-angle-weighted sum over 4 pi with several components, the plain sum with one |
| Electron.Electron.SolidAngle | src/CrElectron.cxx:162-172 | the component's own solid angle for exactly one component, 4 pi otherwise |
| Electron.Electron.Interval | src/CrElectron.cxx:198-200 | exactly -1 for every time: the source returns the constant `-1.0` |
| Gamma.Components | src/CrGamma.cxx:53-59 | one kind per present slot: primary, secondary upward, secondary downward; no normalization parameter is read |
| Gamma.ComponentsInBitOrder | src/CrGamma.cxx:55-57 | kinds appear in ascending slot order, none twice, each iff its bit is set |
| Gamma.PushComponents | src/CrGamma.cxx:55-57 | the three conditional `push_back`s build `Components(flag)` |
| Gamma.Weights | src/CrGamma.cxx:79-84 | the weights are the component fluxes, never scaled by solid angle |
| Gamma.SelectionShare | src/CrGamma.cxx:74-93 | component k is chosen iff the draw is at most `W_k+1 / total` and, for k > 0, above `W_k / total`; that window is exactly `flux(k) / total` wide |
| Gamma.EmptyMaskSelectsEnd | src/CrGamma.cxx:86-91 | the "8" mask gives an empty list and the scan returns its end |
| Gamma.Gamma.constructor | src/CrGamma.cxx:46-62 | the component list is `Components` of the corrected flag of the parsed parameters; nothing cached |
| Gamma.Gamma.SelectComponent | src/CrGamma.cxx:74-93 | returns and caches the first component with cumulative flux `>= flat * total`, inside the list |
| Gamma.Gamma.Energy | src/CrGamma.cxx:98-102 | always reselects with one draw and caches the choice; the result is the chosen component's `energySrc` on the remaining draws |
| Gamma.Gamma.Dir | src/CrGamma.cxx:106-111 | selects, with one draw, only when no component is cached; the result is that component's `dir(energy)` on the draws after any selection draw |
| Gamma.Gamma.Flux | src/CrGamma.cxx:115-123 | the loop returns the plain sum of the component fluxes |
| Gamma.Gamma.SolidAngle | src/CrGamma.cxx:126-129 | always 4 pi |
| Gamma.Gamma.Interval | src/CrGamma.cxx:132-134 | exactly -1 for every time: the source returns the constant `-1.0` |
| LatitudeBins.ThetaM | src/CrElectronReentrant.cxx:153 | `|lat| * pi / 180` is non-negative |
| LatitudeBins.ThetaMIgnoresSign | src/CrElectronReentrant.cxx:153 | the sign of the latitude does not matter |
| LatitudeBins.ResolveFrom | src/CrElectronReentrant.cxx:155-205 | the if-chain from bin i on: the first interval `[c_j, c_j+1)` containing theta, with `r1 = theta - c_j` and `r2 = c_j+1 - theta`, or the last bin when none contains it |
| LatitudeBins.Resolve | src/CrElectronReentrant.cxx:153-205 | the first bin alone, the last bin alone, or an interval with `r1 >= 0` and `r2 > 0` |
| LatitudeBins.ResolveCharacterised | src/CrElectronReentrant.cxx:153-205 | for ascending centres: the first bin iff theta is below the first centre, the last iff at or above the last, and otherwise the blend of the interval containing theta |
| LatitudeBins.ChooseBin | src/CrElectronReentrant.cxx:157-160 | alone, no draw; in an interval one draw, and the lower bin iff `flat * (r1 + r2) < r2` |
| LatitudeBins.CoinThreshold | src/CrElectronReentrant.cxx:157 | the coin picks the lower bin iff the draw is below `r2 / (r1 + r2)`; at a centre it always does |
| LatitudeBins.EnergyBin | src/CrElectronReentrant.cxx:150-207 | the chosen bin is a valid bin, and at most one draw is used |
| LatitudeBins.EnergyBinBelow | src/CrElectronReentrant.cxx:153-154 | below the first centre, the first bin with no draw |
| LatitudeBins.EnergyBinAbove | src/CrElectronReentrant.cxx:203-205 | at or above the last centre, the last bin with no draw |
| LatitudeBins.EnergyBinAt | src/CrElectronReentrant.cxx:155-202 | inside interval i the coin rule on one draw picks bin i or i+1 |
| LatitudeBins.BlendIsConvex | src/CrElectronReentrant.cxx:222-256 | `(r2 F_lo + r1 F_hi)/(r1 + r2)` lies between the two fluxes and equals `F_lo` at the lower centre |
| LatitudeBins.Flux | src/CrElectronReentrant.cxx:215-259 | a single bin gives normalization times that bin's flux |
| LatitudeBins.FluxBelow | src/CrElectronReentrant.cxx:220-221 | below the first centre, normalization times the first bin's flux |
| LatitudeBins.FluxAbove | src/CrElectronReentrant.cxx:253-255 | at or above the last centre, normalization times the last bin's flux |
| LatitudeBins.FluxAt | src/CrElectronReentrant.cxx:222-252 | inside interval i, normalization times the `r2`/`r1`-weighted mean |
| LatitudeBins.FluxBetweenBins | src/CrElectronReentrant.cxx:222-252 | inside interval i the flux lies between the two scaled bin fluxes, and equals the lower one at the lower centre |
| Directions.Azimuth | src/CrElectronReentrant.cxx:143 | `phi = 2 pi flat` lies in [0, 2 pi) and determines the draw |
| Directions.Downward | src/CrElectronReentrant.cxx:142-145 | two draws; `cos(theta)` is the first draw, in [0, 1) |
| Directions.Upward | src/CrPositronSplash.cxx:142-146 | two draws; `cos(pi - acos(u)) = -u`, in (-1, 0] |
| Directions.UpwardMirrorsDownward | src/CrPositronSplash.cxx:142-146 | on the same draws the splash direction is the reentrant one mirrored through the horizontal plane |
| Directions.HemisphereSolidAngle | src/CrElectronReentrant.cxx:263-266 | 2 pi |
| ElectronReentrant.CentresAscending | src/CrElectronReentrant.cxx:153-205 | seven ascending centres 0.05 ... 0.65 |
| ElectronReentrant.EnergySrc | src/CrElectronReentrant.cxx:150-207 | below 0.05 bin 0001 on the untouched draws, from 0.65 on bin 0611 |
| ElectronReentrant.EnergySrcBetween | src/CrElectronReentrant.cxx:155-202 | between centres i and i+1 the lower bin iff `flat (r1 + r2) < r2`, on the draws after the coin |
| ElectronReentrant.Flux | src/CrElectronReentrant.cxx:215-259 | below 0.05 and from 0.65 on, the normalized flux of the end bin |
| ElectronReentrant.FluxBetween | src/CrElectronReentrant.cxx:222-252 | between centres, normalization times `(r2 F_i + r1 F_i+1)/(r1 + r2)` |
| ElectronReentrant.FluxWithinBins | src/CrElectronReentrant.cxx:222-252 | the blended flux lies between the two scaled bin fluxes, and equals the lower one at its centre |
| ElectronReentrant.HemispheresAlike | src/CrElectronReentrant.cxx:153 | energy and flux are the same at latitude `-lat` and `lat` |
| ElectronReentrant.Dir | src/CrElectronReentrant.cxx:135-146 | `cos(theta)` in [0, 1), `phi` in [0, 2 pi), two draws |
| ElectronReentrant.SolidAngle | src/CrElectronReentrant.cxx:263-266 | 2 pi |
| ElectronReentrant.ParticleName | src/CrElectronReentrant.cxx:270-273 | "e-" |
| PositronReentrant.CentresAscending | src/CrPositronReentrant.cxx:153-205 | seven ascending centres 0.05 ... 0.65 |
| PositronReentrant.EnergySrc | src/CrPositronReentrant.cxx:150-207 | below 0.05 bin 0001 alone, from 0.65 on bin 0611 alone |
| PositronReentrant.EnergySrcBetween | src/CrPositronReentrant.cxx:155-202 | the `r1`/`r2` coin rule between adjacent bins |
| PositronReentrant.Flux | src/CrPositronReentrant.cxx:215-259 | the end bins' normalized fluxes outside the centres |
| PositronReentrant.FluxBetween | src/CrPositronReentrant.cxx:222-252 | the normalized `r2`/`r1`-weighted mean between centres |
| PositronReentrant.FluxWithinBins | src/CrPositronReentrant.cxx:222-252 | the blend lies between the two scaled bin fluxes |
| PositronReentrant.HemispheresAlike | src/CrPositronReentrant.cxx:153 | energy and flux do not depend on the sign of the latitude |
| PositronReentrant.Dir | src/CrPositronReentrant.cxx:135-146 | `cos(theta)` in [0, 1), `phi` in [0, 2 pi) |
| PositronReentrant.SolidAngle | src/CrPositronReentrant.cxx:263-266 | 2 pi |
| PositronReentrant.ParticleName | src/CrPositronReentrant.cxx:270-273 | "e+" |
| PositronSplash.CentresAscending | src/CrPositronSplash.cxx:154-206 | seven ascending centres 0.05 ... 0.65 |
| PositronSplash.EnergySrc | src/CrPositronSplash.cxx:151-208 | bin 0001 alone below 0.05, bin 0611 alone from 0.65 on |
| PositronSplash.EnergySrcBetween | src/CrPositronSplash.cxx:156-203 | the lower bin iff `flat (r1 + r2) < r2` |
| PositronSplash.Flux | src/CrPositronSplash.cxx:216-260 | the end bins' normalized fluxes outside the centres |
| PositronSplash.FluxBetween | src/CrPositronSplash.cxx:221-257 | normalization times the `r2`/`r1`-weighted mean between centres |
| PositronSplash.FluxWithinBins | src/CrPositronSplash.cxx:221-257 | the blend lies between the two scaled bin fluxes |
| PositronSplash.HemispheresAlike | src/CrPositronSplash.cxx:154 | energy and flux do not depend on the sign of the latitude |
| PositronSplash.Dir | src/CrPositronSplash.cxx:135-147 | upward: `cos(theta)` in (-1, 0], `phi` in [0, 2 pi) |
| PositronSplash.SolidAngle | src/CrPositronSplash.cxx:264-267 | 2 pi |
| PositronSplash.ParticleName | src/CrPositronSplash.cxx:271-274 | "e+" |
| ProtonReentrant.CentresAscending | src/CrProtonReentrant.cxx:229-297 | nine ascending centres 0.15 ... 0.95 |
| ProtonReentrant.EnergySrc | src/CrProtonReentrant.cxx:216-299 | bin 0002 alone below 0.15, bin 0910 alone from 0.95 on |
| ProtonReentrant.EnergySrcBetween | src/CrProtonReentrant.cxx:231-294 | the lower bin iff `flat (r1 + r2) < r2` |
| ProtonReentrant.Flux | src/CrProtonReentrant.cxx:307-360 | the end bins' normalized fluxes outside the centres |
| ProtonReentrant.FluxBetween | src/CrProtonReentrant.cxx:314-358 | the normalized `r2`/`r1`-weighted mean between centres |
| ProtonReentrant.FluxWithinBins | src/CrProtonReentrant.cxx:314-358 | the blend lies between the two scaled bin fluxes |
| ProtonReentrant.Dir | src/CrProtonReentrant.cxx:130-209 | `phi` from the first draw; `cos(theta)` from the chosen bin's `theta()`, the single bins on the draws after the discarded second draw |
| ProtonReentrant.DirUsesEnergyBin | src/CrProtonReentrant.cxx:141-208 | `dir` picks its bin by the same resolver and coin as `energySrc` on the same draws |
| ProtonReentrant.DirIgnoresSecondDraw | src/CrProtonReentrant.cxx:137-138 | the value of the `acos(flat)` draw is overwritten and does not affect the result |
| ProtonReentrant.HemispheresAlike | src/CrProtonReentrant.cxx:229 | energy and flux do not depend on the sign of the latitude |
| ProtonReentrant.SolidAngle | src/CrProtonReentrant.cxx:364-367 | 2 pi |
| ProtonReentrant.ParticleName | src/CrProtonReentrant.cxx:371-374 | "proton" |
| Spectrum.PowSpec | src/CrElectronSubSplash.cxx:109-112 | `norm * E^-index` is positive for a positive norm and energy |
| Spectrum.PowSpecRoundTrip | src/CrElectronSubSplash.cxx:115-132 | `powSpec_integral_inv` undoes `powSpec_integral`, in both the `index == 1` log/exp branch and the power branch |
| Spectrum.PowSpecIntegralInvAt | src/CrElectronSubSplash.cxx:125-132 | for `index != 1` the inverse is `pow((1 - index) v / norm, 1/(1 - index))` |
| Spectrum.CutOffPowSpec2RoundTrip | src/CrPositronSubReentrant.cxx:83-99 | `cutOffPowSpec2_integral_inv` undoes `cutOffPowSpec2_integral` |
| Spectrum.CutOffPowSpec2IntegralInvAt | src/CrPositronSubReentrant.cxx:90-99 | the closed form of the inverse |
| Spectrum.CutOffBelowEnvelope | src/CrPositronSubReentrant.cxx:38-50 | `0 < cutOffPowSpec(E) <= envelopeCutOffPowSpec(E)` for positive norm, E and cutoff, so rejection against the envelope is valid |
| Spectrum.PowerLawAreaPositive | src/CrElectronSubSplash.cxx:115-123 | a power-law segment over `lo < hi` has positive area |
| Spectrum.CutOff2AreaPositive | src/CrPositronSubReentrant.cxx:83-89 | a `cutOffPowSpec2` segment with index below 1 has positive area |
| Spectrum.CutOffPowSpec2IntegralAt | src/CrPositronSubReentrant.cxx:83-89 | the closed form of the integral |
| Spectrum.Areas | src/CrElectronSubSplash.cxx:185-206 | one area per segment, `rand_max - rand_min`, in ascending energy |
| Spectrum.ChooseFrom | src/CrElectronSubSplash.cxx:211-228 | the first segment from k on whose cumulative fraction reaches the draw (`<=`), the last segment as fallback |
| Spectrum.ChooseSegmentIsFirstReaching | src/CrElectronSubSplash.cxx:211-228 | a segment is the chosen one iff it is the first reached, or the last with none reached |
| Spectrum.ChooseSegmentInterval | src/CrElectronSubSplash.cxx:211-228 | segment k is chosen iff the draw is above the previous cumulative fraction and, unless k is last, at most its own |
| Spectrum.InverseIntegral | src/CrElectronSubSplash.cxx:115-132 | each segment shape's inverse undoes its integral |
| Spectrum.ProposeEndpoints | src/CrElectronSubSplash.cxx:213-215 | a second draw of 0 proposes the segment's lower edge and 1 its upper edge |
| Spectrum.Chosen | src/CrElectronSubSplash.cxx:211-228 | the chosen segment is one of the bin's segments |
| Spectrum.TryOnce | src/CrPositronSubReentrant.cxx:185-201 | one pass: defined, out of draws exactly when fewer than two (three for an enveloped segment) are left, and a rejection only for an enveloped segment |
| Spectrum.SampleEnergy | src/CrPositronSubReentrant.cxx:185-201 | the `while(1)` loop returns exactly `Sample` |
| Spectrum.NoEnvelopeTwoDraws | src/CrElectronSubSplash.cxx:211-229 | without an enveloped segment the sampler returns the proposal after exactly two draws |
| Spectrum.EnvelopedPass | src/CrPositronSubReentrant.cxx:193-199 | an enveloped segment accepts iff `flat * envelope(E) < cutOffPowSpec(E)`, otherwise restarts from segment choice on the remaining draws |
| Spectrum.SampleConsumesPrefix | src/CrPositronSubReentrant.cxx:185-201 | a sample consumes at least two draws and returns a suffix of them |
| ElectronSubSplash.PosToEle | src/CrElectronSubSplash.cxx:34-40 | each bin's positron-to-electron ratio is at least 1 |
| ElectronSubSplash.Pieces | src/CrElectronSubSplash.cxx:145-175 | three or four pieces per bin, with positive coefficients and reference energies |
| ElectronSubSplash.Breaks | src/CrElectronSubSplash.cxx:172-174 | one break energy fewer than pieces |
| ElectronSubSplash.Edges | src/CrElectronSubSplash.cxx:31-32 | every bin spans [0.01, 10] GeV with strictly ascending break energies |
| ElectronSubSplash.NormIsElectronShare | src/CrElectronSubSplash.cxx:160-169 | each normalization is the total divided by `1 + PosToEle`: it and its positron share add back to the total |
| ElectronSubSplash.Segments | src/CrElectronSubSplash.cxx:145-175 | piece i is a power law over `[edge_i, edge_i+1]` with its normalization and index |
| ElectronSubSplash.Bin0405HasThreePieces | src/CrElectronSubSplash.cxx:651-652 | bin 0405 has three pieces with breaks 0.1 and 0.3 |
| ElectronSubSplash.BinSampleable | src/CrElectronSubSplash.cxx:183-229 | every bin has defined integrals and positive areas |
| ElectronSubSplash.NormPositive | src/CrElectronSubSplash.cxx:160-169 | normalizations are positive |
| ElectronSubSplash.Energy | src/CrElectronSubSplash.cxx:183-229 | the energy is the generic sampler's result, after exactly two draws |
| ElectronSubSplash.DownwardFlux | src/CrElectronSubSplash.cxx:233-254 | `1000 *` the summed piece areas is positive for every sampleable bin |
| ElectronSubSplash.ShareIsWindow | src/CrElectronSubSplash.cxx:211-254 | for any sampleable pieces with flux `1000 *` their total area, piece k's flux share equals its draw window's width |
| ElectronSubSplash.FluxShareIsChoiceWindow | src/CrElectronSubSplash.cxx:202-254 | `downwardFlux` is positive and piece k's share of it is exactly the width of the draw window in which `energy` chooses piece k |
| PositronSubReentrant.Segments | src/CrPositronSubReentrant.cxx:137-159 | two or three segments, the first an E^-1 power law over [0.01, 0.1], the last ending at 20 GeV |
| PositronSubReentrant.SegmentsWellShaped | src/CrPositronSubReentrant.cxx:137-159 | every segment has positive norm and cutoff and `lo < hi` |
| PositronSubReentrant.FirstSegmentUsesLogBranch | src/CrPositronSubReentrant.cxx:107-124 | segment A's integral is `norm log E` and its inverse `exp(v / norm)` |
| PositronSubReentrant.BinSampleable | src/CrPositronSubReentrant.cxx:167-201 | every bin has defined integrals and positive areas |
| PositronSubReentrant.Energy | src/CrPositronSubReentrant.cxx:167-201 | the bin's loop returns exactly the generic sampler's result |
| PositronSubReentrant.OnlyLastSegmentsReject | src/CrPositronSubReentrant.cxx:537-558 | only segment B of bin 0003 and segment C of bin 0910 are subject to rejection |
| PositronSubReentrant.NonRejectingBinsUseTwoDraws | src/CrPositronSubReentrant.cxx:265-278 | bins 0306, 0608, 0809 and 1011 return the proposal after two draws |
| PositronSubReentrant.ThirdSegmentClosedForm | src/CrPositronSubReentrant.cxx:351-369 | bins 0608 and 0809 have three segments, the third inverted in closed form |
| PositronSubReentrant.Bin0003Pass | src/CrPositronSubReentrant.cxx:185-201 | segment A is accepted at once; segment B is accepted iff `flat envelope(E) < cutOffPowSpec(E)`, else the loop restarts |
| PositronSubReentrant.DownwardFlux | src/CrPositronSubReentrant.cxx:206-208 | a fixed positive constant per bin (311.0, 146.69, 73.15, 73.13, 120.73, 187.45) |
| ProtonPrimary.SqrtOfSquare | src/CrProtonPrimary.cxx:87-95 | `sqrt(x * x) = x` for `x >= 0` |
| ProtonPrimary.EnergyOfRigidity | src/CrProtonPrimary.cxx:87-95 | `energy(rigidity(E)) = E` for `E >= 0` |
| ProtonPrimary.KineticEnergyIncreasing | src/CrProtonPrimary.cxx:92-95 | `energy` is non-negative and strictly increasing in the rigidity |
| ProtonPrimary.BoundsOrdered | src/CrProtonPrimary.cxx:297-300 | for a positive cutoff rigidity `0 < lowE < cutE`, `highE = 100`, and `cutE < highE` when the rigidity is at most 100 |
| ProtonPrimary.RigidityPositive | src/CrProtonPrimary.cxx:87-89 | positive energy gives positive rigidity |
| ProtonPrimary.GeomagCutInUnit | src/CrProtonPrimary.cxx:136-141 | the geomagnetic cutoff factor lies strictly between 0 and 1 |
| ProtonPrimary.OrgSpecPositive | src/CrProtonPrimary.cxx:142-148 | the unmodulated spectrum `A * R(E)^-a` is positive for positive E |
| ProtonPrimary.ModSpecPositive | src/CrProtonPrimary.cxx:142-154 | the modulated spectrum is positive |
| ProtonPrimary.PrimarySpecBelowModSpec | src/CrProtonPrimary.cxx:155-168 | `0 < primaryCRspec < mod_spec` |
| ProtonPrimary.EnvelopeOneIsChord | src/CrProtonPrimary.cxx:169-192 | the lower envelope is the chord through the spectrum at `lowE` and `cutE`; its integral is 0 at `lowE` and the trapezoid at `cutE` |
| ProtonPrimary.EnvelopeTwoRoundTrip | src/CrProtonPrimary.cxx:193-212 | the upper envelope's inverse integral undoes its integral |
| ProtonPrimary.EnvelopeTwoAreaPositive | src/CrProtonPrimary.cxx:199-205 | the upper envelope has positive area over `[cutE, highE]` |
| ProtonPrimary.LowerProposalInRange | src/CrProtonPrimary.cxx:236-238 | the max of two uniforms in `[lowE, cutE)` lies in that interval |
| ProtonPrimary.UniformInInterval | src/CrProtonPrimary.cxx:236-237 | `flat (hi - lo) + lo` lies in `[lo, hi)` |
| ProtonPrimary.UniformFromTop | src/CrProtonPrimary.cxx:247 | a draw carried from `hi` towards `lo` lies in `(lo, hi]` |
| ProtonPrimary.UpperProposalForm | src/CrProtonPrimary.cxx:199-212 | the upper proposal is `(cutE^p + u (highE^p - cutE^p))^(1/p)` with `p = 1 - a`: the factor `A / p` cancels |
| ProtonPrimary.UpperProposalInRange | src/CrProtonPrimary.cxx:247-248 | for a draw in [0, 1) and `0 < cutE < highE` the upper proposal lies in `[cutE, highE)` |
| ProtonPrimary.TryOnce | src/CrProtonPrimary.cxx:229-256 | one pass consumes draws; an accepted energy is the lower proposal (4 draws) or the upper one (3 draws) |
| ProtonPrimary.Attempts | src/CrProtonPrimary.cxx:226-256 | the repeated passes, when one accepts, leave a proper suffix of the draws |
| ProtonPrimary.Sample | src/CrProtonPrimary.cxx:213-258 | a sampled energy leaves a proper suffix of the draws |
| ProtonPrimary.PrimaryCREnergy | src/CrProtonPrimary.cxx:213-258 | the `while(1)` loop returns exactly `Sample` |
| ProtonPrimary.AttemptsReturnProposal | src/CrProtonPrimary.cxx:226-256 | an accepted energy is a proposal: in `[lowE, cutE)` or an inverse of the upper envelope; the rest of the draws is a proper suffix |
| ProtonPrimary.SampleReturnsProposal | src/CrProtonPrimary.cxx:213-258 | with the limits of a positive cutoff rigidity, any sampled energy is a proposal of one of the two envelopes |
| ProtonPrimary.SampleWithinLimits | src/CrProtonPrimary.cxx:213-258 | for a cutoff rigidity in (0, 100] GV every sampled energy lies in `[lowE, highE)` |
| ProtonPrimary.TableShaped | src/CrProtonPrimary.cxx:262-279 | the table has 16 rows of 7 entries |
| ProtonPrimary.Clamp | src/CrProtonPrimary.cxx:411-416 | the clamped value lies in `[lo, hi]` and is unchanged when already inside |
| ProtonPrimary.ColumnCoordinate | src/CrProtonPrimary.cxx:415-419 | `phi/100 - 5` after the clamp lies in [0, 6] and is 6 iff `phi >= 1100` |
| ProtonPrimary.RowWeight | src/CrProtonPrimary.cxx:418-438 | for `cor >= 1` row `int(cor)` in 1..14 with weight `cor - int(cor)`; for `cor < 1` row 0 with weight `2 cor - 1` in [0, 1) |
| ProtonPrimary.ColumnWeightAsWritten | src/CrProtonPrimary.cxx:419-426 | column `int(phi')` with fraction `phi' - int(phi')`; the column is 6 iff `phi' = 6`, so `int(phi')+1` is 7 |
| ProtonPrimary.ColumnWeight | src/CrProtonPrimary.cxx:419-426 | the corrected column stays at most 5 with weight in [0, 1], and agrees with the source below the top |
| ProtonPrimary.ColumnSevenRead | src/CrProtonPrimary.cxx:415-426 | at `phi >= 1100` the source reads column 7, outside the 7-column row |
| ProtonPrimary.FluxAsWritten | src/CrProtonPrimary.cxx:400-444 | the source's table read; undefined (a read past the row) iff `phi >= 1100` |
| ProtonPrimary.Flux | src/CrProtonPrimary.cxx:400-444 | the corrected table flux, equal to the source's wherever that is defined |
| ProtonPrimary.FluxAgreesBelowTop | src/CrProtonPrimary.cxx:400-444 | below 1100 MV the corrected flux equals the source's |
| ProtonPrimary.FluxAtTopColumn | src/CrProtonPrimary.cxx:400-444 | at 1100 MV and above the corrected flux is half the row interpolation of column 6 |
| ProtonPrimary.FluxClamps | src/CrProtonPrimary.cxx:411-416 | `cor` below 0.5 or above 14.9 and `phi` below 500 or above 1100 give the flux at the clamp value |
| ProtonPrimary.GridColumn | src/CrProtonPrimary.cxx:419-426 | at an integral column coordinate the column weight selects that column |
| ProtonPrimary.GridPotential | src/CrProtonPrimary.cxx:419 | `phi = 500 + 100 col` maps to column coordinate `col` |
| ProtonPrimary.FluxAtGrid | src/CrProtonPrimary.cxx:418-441 | at grid points (`cor` in 1..14, `phi = 500 + 100 col`) the flux is exactly `0.5 * entry` |
| ProtonPrimary.FluxAtFirstRow | src/CrProtonPrimary.cxx:429-441 | at `cor <= 0.5` the flux is half the row-0 entry of the column |
| ProtonPrimary.FluxWithinCell | src/CrProtonPrimary.cxx:418-441 | the flux lies between half the smallest and half the largest of the four surrounding entries |
| ProtonPrimary.EnergyLimits.Recompute | src/CrProtonPrimary.cxx:360-366 | the limits become `lowE = energy(cor/2.5)`, `highE = 100`, `cutE = energy(cor)` |
| ProtonPrimary.ProtonPrimary.constructor | src/CrProtonPrimary.cxx:292-302 | the constructor sets the shared limits from the cutoff rigidity |
| ProtonPrimary.ProtonPrimary.SetCutOffRigidity | src/CrProtonPrimary.cxx:357-369 | stores the rigidity and recomputes the limits from it, leaving the solar potential |
| ProtonPrimary.ProtonPrimary.SetPosition | src/CrProtonPrimary.cxx:312-325 | takes the rigidity of the position and recomputes the limits from it |
| ProtonPrimary.ProtonPrimary.EnergySrc | src/CrProtonPrimary.cxx:390-394 | samples with the current limits and the spectrum of the current rigidity and potential |
| ProtonPrimary.ProtonPrimary.Dir | src/CrProtonPrimary.cxx:371-385 | `cos(theta)` is the first draw, in [0, 1); `phi` in [0, 2 pi); two draws |
| ProtonPrimary.ProtonPrimary.FluxNow | src/CrProtonPrimary.cxx:400-444 | the (corrected) table flux at the current rigidity and potential |
| ProtonPrimary.ProtonPrimary.SolidAngle | src/CrProtonPrimary.cxx:447-450 | 2 pi |
| Interpolation.LerpBetween | src/CrProtonPrimary.cxx:421-427 | for a weight in [0, 1] the interpolation lies between its ends, and weights 0 and 1 give the ends |
| Interpolation.BilinearWeightsSumToOne | src/CrCoordinateTransfer.cxx:147-150 | the four weights add up to 1 |
| Interpolation.BilinearIsNestedLerp | src/CrCoordinateTransfer.cxx:147-150 | the four-weight form is a lerp in `a` of two lerps in `b` |
| Interpolation.BilinearWithin | src/CrCoordinateTransfer.cxx:147-150 | with weights in [0, 1] the result lies between the smallest and largest corner |
| CoordinateTransfer.WrapLongitude | src/CrCoordinateTransfer.cxx:134-135 | a negative longitude is moved up by 360; for [-360, 360) the result lies in [0, 360) |
| CoordinateTransfer.FMod | src/CrCoordinateTransfer.cxx:139-140 | `fmod` truncates the quotient; for `x >= 0`, `y > 0` the remainder lies in `[0, y)` |
| CoordinateTransfer.Locate | src/CrCoordinateTransfer.cxx:137-140 | `a`, `b` are the fractional parts of the grid coordinates; inside the grid `ilat` in 0..12 (0..11 below 30), `ilon` in 0..71, `a`, `b` in [0, 1) |
| CoordinateTransfer.Interpolate | src/CrCoordinateTransfer.cxx:130-151 | defined iff all four corner reads are inside the table |
| CoordinateTransfer.InterpolateInsideGrid | src/CrCoordinateTransfer.cxx:137-150 | for `-30 <= lat < 30` and a longitude in [-360, 360) every read is inside a 13 x 73 grid |
| CoordinateTransfer.InterpolateWithinCorners | src/CrCoordinateTransfer.cxx:147-150 | the result is a convex combination of the four corner cells |
| CoordinateTransfer.InterpolateWeightsSumToOne | src/CrCoordinateTransfer.cxx:139-150 | the four weights of every cell add up to 1 |
| CoordinateTransfer.InterpolateAtNode | src/CrCoordinateTransfer.cxx:137-150 | at `lat = 5i - 30`, `lon = 5j` the result is exactly `array[i + 13 j]` |
| CoordinateTransfer.InterpolateWrapsWest | src/CrCoordinateTransfer.cxx:134-135 | a negative longitude reads the same cell as the longitude 360 degrees east of it |
| CoordinateTransfer.TopEdgeReadsPastGrid | src/CrCoordinateTransfer.cxx:137-150 | at `lat = 30` the row weight is 0 but row 13 is still read; for `lon` in [355, 360) that read is past a 13 x 73 grid |
| CoordinateTransfer.DipoleLatitude | src/CrCoordinateTransfer.cxx:41-69 | a sine argument below -0.999 gives -90 degrees and above 0.999 gives 90; otherwise `asin` in degrees; always in [-90, 90] |
| CoordinateTransfer.DipoleLongitude | src/CrCoordinateTransfer.cxx:79-121 | undefined iff the divisor `sin(pole) cos(mlat)` is 0; a cosine below -0.999 gives 180 or 360, above 0.999 gives 0 or 180; always in [0, 360] |
| CoordinateTransfer.GeomagneticLatitude | src/CrCoordinateTransfer.cxx:38-73 | the dipole formula for `|lat| > 30`, the glats grid otherwise |
| CoordinateTransfer.GeomagneticLongitude | src/CrCoordinateTransfer.cxx:76-125 | the dipole formula for `|lat| > 30`, the glons grid otherwise |
| CoordinateTransfer.GeomagneticLatitudeBounds | src/CrCoordinateTransfer.cxx:38-73 | above 30 degrees the result is in [-90, 90]; for `-30 <= lat < 30` it is defined and between the four glats cells |
| CoordinateTransfer.GeomagneticLongitudeBounds | src/CrCoordinateTransfer.cxx:76-125 | above 30 degrees the result is in [0, 360] when defined; for `-30 <= lat < 30` it is defined and between the four glons cells |

`CrGamma::parseParamList` (src/CrGamma.cxx:136-146) is the same code as
`CrElectron::parseParamList` and is modelled once, as `Params.ParseParamList`.

## Left out

- `atof` is a parameter of `Params.ParseParamList`. Number parsing is not modelled; only the comma splitting is.
- Floating point: every quantity is an exact real. Rounding, overflow, inf and NaN are not modelled. Where the source can divide by zero, the model returns an explicit undefined result instead of the inf or NaN the source goes on with:
  - `CoordinateTransfer.DipoleLongitude`: the divisor `sin(pole) cos(mlat)` is 0.
  - `ProtonPrimary.TryOnce`: the two envelope areas add up to 0 (the branch probability), or the envelope is 0 at the proposed energy, in either branch (the acceptance ratio).
  - `ProtonPrimary.Sample`: `cutE == lowE` (the slope of the lower envelope).
  In these cases the model returns `None`, whatever the source would do next. With IEEE arithmetic a NaN comparison is false, so the source takes the upper branch or rejects. A positive `spec(E) / 0` is +inf, so the source accepts. The other divisions by zero in `ProtonPrimary` are excluded by requires clauses on the cutoff rigidity and the solar wind potential, which the next line lists; every remaining one is excluded by a requires clause that the hard-coded constants satisfy.
- `pow(x, 2)` is taken as `x * x`, and the transcendental functions are parameters. Their accuracy is not modelled; round trips such as `energy(rigidity(E)) = E` are proved from stated properties of those functions, not from their implementation.
- The CLHEP engine, its seeding and `getTheEngine`/`new HepJamesRandom`: the engine is a finite sequence of draws in [0, 1). A rejection loop that runs out of draws returns `None`; the source loops until acceptance.
- Statistical claims (sampled histograms follow the spectra, selection frequencies) are not stated.
- `dump()` and the warning printed by `interpolate` for an out-of-range latitude are console output. The warning does not change the value, and the model computes the same value.
- The sub-components of `CrElectron` and `CrGamma` are not modelled. Their `flux` and `solidAngle` are function parameters: `Electron.Rates` in `Electron`, and the `flux` argument in `Gamma`.
- Electron.Electron.SelectComponent, Electron.Electron.Energy, Electron.Electron.Dir, Gamma.Gamma.SelectComponent, Gamma.Gamma.Energy, Gamma.Gamma.Dir: these require every sub-component's `flux` (and, for `CrElectron`, its `solidAngle`) to be non-negative. The source does not check this; every sub-component it builds returns a physical, non-negative rate. With a negative rate the cumulative scan in `selectComponent` could pass the last component and stop at `end()`, which the next `energySrc`/`dir` call dereferences, the same failure as the empty-list finding below.
- Their `energySrc` and `dir` are also function parameters, the fields of `Electron.Samplers` and `Gamma.Samplers`. The model fixes which component is called and on which draws, not what that component returns.
- The per-bin `energy`, `downwardFlux` and `theta` functions that the four resolvers call are function parameters too. Their classes are declared in the headers the resolvers include (`CrElectronSubReentrant.hh`, `CrPositronSubReentrant.hh`, `CrPositronSubSplash.hh`, `CrProtonSubReentrant.hh`). `CrElectronSubReentrant.cxx`, `CrPositronSubSplash.cxx` and `CrProtonSubReentrant.cxx` are not part of this model.
- `CrPositronSubReentrant.cxx` defines the positron reentrant bins `_0003`, `_0306`, `_0608`, `_0809`, `_0910` and `_1011`, not the `_0001` ... `_0611` that `CrPositronReentrant` names.
- The `CrPositronSubReentrant` bins are modelled with their own bin set; they are not merged with the bin names the resolver uses.
- `CrElectronSplash.hh`, `CrElectronSubReentrant.hh` and the other header-only files are not part of this model.
- `primaryCRspec` is handed to the proton sampler as a function tied to the model's `PrimarySpec` by `ProtonPrimary.SpecIs`, so the sampler's lemmas hold for any spectrum. The envelope-dominates-spectrum property is not proved; it depends on the numeric constants.
- ProtonPrimary.ProtonPrimary.EnergySrc: through `ProtonPrimary.SpecIs` it requires the cutoff rigidity to be positive and the solar wind potential to be non-negative, and so do `GeomagCut`, `ModSpec` and `PrimarySpec`: `GeomagCut` divides by the rigidity, and `ModSpec` needs `E + phi/1000 > 0` for a positive denominator. The source checks neither value: `primaryCRenergy` (src/CrProtonPrimary.cxx:213-255) runs for any rigidity. A negative rigidity would behave like its absolute value, because `energy()` and `pow(rigidity(E)/cor, -12.0)` are even in `cor`. A zero rigidity gives `lowE == cutE`, the case `ProtonPrimary.Sample` answers with `None`. The model promises nothing for these states.
- The rigidity that `setPosition` gets from the base class (`CrSpectrum::setPosition`) is a function parameter of `ProtonPrimary.ProtonPrimary.SetPosition`. The time-taking overloads (src/CrProtonPrimary.cxx:327-355) behave the same way and are not modelled separately.
- The namespace globals `lowE_primary`, `highE_primary` and `cutE_primary` are one shared `EnergyLimits` object that every `ProtonPrimary` instance updates.
- `CrProtonPrimary::operator()`, `calculate_rate`, `flux(lat, lon)`, `title`, `fraction` and `dir(float)` (src/CrProtonPrimary.cxx:460-508) belong to a separate interface and are not modelled.
- `CrCoordinateTransfer.inc` (the glats and glons tables) is not part of this model. The tables are parameters, assumed to be 13 x 73 where a lemma needs a size.
- CoordinateTransfer.DipoleLatitude, CoordinateTransfer.DipoleLongitude: the spherical trigonometry itself is not checked (no property of `sin`/`cos`/`asin` beyond the ranges of `asin` and `acos`); only the clamps, the `+pi` shift, the unit conversions and the dispatch are modelled.
- The `CrElectron`/`CrGamma` constructors use the corrected flag (`Params.EffectiveFlag`), see Findings. The source's behaviour for an empty list is exhibited by `Electron.EmptyMaskSelectsEnd` and `Gamma.EmptyMaskSelectsEnd`.
- `beta()` and `title()` are unused by the modelled operations, and `particleName` of `CrProtonPrimary` is a constant string; none is modelled.

## Findings

| source | as written | input that shows it | evidently intended | confidence | as-written member | corrected member |
|---|---|---|---|---|---|---|
| src/CrElectron.cxx:60-64 (also src/CrGamma.cxx:53-57) | a bit field with none of bits 1, 2, 4 set builds an empty component list; `selectComponent` then stops at `end()` and dereferences it on the next `energySrc`/`dir` call | parameter string "8", or "0.5" (truncated to flag 0, yet not equal to 0 so the all-on default does not apply) | fall back to all components, as for an absent or zero first parameter | not executed | Params.EmptyMaskInputs, Electron.EmptyMaskSelectsEnd | Params.EffectiveFlag |
| src/CrProtonPrimary.cxx:415-426 | at `phi >= 1100` MV the clamped `phi' = 6`, so `integral_array[..][int(phi)+1]` reads column 7 of a 7-column row (with weight 0) | solar wind potential 1100 MV, any cutoff rigidity | use column 6 alone at the top of the range | not executed | ProtonPrimary.FluxAsWritten, ProtonPrimary.ColumnSevenRead | ProtonPrimary.Flux, ProtonPrimary.FluxAtTopColumn |
