# oh-you-breathe-air, modelled in Dafny

The script prints "Nitrogen molecule #1", "Oxygen molecule #1", … forever. Each
line names a molecule of air chosen at random in proportion to how many such
molecules the atmosphere holds. The line carries that molecule's running count.
This project models the integer bookkeeping behind those lines:

- `composition.dfy` (module `Composition`): the start-up tables, computed with
  BigInt. `atmosphericMole` comes from the molar volume and the atmospheric
  volume. `moleComposition` holds moles per molecule. `moleculeComposition`
  holds molecules per molecule kind. Each float input is taken as an integer:
  the fraction numerator `BigInt(1e21 * fraction)`, the factor
  `BigInt(22.4 * 10)`, and `avogadro`.
- `weighted.dfy` (module `WeightedPick`): `weightedRandom`, a method with the
  script's two loops. The first sums the weights. The second walks the keys in
  `Object.keys` order and subtracts weights from the draw. The random step
  `Math.floor(1e19 * Math.random())` is replaced by an integer parameter `k`.
- `sampling.dfy` (module `Sampling`): the `airCount` map as a class `Sampler`.
  `Offer` is one pass of the rejection loop: it rejects a candidate, or accepts
  it and increments its count. `DisplayStep` draws a candidate and offers it.
  The output line `"<Name> molecule #<count>"` is also here.
- `atmosphere.dfy`, `decimal.dfy`, `arith.dfy`, `wrappers.dfy`: the nine
  molecule keys, their order and names; the decimal rendering of a BigInt;
  one multiplication fact (monotonicity); `Option`/`Result`.

Line 31 writes `BigInt(10^22)`. In JavaScript `^` is bitwise XOR, so this is 28
and the volume is 3024 litres. The comment describes 1.08 * 10^24 litres, but
the model computes what the code computes: 3024 litres.

The walk is specified for any integer weights. It returns the first key `i`
whose running sum `w[0] + … + w[i]` exceeds the draw, and it throws when no
such key exists. The lemmas hold for non-negative weights, which are the only
weights the script passes. Under that condition they prove three things. The
chosen key's cumulative interval contains the draw. A key of weight 0 is never
chosen. The walk throws exactly when the draw reaches the total, which for a
positive total means exactly when `k >= 10^19`.

## Model

| member | source | states |
|---|---|---|
| `WeightedPick.WeightedRandom` | script.js:61-80 | On success, returns the key at the first index whose running sum of weights (in key order) exceeds the scaled draw. Throws "No random number found." exactly when no running sum exceeds it. |
| `WeightedPick.TruncDiv` | script.js:72 | BigInt division truncates toward zero. For `a >= 0` the quotient is non-negative with `q*d <= a < q*d + d`. For `a < 0` it is non-positive with `q*d - d < a <= q*d`. |
| `WeightedPick.ScaledDraw` | script.js:72 | For a non-negative total and `k >= 0`, the draw is non-negative. For `k <= 10^19` it is at most the total. For a positive total, it is below the total if and only if `k < 10^19`. |
| `WeightedPick.PrefixMonotone` | script.js:69-70 | With non-negative weights, the partial sums of the weights never decrease. |
| `WeightedPick.SelectedInterval` | script.js:73-77 | For a non-negative draw, the chosen index `i` satisfies `w[0]+…+w[i-1] <= draw < w[0]+…+w[i]`. |
| `WeightedPick.ZeroWeightNeverSelected` | script.js:73-77 | A key of weight 0 is never returned for a non-negative draw. |
| `WeightedPick.SelectionUnique` | script.js:73-78 | At most one index satisfies the walk's selection condition, so the result is determined. |
| `WeightedPick.NoneSelectedIffExhausted` | script.js:73-79 | With non-negative weights and a non-negative draw, the walk runs past every key (and throws) if and only if the draw is at least the total. |
| `WeightedPick.SomeSelected` | script.js:73-78 | With non-negative weights, every draw in `[0, total)` selects some index. |
| `WeightedPick.ThrowsIffDrawOutOfRange` | script.js:68-79 | With non-negative weights and a positive total, the walk throws if and only if `k >= 10^19`. With total 0 it always throws. |
| `Composition.AtmosphericVolume` | script.js:31 | `BigInt(108) * BigInt(10^22)` is 3024, because `^` is XOR. |
| `Composition.AtmosphericMole` | script.js:33 | `BigInt(22.4 * 10) * volume / 10n` is the truncation of the product: `10n <= product < 10n + 10`. |
| `Composition.MoleConversionOverflows` | script.js:30-33 | As written, 224 and 3024 give 67737 moles. That is more than the 3024 litres can hold at 22.4 L per mole. |
| `Composition.IntendedMole` | script.js:30-33 | The corrected conversion `10 * volume / 224` gives the largest `n` with `n * 22.4 <= volume`. |
| `Composition.Moles` | script.js:36 | `atmosphericMole * num / 10^21` truncates: the result is the largest `n` with `n * 10^21 <= atmosphericMole * num`. |
| `Composition.MolesBounded` | script.js:36 | A numerator of at most `10^21` gives at most `atmosphericMole` moles. |
| `Composition.MolesMonotone` | script.js:36 | A larger numerator never gives fewer moles. |
| `Composition.Molecules` | script.js:46 | The population `avogadro * moles` is 0 exactly when either factor is 0. It is at least the mole count when `avogadro >= 1`. |
| `Composition.PopulationMonotone` | script.js:36-46 | The population `avogadro * moles` never decreases as the numerator grows. For a numerator of at most `10^21` it is at most `avogadro * atmosphericMole`. |
| `Composition.BuildMoleComposition` | script.js:34-37 | The filled table has an entry for every molecule, equal to that molecule's truncated mole count. An entry is at most `atmosphericMole` when its fraction is at most one. |
| `Composition.BuildMoleculeComposition` | script.js:44-47 | The filled table has an entry for every molecule, equal to `avogadro` times its moles. An entry is 0 exactly when `avogadro` or the moles are 0. |
| `Atmosphere.OrderEnumerates` | script.js:3-13 | The key order lists each of the nine molecules exactly once. |
| `Atmosphere.ReadableName` | script.js:49-59 | Each readable name is non-empty and uses only letters and spaces, so it contains no `#`. |
| `Atmosphere.NamesDistinct` | script.js:49-59 | The readable names are pairwise distinct. |
| `Sampling.KeyOrder` | script.js:68 | For any table keyed by all nine molecules, `Order` lists every key exactly once. `Order` is also the insertion order of `moleculeComposition`, since the `forEach` loops at lines 35 and 45 follow the `airComposition` literal, so it is the list `Object.keys` returns. The builders iterate `Order` to match. |
| `Decimal.DecimalString` | script.js:96 | A count renders as a non-empty string of digits with no leading zero. |
| `Decimal.DecimalRoundTrip` | script.js:96 | Reading the rendered digits back gives the count. |
| `Decimal.DecimalInjective` | script.js:96 | Distinct counts render differently. |
| `Sampling.MoleculeText` | script.js:96 | The line is the readable name, then " molecule #", then digits that read back as the count. |
| `Sampling.HashPosition` | script.js:96 | An output line has exactly one `#`, right after the name and " molecule ". |
| `Sampling.TextDetermines` | script.js:96 | An output line determines both its molecule and its ordinal. |
| `Sampling.Sampler.constructor` | script.js:17-27 | Every molecule starts with count 0 and has a population. The invariant `0 <= count <= population` holds. |
| `Sampling.Sampler.Offer` | script.js:89-96 | If the candidate's count equals its population, it is rejected and nothing changes. Otherwise only its count grows, by exactly 1, and the text is `name + " molecule #" + newCount`. The invariant is kept. |
| `Sampling.Sampler.DisplayStep` | script.js:88-96 | Draws the candidate from the full populations in key order, as `WeightedRandom` specifies. A draw that throws leaves `airCount` unchanged. Otherwise it behaves as `Offer` on the candidate. The invariant is kept. |

## Findings

| source | as written | input that shows it | evidently intended | confidence | as-written member | corrected member |
|---|---|---|---|---|---|---|
| script.js:33 | `BigInt(volumeToMole * 10) * atmosphericVolume / 10n` multiplies litres by litres-per-mole, though line 30 says 22.4 L make one mole | factor 224 with volume 3024 gives 67737 moles, which would fill 67737 * 22.4 L, far more than 3024 L | divide the volume by 22.4: `10n * atmosphericVolume / 224n`, which gives 135 | high; not executed | `Composition.MoleConversionOverflows` | `Composition.IntendedMole` |

`Moles`, the two table builders and the sampler all take `atmosphericMole` or
the populations as inputs. Their contracts therefore hold for the corrected
value as well as the written one.

## Left out

- The DOM (`getElementById`, `createElement`, `appendChild`, lines 82-97) is browser output. `Offer` returns the text instead.
- The `setTimeout` rescheduling and the retry while `outputDiv` is null (lines 84-86, 98, 101) are host scheduling with no integer logic.
- `DisplayStep` models a throwing draw as leaving `airCount` unchanged. In the script the throw at line 79 also escapes `displayMolecule`, so the `setTimeout` at line 98 never runs and output stops for good. The model does not capture that end of the loop.
- `Math.random()` and `Math.floor(1e19 * random)` (lines 71-72) are float randomness. Their integer result is the parameter `k`, with no range assumed. The lemmas say what happens below and at `10^19`.
- The float literals of `airComposition` (lines 4-12) and the conversions `BigInt(22.4 * 10)`, `BigInt(1e21 * fraction)` and `BigInt(602214076000000000000000)` (lines 33, 36, 39) are not modelled, because they involve IEEE-754 rounding. The model takes their integer results as inputs. In JavaScript, `BigInt` of a non-integer float throws. `BigInt` of the Avogadro literal converts the nearest double, which is not that literal exactly.
- The `while (limitReached)` retry (lines 90-93) is not modelled as a loop. The model has one pass of it (`Offer`, `DisplayStep`). If every molecule is at its cap, the script keeps drawing and never reports exhaustion. The model does not claim such a report.
