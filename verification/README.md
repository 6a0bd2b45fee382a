# Op-amp gain and offset resistor search, modelled in Dafny

`OpAmp.py` chooses four resistors for a non-inverting op-amp stage with an offset
divider. The stage should map an input range [Vil, Vih] onto an output range
[Vol, Voh]. The script works in five steps:

- It derives the target line Vout = m·Vin + b from the two ranges.
- It expands a short list of stock resistor values into a pool. The pool holds
  every value, plus the series and parallel combination of every pair of values.
- For every ordered pair (R1, Rf) of pool values, R1 in the outer loop, it solves
  the design equations for the ideal R2 and Rg. It skips the pair when either of
  them is negative. Otherwise it rounds both to the nearest pool value.
- It simulates the output for a sampled sine input and scores it by the sum of
  squared errors against the desired sine.
- Every candidate strictly cheaper than the current best replaces it, so the first
  candidate of least cost is the one that stays. The best so far starts at cost 100.

The Dafny modules follow those steps:

| module | contents |
|---|---|
| `Transfer` | the target line `Affine(m, b)`, `Derive`, and the sampled waveforms `Wave` |
| `ResistorPool` | the pool (`Pairs`, `Block`, `PoolUpTo`, `Pool`), the loop that builds it (`BuildPool`), and its length, layout and closure |
| `Nearest` | `closest`: the first list element of least distance |
| `Network` | a resistor quadruple, its gain and offset, the output waveform and the cost |
| `Ideal` | the two design equations, the sign filter, and the proof that exact ideal values realise the target line |
| `Search` | one candidate per pair (`Evaluate`), the table of candidates, the best-so-far fold (`Scan`), the loops (`ScorePair`, `SearchRow`, `RunSearch`), their outcome, and the whole script (`Design`) |

The search loops are imperative methods, proved equal to the fold `SearchSpec`.
Everything proved about the outcome is stated as lemmas about that fold:
- the cost bound;
- the first least-cost pair is the one kept;
- nothing changes when no pair beats 100;
- the kept R2 and Rg are the nearest values;
- cost 0 when an exact design exists;
- nothing is kept below unit gain (m ≤ 1, including inverted ranges) with a
  positive reference.

## Model

| member | source | states |
|---|---|---|
| Transfer.Derive | OpAmp.py:27-28 | the derived line sends Vil to Vol and Vih to Voh |
| Transfer.DeriveUnique | OpAmp.py:27-28 | any affine map sending Vil to Vol and Vih to Voh is the derived one |
| Transfer.Wave | OpAmp.py:55-57 | a waveform has one sample per sine sample |
| Transfer.WaveWithinRange | OpAmp.py:55-57 | a sine sample in [-1, 1] gives a waveform sample inside [lo, hi] |
| Transfer.DesiredIsTargetOfInput | OpAmp.py:26-57 | the desired waveform of line 57 is, sample by sample, the target line of lines 27-28 applied to the input waveform of line 55 |
| ResistorPool.Parallel | OpAmp.py:47 | definition: the integer part of a·b/(a+b) for positive a and b |
| ResistorPool.ParallelFloor | OpAmp.py:47 | the parallel value p is the integer part of a·b/(a+b): p·(a+b) ≤ a·b < (p+1)·(a+b) |
| ResistorPool.ParallelSymmetric | OpAmp.py:47 | the parallel value does not depend on the order of the two resistors |
| ResistorPool.ParallelIsTruncatedReciprocalSum | OpAmp.py:47 | the parallel value is the integer part of 1/(1/a + 1/b) |
| ResistorPool.ParallelAtLeastOne | OpAmp.py:47 | two resistors of at least 2 ohms give a parallel value of at least 1 |
| ResistorPool.ParallelOfOnesIsZero | OpAmp.py:47 | two 1-ohm resistors give the parallel value 0 |
| ResistorPool.Pairs | OpAmp.py:44-49 | the pairs of base[i] with base[i..hi) hold two values per partner |
| ResistorPool.Block | OpAmp.py:40-49 | definition: the values one outer iteration appends, base[i] followed by its pairs |
| ResistorPool.PoolUpTo | OpAmp.py:39-49 | definition: the list after the first k outer iterations, each appending its block |
| ResistorPool.Pool | OpAmp.py:38-49 | definition: `resList` after all outer iterations |
| ResistorPool.BuildPool | OpAmp.py:38-49 | the nested append loop builds exactly the pool: base[i], then the series and the parallel value with each base[j], j ≥ i |
| ResistorPool.BlockStartClosedForm | OpAmp.py:39-49 | block i of the pool starts at offset i·(2n-i+2) |
| ResistorPool.PoolUpToLength | OpAmp.py:39-49 | the first k blocks take up BlockStart(n, k) entries |
| ResistorPool.PoolLength | OpAmp.py:38-49 | a base list of n values gives a pool of n·(n+2) values |
| ResistorPool.PoolUpToPrefix | OpAmp.py:39-49 | the pool after k outer iterations is a prefix of the pool after l ≥ k iterations |
| ResistorPool.PairsAt | OpAmp.py:44-49 | in the pairs of i, entry 2(j-i) is base[i]+base[j] and the next entry is their parallel value |
| ResistorPool.BlockAtEnd | OpAmp.py:39-49 | after outer iteration i, base[i] sits at BlockStart(n, i), and for each j ≥ i the series value base[i]+base[j] sits at SeriesIndex = BlockStart(n, i)+1+2(j-i) with the parallel value right after it |
| ResistorPool.BlockEntryUpTo | OpAmp.py:39-49 | entry k of block i stays at BlockStart(n, i)+k while the later outer iterations append their blocks |
| ResistorPool.PoolShape | OpAmp.py:38-49 | the final pool has base[i] at BlockStart(n, i), and for each j ≥ i the series value base[i]+base[j] at SeriesIndex = BlockStart(n, i)+1+2(j-i) and the parallel value Parallel(base[i], base[j]) right after it |
| ResistorPool.PoolContains | OpAmp.py:38-49 | every base value, every pairwise series value and every pairwise parallel value is in the pool |
| ResistorPool.PairsFromBase | OpAmp.py:44-49 | for a value among the pairs of base[i] with base[i..hi), returns j with i ≤ j < hi such that the value is base[i]+base[j] or Parallel(base[i], base[j]) |
| ResistorPool.BlockFromBase | OpAmp.py:40-49 | for a value appended by outer iteration i, returns j with i ≤ j < n such that the value is base[i], base[i]+base[j] or Parallel(base[i], base[j]) |
| ResistorPool.PoolUpToFromBase | OpAmp.py:39-49 | for entry m of the first k blocks, returns (i, j) with i ≤ j < n such that the entry is base[i], base[i]+base[j] or Parallel(base[i], base[j]) |
| ResistorPool.PoolOnlyFromBase | OpAmp.py:38-49 | every pool value is a base value, a series value or a parallel value of base values |
| ResistorPool.PoolPositive | OpAmp.py:38-49 | with every base value at least 2 ohms, every pool value is at least 1 ohm |
| ResistorPool.OneGivesZero | OpAmp.py:47 | a 1-ohm base value puts 0 into the pool |
| Nearest.Dist | OpAmp.py:15 | the distance is non-negative and is 0 exactly when the value hits the target |
| Nearest.ClosestIndex | OpAmp.py:14-15 | the index is the first one whose element is nearest to the target |
| Nearest.Closest | OpAmp.py:14-15 | the result is a list element, and no list element is nearer to the target |
| Nearest.FirstNearestUnique | OpAmp.py:14-15 | only one index is the first nearest one, so the tie-break is determined |
| Nearest.ClosestOfMember | OpAmp.py:14-15 | a target that is itself a list value is returned unchanged |
| Network.OutputSample | OpAmp.py:82 | definition: one output sample, by the script's formula with R1∥R2 written out |
| Network.OutputSampleIsAffine | OpAmp.py:82 | one output sample equals gain·Vin + offset |
| Network.Output | OpAmp.py:82 | the output waveform has one sample per input sample, each equal to gain·Vin + offset |
| Network.PositiveNetwork | OpAmp.py:82 | with positive resistors no division by zero occurs, the gain exceeds 1, and a positive reference gives a negative offset |
| Network.Square | OpAmp.py:83 | a squared error is non-negative, and 0 for a zero error |
| Network.Cost | OpAmp.py:83 | the cost is non-negative, and 0 when the output equals the desired waveform |
| Network.SquarePositive | OpAmp.py:83 | a non-zero error has a positive square |
| Network.CostPositive | OpAmp.py:83 | two different waveforms of the same length have a positive cost |
| Network.CostZero | OpAmp.py:83 | the cost is 0 exactly when the output equals the desired waveform |
| Ideal.R2Denominator | OpAmp.py:70 | definition: the denominator (m-1)·Vref + b of `R2Temp` |
| Ideal.RgDenominator | OpAmp.py:74 | definition: the denominator (m-1)·Vref of `RgTemp` |
| Ideal.IdealR2 | OpAmp.py:70 | definition: `R2Temp` = -b·R1 / ((m-1)·Vref + b) |
| Ideal.IdealRg | OpAmp.py:74 | definition: `RgTemp` = (b·R1 + Vref·Rf) / ((m-1)·Vref) |
| Ideal.RgDenominatorNonZero | OpAmp.py:70-76 | once the ideal R2 for a positive R1 has passed the sign check, the Rg equation cannot divide by zero |
| Ideal.IdealPair | OpAmp.py:70-76 | a pair yields ideal values exactly when the ideal R2 and the ideal Rg are both non-negative, and then yields them |
| Ideal.NoIdealPairBelowUnitGain | OpAmp.py:70-76 | with m ≤ 1, a positive reference and positive R1 and Rf, the pair is always skipped: for b < 0 the ideal R2 is negative; otherwise, once the ideal R2 is non-negative, the Rg denominator (m-1)·Vref is non-zero and hence negative, so the ideal Rg is negative |
| Ideal.IdealNetwork | OpAmp.py:70-74 | definition: the network of R1, Rf and the unrounded ideal R2 and Rg |
| Ideal.IdealSum | OpAmp.py:70 | for the ideal R2, (R1+R2)·((m-1)Vref+b) = R1·(m-1)Vref, so R1+R2 is not zero |
| Ideal.IdealParallel | OpAmp.py:70 | for the ideal R2, (R1∥R2)·(m-1)Vref = -b·R1 |
| Ideal.ParallelFromEquations | OpAmp.py:70-82 | whenever (R1+R2)·D = R1·E and R2·D = -b·R1, the divider's R1∥R2 satisfies (R1∥R2)·E = -b·R1 |
| Ideal.IdealLoad | OpAmp.py:74 | for the ideal R2 and Rg, (Rg + R1∥R2)·(m-1)Vref = Vref·Rf, so the output is defined |
| Ideal.IdealGain | OpAmp.py:70-82 | the network with the ideal R2 and Rg has gain m |
| Ideal.IdealEquations | OpAmp.py:70-82 | the ideal network is defined and satisfies (R1+R2)·D = R1·E, (Rg+R1∥R2)·E = Vref·Rf and R2·D = -b·R1, with D = (m-1)·Vref + b and E = (m-1)·Vref |
| Ideal.OffsetFromEquations | OpAmp.py:82 | any defined network satisfying those three relations has offset b |
| Ideal.IdealOffset | OpAmp.py:70-82 | the network with the ideal R2 and Rg has offset b |
| Ideal.IdealRealisesTarget | OpAmp.py:70-82 | the design equations realise the target line exactly: the output is defined, the gain is m and the offset is b |
| Search.Initial | OpAmp.py:61-65 | definition: costMin = 100, the four resistors 0, no output yet |
| Search.Record | OpAmp.py:84-90 | definition: the best-so-far variables after keeping a candidate |
| Search.Response | OpAmp.py:82 | definition: the output waveform of a network of positive resistors |
| Search.Evaluate | OpAmp.py:69-83 | a pair gives a candidate exactly when it passes both sign checks; R2 and Rg are then the nearest pool values to the ideal ones, the output is that network's response, and the cost is its squared error (never negative) |
| Search.Candidates | OpAmp.py:67-83 | definition: the R1-major table, entry (a, b) = Evaluate(pool[a], pool[b]) |
| Search.Consider | OpAmp.py:84-90 | a candidate replaces the best so far exactly when it is strictly cheaper, and the cost never rises |
| Search.Step | OpAmp.py:69-90 | definition: one inner iteration; a skipped pair leaves the state alone, otherwise the candidate is considered |
| Search.Scan | OpAmp.py:67-90 | definition: the best-so-far state once every pair before position (i, j) in R1-major order has been visited, starting from the initial state |
| Search.SearchSpec | OpAmp.py:61-90 | definition: the state after both loops over the pool's table |
| Search.ScorePair | OpAmp.py:69-83 | the loop body up to the comparison (skips, nearest values, output, cost) computes the table entry of its pair |
| Search.SearchRow | OpAmp.py:68-90 | the inner loop over Rf turns the state before row i into the state after row i |
| Search.RunSearch | OpAmp.py:61-90 | the two loops, started from cost 100, resistors 0 and no output, end in the state the fold over all pairs in R1-major order describes |
| Search.ScanLowerBound | OpAmp.py:61-90 | at every point of the loops, costMin is at most 100 and at most every candidate visited so far |
| Search.ScanKept | OpAmp.py:61-90 | at every point of the loops, costMin is at most 100 and at most every visited candidate; the state is the initial one when no visited candidate beats 100, and otherwise the record of a visited candidate under 100 that every earlier visited candidate costs strictly more than, so with the bound it is the first visited candidate of least cost |
| Search.ScanMonotone | OpAmp.py:84-85 | costMin never increases as the loops proceed |
| Search.ScanResult | OpAmp.py:61-90 | after the loops, costMin bounds every candidate, nothing is kept exactly when no candidate beats 100, and otherwise the first cheapest one is kept |
| Search.SearchLowerBound | OpAmp.py:61-90 | the final costMin is at most 100 and at most the cost of the candidate of every pair of pool values |
| Search.SearchResult | OpAmp.py:61-90 | final outcome over the pool's table: the lower bound; nothing kept iff no candidate beats 100, and then every variable keeps its initial value; otherwise the kept values are those of the first least-cost pair in R1-major order, and every earlier pair costs strictly more |
| Search.KeptIsNearest | OpAmp.py:79-90 | when something is kept, R1Fin and RfFin are pool values that passed both sign checks; R2Fin and RgFin are the pool values nearest to their ideal R2 and Rg; VoutFin and costMin are that network's output and cost |
| Search.NoSolutionBelowUnitGain | OpAmp.py:61-90 | with m ≤ 1 (inverted ranges included), a positive reference and (m-1)·Vref + b ≠ 0 for a non-empty pool, the search ends in its initial state: cost 100, resistors 0, no output, and no exception |
| Search.ScanFindsZero | OpAmp.py:83-90 | with no negative cost in the table, an entry of cost 0 makes the final cost 0 and something is kept |
| Search.CandidatesNonNegative | OpAmp.py:83 | every candidate in the table has a non-negative cost |
| Search.ExactCandidate | OpAmp.py:70-83 | when the desired waveform is the target line of the input and the ideal R2 and Rg of a pair are pool values, that pair's output is the desired waveform and its cost is 0 |
| Search.OutputOfExactNetwork | OpAmp.py:82-83 | a network with gain m and offset b reproduces the desired waveform exactly |
| Search.ExactDesignFound | OpAmp.py:61-90 | when an exact design exists in the pool, the search ends with cost 0 and a kept output |
| Search.Design | OpAmp.py:27-90 | the whole script: the pool is all positive, and the result is the search outcome for the derived line, the two sampled waveforms and the pool of the base list |

## Left out

- Plotting and printing (`print` of the four resistors, the three `plt` plots) are not modelled.
- The variance block after the plots and `maxVar` are not modelled. They are commented out or unused in the script.
- The commented-out E24 list is not modelled. The base list is a parameter of `Search.Design`.
- The module-level constants (Voh, Vol, Vih, Vil, Vref, the base list) are parameters, not fixed values.
- `np.linspace` and `np.sin` are not modelled. The samples of sin(2·π·t) are a parameter (`sine`).
- Floating point is not modelled. Voltages, ideal resistances, outputs and costs are exact reals. A float rounding that makes a cost comparison or a nearest-value choice come out differently is not captured.
- The parallel value is the exact integer part of a·b/(a+b). A float quotient that lands just below an integer would truncate one lower in the script; the model does not capture that.
- Division by zero (Python's `ZeroDivisionError`) is a precondition, not an error outcome. This covers Vih = Vil, (m-1)·Vref + b = 0 with a non-empty pool, and a base value below 2. A base value of 1 puts 0 into the pool (`OneGivesZero`), and R1 = R2 = 0 then divides by zero.
- `Search.Ready`: pool values are required to be positive and base values at least 2. The script runs for some negative values as long as no division by zero occurs, but resistances are positive and the model does not follow it there.
- `VoutFin` is unbound in the script until a candidate is kept, and plotting it then raises `NameError`. The model keeps it as `Option` and `None`; the plot that fails is not modelled.
- `Search.SearchRow`, `Search.ScorePair`: the inner loop and its body up to the comparison are separate methods, and the loops visit indices rather than values. The best-so-far variables pass between the two loops as one `Best` value.
