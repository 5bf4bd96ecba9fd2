# Stigmergic ant trails: the ant–lattice interaction loop

This project models the core of a simulation of trail formation by ants.
Ants live on a 256×256 lattice of pheromone concentrations. Each step, an
ant deposits pheromone on its cell. It is removed if it has left the
interior, and otherwise senses six neighbouring cells. It then either
explores, guided only by a turning kernel, or follows the trail: straight
ahead, or by a weighted turn at a fork. The lattice caps deposits at a
saturation level and evaporates one unit from every positive cell. It keeps
the list of live ants and reports the ratio of trail-following to lost ants.

The model has four modules:

- `Motion` (motion.dfy) holds the pure primitives of an ant:
  - headings and the increment table;
  - `Rotate`, `Translate` and `OutsideBounds`;
  - the sensed cells;
  - the per-step decision `Decide` with the heading it produces, `NewHeading`;
  - the weights of a weighted turn.
- `Field` (field.dfy) holds the value arithmetic of one cell under deposits
  and evaporations, with closed forms for repeating them.
- `Lists` (lists.dfy) holds removal of the first occurrence of an element
  from a list, as `list.remove` does it.
- `Trail` (trail.dfy) holds the classes `Lattice` and `Ant`, whose fields the
  program updates in place:
  - the pheromone array is an `array2<int>` that `Deposit` and `Evap` change
    cell by cell;
  - the live ants are a `seq<Ant>` that `AddAnt` and `Kill` reassign;
  - `Ant.Move` changes the ant's position, heading and `lost` flag and
    mutates the shared lattice.

  Both classes are in one module because each ant refers back to its
  lattice.

The program draws random numbers at five places. Each draw becomes a
parameter:

- the ant's initial diagonal, as an index into `[45, 135, 225, 315]`;
- the uniform draw of the fidelity check, a real in [0, 1);
- the exploration turn count (0..4) and side (0 or 1);
- the index of a weighted turn (0..5). Whenever the weighted turn is
  reached, this index must be one the normalised weights can yield
  (`Motion.DrawableTurn`): all weights share a sign and the weight of this
  index is non-zero.

A lone ant on an empty lattice explores on its first step. Its new heading
is a diagonal only when the drawn turn count is even, so it does not always
land on a diagonal neighbour.

`Ant.Move` is proved against `Decide` and `NewHeading`. Its postcondition
states the whole new state in terms of them and the sensed vector. The
lemmas in `Motion` state what those functions guarantee.

## Model

| member | source | states |
|---|---|---|
| Motion.HeadingsAreMultiplesOf45 | ant.py:29-30 | the eight keys of the increment table are exactly the multiples of 45 in [0, 360) |
| Motion.DirMappingShape | ant.py:29-30 | the increment table has exactly eight entries, one per heading; each moves each coordinate by at most 1 and never leaves both unchanged |
| Motion.DirMappingInjective | ant.py:29-30 | no two headings share an increment |
| Motion.Rotate | ant.py:169-195 | for a heading and 0..4 turns, the result is a heading; a right turn gives r with r + 45·turn ≡ dir (mod 360), and a left turn gives r ≡ dir + 45·turn (mod 360) |
| Motion.RotateUndo | ant.py:183-193 | turning t steps to one side and then t steps to the other side restores the heading; this covers both orders |
| Motion.RotateDistance | ant.py:183-193 | a rotation by t steps changes the heading by exactly 45·t degrees, on either side |
| Motion.Translate | ant.py:148-166 | the result differs from the position by exactly the table increment of the heading: each coordinate changes by at most 1, and not both by 0 |
| Motion.TranslateBack | ant.py:148-166 | a step along a heading followed by a step along its 180-degree reverse returns to the start |
| Motion.TranslateInjective | ant.py:148-166 | different headings lead to different neighbouring cells |
| Motion.OutsideBounds | ant.py:198-210 | a position not outside the interior lies inside the array; within the array, the positions outside the interior are exactly those of its outermost ring (x or y equal to 0 or 255) |
| Motion.InteriorStepInGrid | ant.py:198-210 | from a position that is not outside the interior [1, 254]², one step along any heading stays inside the 256×256 array |
| Motion.SensedCell | ant.py:135-142 | every sensed cell differs from the ant's own cell, and lies inside the array when the ant is not outside the interior |
| Motion.SensedCellsLayout | ant.py:133-145 | entries 0 (right 0°) and 3 (left 0°) are both the cell straight ahead; the other four sensed cells are distinct from each other and from it |
| Motion.Sum | ant.py:52-55 | the total of the sensed vector is never negative when no concentration is |
| Motion.SumZeroIffAllZero | ant.py:52-55 | for non-negative concentrations, the sensed total is zero exactly when every sensed cell is zero |
| Motion.Decide | ant.py:52-94 | the ant follows the trail only if the fidelity check passed and something was sensed; it goes straight only if the cell ahead is positive. It makes the weighted turn with the drawn index exactly when something was sensed, the check passed, the cell ahead is not positive and the fork is asymmetric. It explores exactly when nothing was sensed, the check failed, or the cell ahead is not positive and the fork is symmetric |
| Motion.NewHeading | ant.py:86-94 | the heading after exploring, going straight or a weighted turn is always one of the eight headings |
| Motion.TurnWeights | ant.py:79 | the six turn weights give the two straight-ahead entries weight zero |
| Motion.WeightedTurnIsSharp | ant.py:79-94 | an index of non-zero weight is never 0 or 3, so a weighted turn changes the heading by exactly 45° or 90° |
| Motion.ForkHasPositiveWeight | ant.py:72-81 | take a non-negative field, an asymmetric fork, and positive 45° and 90° kernel entries; then some index has positive weight, so the normalisation is well defined |
| Motion.NonPositiveForkIsDrawable | ant.py:72-84 | take a field with no positive cell, an asymmetric fork, and positive 45° and 90° kernel entries; then some index can be drawn, since all weights are ≤ 0 and one is negative, so the normalised weights are a distribution |
| Motion.AheadIffTrailInFront | ant.py:62-69 | on a non-negative field the ant keeps straight on exactly when the fidelity check passes and the cell ahead is positive |
| Field.Deposited | lattice.py:48-49 | the deposited value is min(v + dep, sat): the sum while it is at most sat, and sat from there on; a cell in [0, sat] stays in [0, sat] and does not decrease when dep ≥ 0 |
| Field.Evaporated | lattice.py:56-57 | a positive value drops by exactly 1; a value ≤ 0 is unchanged; a non-negative value never becomes negative |
| Field.DepositTimesClosedForm | lattice.py:49 | starting at or below saturation, n deposits give v + n·dep while that is below sat, and exactly sat afterwards |
| Field.DepositsNeverExceed | lattice.py:49 | repeated deposits on a cell in [0, sat] keep it between its start value and sat |
| Field.DepositsReachSaturation | lattice.py:49 | with dep ≥ 1, sat − v deposits bring a cell from v exactly to sat |
| Field.SaturationIsStable | lattice.py:49 | a saturated cell stays exactly at sat under further deposits |
| Field.EvaporateTimesClosedForm | lattice.py:52-57 | without deposits, k evaporations take a non-negative v to max(v − k, 0) |
| Lists.Without | lattice.py:81 | removing an element that occurs removes exactly one occurrence (as a multiset), and the length drops by one; if the element does not occur, the list is unchanged |
| Lists.WithoutSplices | lattice.py:81 | removal splices out the first occurrence at its index, so the remaining elements keep their relative order |
| Lists.WithoutDistinct | lattice.py:81 | in a list without repetitions, after removal the element is gone, every other element is still present, and there are still no repetitions |
| Trail.Surround | ant.py:124-145 | the sensed vector has six entries, entry k being the concentration at sensed cell k; entries 0 and 3 are equal |
| Trail.LostCount | lattice.py:106 | the number of lost ants is at most the number of live ants |
| Trail.NoneLostIffAllFollow | lattice.py:106-112 | the lost count is 0 exactly when every live ant is following a trail, the case in which the strength is the number of live ants |
| Trail.LostCountAppend | lattice.py:60-70 | appending an ant adds one to the lost count exactly when that ant is lost |
| Trail.Lattice.constructor | lattice.py:20-35 | a new lattice is 256×256 with every cell 0, has no live ants, and keeps the given deposition rate, saturation, fidelity and kernel |
| Trail.Lattice.Deposit | lattice.py:42-49 | the cell at the position becomes min(old + dep, sat); every other cell is unchanged; all cells in [0, sat] is preserved when dep ≥ 0 |
| Trail.Lattice.Evap | lattice.py:52-57 | every positive cell drops by exactly 1 and every other cell is unchanged; all cells in [0, sat] is preserved |
| Trail.Lattice.AddAnt | lattice.py:60-70 | exactly one new ant is appended, at (127, 127), lost, with the drawn diagonal heading and the given id; the earlier ants and their order are unchanged; the lost count grows by one |
| Trail.Lattice.Kill | lattice.py:73-81 | the list becomes the old list without the first occurrence of the ant; the ant is no longer live and every other ant still is; `removed` is false exactly when the ant was not live, the case in which `list.remove` raises |
| Trail.Lattice.CalculateStrength | lattice.py:98-115 | with no lost ant, the result is the number of live ants; otherwise it is the number of following ants divided by the number of lost ants; it is never negative |
| Trail.Ant.constructor | ant.py:18-30 | a new ant is lost, has heading 45, 135, 225 or 315 (the drawn diagonal), stands at the given position, and shares the lattice's fidelity and kernel |
| Trail.Ant.Stay | ant.py:98-102 | with fidelity 0 the check always fails; with fidelity 1 it always passes (draws in [0, 1)) |
| Trail.Ant.ZeroFidelityAlwaysExplores | ant.py:57-60 | with fidelity 0, the decision is to explore whatever is sensed |
| Trail.Ant.Explore | ant.py:105-121 | the ant becomes lost and its heading is rotated by the drawn turn and side, a change of exactly 45·turn degrees; the returned cell is one step along the new heading; the ant's position is not changed |
| Trail.Ant.Sense | ant.py:124-145 | returns exactly the six sensed concentrations, in the order right 0°, 45°, 90°, then left 0°, 45°, 90° |
| Trail.Ant.Move | ant.py:33-95 | deposits at the current cell first and changes no other cell. Outside the interior, the ant is removed from the live list and its position and heading are unchanged. Inside, `lost` holds exactly when the decision was to explore; the heading is `NewHeading` of that decision; the ant steps once along it; a following ant keeps its heading or turns by 45° or 90°. The lattice invariant is preserved, and the [0, sat] bound is preserved when dep ≥ 0 |
| Trail.Ant.Advance | ant.py:52-95 | for an interior ant that has deposited, carries out `Decide` on the sensed vector. Afterwards `lost` holds exactly when the ant explored, the new heading is `NewHeading`, the ant moved one step along it, and it is still inside the array |

## Left out

- Plotting is not modelled: `Lattice.show` and the figure created in the `Lattice` constructor are display only.
- main.py is not part of this model. It is an earlier prototype with different rules, plus a driver loop that iterates over `active_ants` while `kill` removes from it.
- The probability distributions of the random draws are not modelled: which value is drawn, and how likely it is. The draws are parameters. The only constraint kept is that a weighted-turn index is one the normalised weights can yield (`Motion.DrawableTurn`).
- The normalisation of the turn weights by their sum is not modelled, because it is floating point. Weights are reals and are never divided.
- The fidelity draw is a real in [0, 1), compared with `<` as in the program; floating-point rounding is not modelled.
- Trail.Ant.Move and Trail.Ant.Advance: a weighted turn whose four weights p1·s[1], p2·s[2], p1·s[4] and p2·s[5] are all zero is not modelled. Here p1 and p2 are the kernel's 45° and 90° entries and s is the sensed vector. This can happen when only one of p1 and p2 is zero, for example with p1 = 0 and only s[1] positive. There the normalisation divides by zero and the draw fails. The precondition on `pick` cannot be met, so no call reaches that case.
- Trail.Ant.Move and Trail.Ant.Advance: a weighted turn whose weights have mixed signs is not modelled. The program's draw rejects the normalised vector, which then has a negative entry, and raises. Both methods require the weights to share a sign when the weighted turn is reached. A negative deposition rate or saturation keeps every cell ≤ 0, so all weights are ≤ 0; the division by their negative sum gives a distribution, and such turns are modelled. Mixed signs need a negative 45° or 90° kernel entry, and such a kernel already makes the first exploration raise.
- Trail.Ant.Explore: the kernel is not checked to be a probability distribution. The program's exploration draw raises for a kernel with a negative entry or whose entries do not sum to 1. The model rotates by whatever turn count is drawn.
- Trail.Ant.Move: requires the ant to be live, so no move of a removed ant is modelled. In the program, such an ant outside the interior raises in `kill`. An interior one moves without error, depositing on a lattice that no longer lists it. The driver moves only the ants in the live list, so neither case arises there.
- Trail.Lattice.Deposit: requires the position to be inside the array. The model does not cover NumPy's wrap-around of negative indices or the error raised for an index of 256. `Lattice.Valid` keeps every live ant inside the array, so `Move` never deposits outside it.
- Concentrations are integers, but the program's array holds 64-bit floats. With integer deposition and saturation, the values stay integers. Fractional deposits, and the negative values that evaporation would then produce, are not modelled.
- Trail.Lattice.CalculateStrength: returns a real in both branches. The source returns an integer when no ant is lost and a float otherwise.
- Motion.Rotate: requires 0..4 turns, the range its callers use. Counts above 4, which no caller draws, are not modelled.
- Trail.Lattice.constructor: requires a five-entry kernel. The program does not check this, but without one it fails at the first exploration. Every run reaches that at once, because the first ant's first step on an empty lattice explores. The weighted turn needs only three entries.
- Ant ids are stored but not checked for uniqueness, as in the program. The distinctness that `Lattice.Valid` keeps is identity of the ant objects.
- The increment table is per ant in the program; here it is the module constant `Motion.DirMapping`.
