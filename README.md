# Box packing and box recommendation

A model of the packing engine of a shipping-box recommender and of the
recommender built on top of it.

**The packer** (`tryPack`) decides whether an order fits into one box. An
order is a list of product lines, each with a quantity. The packer works in
these steps:

- It shrinks the box by the padding on both sides of every axis. If any
  interior extent is not positive, it fails at once.
- It expands every line into single units.
- It sorts the units by descending volume. The sort is stable.
- It places the units one at a time, largest first:
  - It scans every (free space, orientation) pair. There are up to six
    distinct orientations, and a pair fits with a tolerance of 0.001.
  - It takes the fitting pair of least wasted volume. An earlier pair wins a
    tie.
  - It records the placement at the space's origin, shifted by the padding.
  - It replaces the used space by its right, front and top residuals.
  - It re-sorts the free-space list by ascending volume.
- It stops with `fits = false` at the first unit that fits nowhere, keeping
  the placements made so far.

**The recommender** (`recommendBoxes`):

- It keeps the active catalog boxes and sorts them by ascending volume.
- It skips a box whose positive weight limit is below the order's total
  weight.
- It runs the packer on every other box.
- For each box that fits, it records one result. The utilization is the
  packed volume over the box's outer volume.
- It ranks the results by descending utilization. The sort is stable.

The Dafny files:

- `types.dfy` holds the shared records.
- `array_methods.dfy` holds the stable key sort, the splice and the
  counting and summing facts about them.
- `packing.dfy` holds the packer.
- `recommendation.dfy` holds the recommender.
- `separation.dfy` holds the proof that placements do not overlap when the
  fit tolerance is 0, and an order whose placements do overlap with the
  source's tolerance of 0.001.

Each loop of the source is a method: `GetOrientations`, `ExpandProducts`,
`FindBestFit`, `TryPack` and `RecommendBoxes`. Each method is proved equal
to a specification function, and the properties are lemmas about those
functions. The specification functions take the fit tolerance as a
parameter; the methods use 0.001, as the source does.

Utilization divides the packed volume by the box's outer volume
(recommendation.ts lines 33 and 37), although the packer filled only the
interior left after the padding. The model keeps that quotient.

## Model

| member | source | states |
|---|---|---|
| Packing.OrientationsFacts | server/src/services/packing.ts:21-39 | between 1 and 6 orientations; the first is the input triple; each is one of the six permutations and holds the same three extents; no two are equal; every permutation is present |
| Packing.DedupFromFacts | server/src/services/packing.ts:23-36 | de-duplication keeps exactly the candidates not yet seen, with no repeats, and never grows the list |
| Packing.GetOrientations | server/src/services/packing.ts:21-39 | the loop with its seen-set returns exactly `Orientations(d)`, so every property of OrientationsFacts holds for it |
| Packing.CandidateFacts | server/src/services/packing.ts:26-30 | every candidate triple is a permutation of the dimensions, has the same volume and is positive when they are |
| Packing.FitsInSpaceMeaning | server/src/services/packing.ts:44-50 | with no tolerance, fitting means the item at the space's origin lies inside the space; a non-negative tolerance only admits more |
| Packing.SplitSpace | server/src/services/packing.ts:55-98 | at most three residual spaces |
| Packing.SplitSpaceGeometry | server/src/services/packing.ts:55-98 | for an item no larger than the space, every kept residual is a non-empty cuboid inside the space that does not meet the item; the kept residuals are pairwise disjoint |
| Packing.SplitPartsGeometry | server/src/services/packing.ts:59-95 | the right, front and top parts lie inside the space, miss the item and miss each other |
| Packing.SplitSpaceVolume | server/src/services/packing.ts:55-98 | item volume plus kept residual volume is at most the space's volume, with equality when the tolerance is 0 |
| Packing.PartsVolume | server/src/services/packing.ts:59-95 | the item and the three parts add up exactly to the space's volume, and every part has non-negative volume |
| Packing.ExpandAt | server/src/services/packing.ts:103-115 | unit k of line i sits at position (units of earlier lines) + k; it has the line's dimensions and weight; its name is "name (k+1/N)" when N > 1 and the plain name when N = 1 |
| Packing.ExpandIndex | server/src/services/packing.ts:105-112 | the unit at that position is exactly the k-th unit of line i |
| Packing.ExpandLength | server/src/services/packing.ts:103-115 | the expansion has as many units as the quantities add up to |
| Packing.ExpandAppend | server/src/services/packing.ts:105-113 | the expansion of two lists of lines is the concatenation of their expansions, so lines keep their order |
| Packing.ExpandProducts | server/src/services/packing.ts:103-115 | the nested loop returns the expansion, in line order, with Σ quantity units |
| Packing.ExpandVolume | server/src/services/packing.ts:209-213 | the units' volumes add up to calculateTotalVolume of the order |
| Packing.ExpandWeight | server/src/services/packing.ts:218-220 | the units' weights add up to calculateTotalWeight of the order |
| Packing.UnitsVolume | server/src/services/packing.ts:211 | the units of one line add up to its unit volume times its quantity |
| Packing.UnitsWeight | server/src/services/packing.ts:219 | the units of one line weigh its unit weight times its quantity |
| Packing.ExpandPositive | server/src/services/packing.ts:109 | units of positive-dimension lines have positive dimensions |
| Packing.BestFitOfIsBest | server/src/services/packing.ts:155-170 | the scan finds nothing exactly when no (space, orientation) pair fits; otherwise the pair fits, has least waste among all fitting pairs, and no earlier fitting pair (space first, then orientation) wastes as little |
| Packing.ScanSpacesBest | server/src/services/packing.ts:158-170 | the outer loop over spaces keeps the best-so-far invariant |
| Packing.ScanOrientationsBest | server/src/services/packing.ts:160-169 | the inner loop over orientations keeps the best-so-far invariant |
| Packing.ConsiderBest | server/src/services/packing.ts:161-167 | one comparison with a strict `<` keeps the best-so-far invariant |
| Packing.FindBestFit | server/src/services/packing.ts:155-170 | the nested loops return `None` exactly when nothing fits, and otherwise the best fit as BestFitOfIsBest describes |
| Packing.NextFreeSpacesFacts | server/src/services/packing.ts:192-200 | after a placement the free spaces are ascending by volume; they are the old ones, minus the used one, plus its residuals; their volume changes by the same amounts |
| Packing.SortedUnitsOrder | server/src/services/packing.ts:138-143 | the packing order is a permutation of the units, in non-increasing volume; units of equal volume keep their relative order |
| Packing.PackShape | server/src/services/packing.ts:127-135 | when a padded extent is not positive, the result is `fits = false`, nothing placed, volume 0; otherwise `fits` holds exactly when every unit was placed; never more placements than units |
| Packing.PlaceAllShape | server/src/services/packing.ts:153-174 | from any state the loop only appends to the placements, at most one per remaining unit, and reports `fits` exactly when it placed them all |
| Packing.PackUnits | server/src/services/packing.ts:179-187 | the k-th placement records the k-th unit in packing order: its name, extents that are a permutation of its dimensions, and its volume |
| Packing.PlaceAtRecordsUnit | server/src/services/packing.ts:179-187 | a placement in one of the unit's orientations carries the unit's name, a permutation of its extents and its volume |
| Packing.PlaceAllVolume | server/src/services/packing.ts:189 | the running total stays the sum of the placed volumes |
| Packing.PackVolume | server/src/services/packing.ts:189-203 | `totalVolume` is the sum of the placed volumes; when `fits` holds it equals calculateTotalVolume of the order |
| Packing.PlaceAllExact | server/src/services/packing.ts:153-201 | with no tolerance every placement stays inside the padded interior and the packed volume never exceeds the interior's |
| Packing.ExactStep | server/src/services/packing.ts:176-200 | with no tolerance one placement lies in the padded interior and keeps the free spaces non-empty, inside the interior, and within the unused volume |
| Packing.PackExactWithinBox | shared/types.ts:43 | with no tolerance and non-negative padding, every placement lies in the padded interior; packed volume ≤ interior volume ≤ box volume; a fitting order has a ratio to the box volume of at most 1 |
| Packing.ToleranceAdmitsOverfill | server/src/services/packing.ts:44-50 | with the 0.001 tolerance and no padding, a 10.0005 cube fits a 10 × 10 × 10 box, packing more volume than the box holds |
| Packing.TryPack | server/src/services/packing.ts:121-204 | the imperative packer returns exactly `Pack`, so every property of PackShape, PackUnits and PackVolume holds for it |
| Separation.SeparatedStep | server/src/services/packing.ts:176-200 | with no tolerance, placing a positive unit at the origin of a free space it fits keeps the loop invariant: no free space listed twice, distinct free spaces disjoint, every free space clear of every placed unit, placed units pairwise apart |
| Separation.NextDisjoint | server/src/services/packing.ts:192-200 | after the splice, distinct free spaces are still disjoint |
| Separation.NextClear | server/src/services/packing.ts:186-200 | after the splice, every free space misses every placed unit, the new one included |
| Separation.NextApart | server/src/services/packing.ts:179-187 | a unit placed inside a free space is apart from every unit placed before |
| Separation.PlaceAllSeparated | server/src/services/packing.ts:153-201 | with no tolerance, from a state meeting the invariant, the loop's placements are pairwise apart |
| Separation.PackPlacementsApart | server/src/services/packing.ts:121-204 | with no tolerance, no two placements of tryPack overlap, for any padding |
| Separation.TolerancePermitsOverlap | server/src/services/packing.ts:44-50 | with the 0.001 tolerance and no padding, tryPack fits units of 1 × 1 × 0.99, 1.0005 × 0.99 × 0.99 and 0.5 × 1.5 × 0.5 into a 2 × 2 × 0.99 box, and the second and third placements overlap |
| ArrayMethods.SortByMultiset | server/src/services/packing.ts:139-143 | the key sort returns a permutation of its input |
| ArrayMethods.SortBySorted | server/src/services/packing.ts:196-200 | the key sort returns a list in non-decreasing key order |
| ArrayMethods.SortByStable | server/src/services/recommendation.ts:50 | elements of equal key keep their relative order |
| ArrayMethods.SortByThenBy | server/src/services/recommendation.ts:50 | a stable sort of a list ordered by a second key leaves equal-key elements ordered by that second key |
| ArrayMethods.SumBySortBy | server/src/services/packing.ts:196-200 | sorting does not change a sum over the list |
| ArrayMethods.CountBySortBy | server/src/services/recommendation.ts:50 | sorting does not change how many elements have a given attribute |
| Recommendation.FilterActive | server/src/services/recommendation.ts:17-18 | the filter never grows the catalog |
| Recommendation.ActiveBoxesFacts | server/src/services/recommendation.ts:17-23 | each active box occurs as often as in the catalog and no inactive box occurs; the list is in ascending volume |
| Recommendation.AcceptedHasVolume | server/src/services/packing.ts:127-135 | with non-negative padding, a box the order is accepted into has positive outer volume, because a zero extent leaves no usable interior |
| Recommendation.PaddingDefines | server/src/services/recommendation.ts:33-37 | with non-negative padding, every accepted active box has nonzero volume, so every recorded utilization is a defined quotient |
| Recommendation.ResultMeaningFromFields | server/src/services/recommendation.ts:33-45 | a result also has one placement per unit, arrangement volume equal to the order's volume, and utilization equal to the order's volume over the outer volume |
| Recommendation.ScanBoxes | server/src/services/recommendation.ts:25-47 | the loop collects at most one result per box |
| Recommendation.ScanBoxesMembers | server/src/services/recommendation.ts:27-47 | every collected result belongs to a box of the list and is the one that box yields |
| Recommendation.ScanBoxesCount | server/src/services/recommendation.ts:27-47 | an accepted box contributes one result per occurrence, any other box none |
| Recommendation.ScanBoxesSorted | server/src/services/recommendation.ts:27-47 | an ascending-volume list gives results in ascending box volume |
| Recommendation.RecommendScan | server/src/services/recommendation.ts:13-47 | at most one collected result per active box |
| Recommendation.RecommendResults | server/src/services/recommendation.ts:17-45 | every result comes from an active catalog box that passes the weight check and fits, and records it as ResultMeaningFromFields says |
| Recommendation.RecommendCount | server/src/services/recommendation.ts:17-47 | a box appears once per catalog occurrence when it is active and accepted, and never otherwise |
| Recommendation.RecommendSize | server/src/services/recommendation.ts:17-47 | there are at most as many results as active boxes |
| Recommendation.RecommendRanked | server/src/services/recommendation.ts:19-50 | results are in non-increasing utilization; equal utilizations are in ascending box volume, and otherwise keep scan order |
| Recommendation.RecommendEmpty | server/src/services/recommendation.ts:25-52 | the list is empty exactly when no active catalog box is accepted, in particular for an empty catalog |
| Recommendation.RecommendUtilizationPositive | shared/types.ts:43 | with non-negative padding and a valid non-empty order, every utilization is positive |
| Recommendation.TotalVolumePositive | server/src/services/packing.ts:209-213 | a non-empty order of valid products has positive total volume |
| Recommendation.UtilizationCanExceedOne | shared/types.ts:43 | with no padding, a box of 10 × 10 × 10 accepts a 10.0005 cube and records a utilization above 1 |
| Recommendation.RecommendBoxes | server/src/services/recommendation.ts:8-53 | the imperative recommender returns exactly `Recommend`, so every Recommend lemma above holds for it |

## Left out

- The client pages, the store, the HTTP routes, the database and the
  analytics service. They are user interface, request handling and storage.
- The request handler's checks: a non-empty order, positive dimensions and
  quantity at least 1. They appear as the `ValidProduct` precondition of the
  lemmas that need them.
- IEEE-754 arithmetic. Dimensions, weights and volumes are exact reals, so
  the model has no rounding error.
  - Exact reals also make the left-to-right `reduce` sums of
    calculateTotalVolume and calculateTotalWeight equal to the model's
    right-nested sums.
- The string key `${a}-${b}-${c}` that de-duplicates orientations. It is
  equality of the three numbers, which is what the key decides for exact
  values.
- Sorting and splicing in place. `items.sort`, `freeSpaces.splice`,
  `freeSpaces.sort` and `results.sort` reassign a sequence to the sorted or
  spliced value. The comparator sorts are modelled as a stable insertion sort
  on the comparator's key.
- PackPlacementsApart: non-overlap is proved only for tolerance 0.
  - With the source's tolerance of 0.001 it is false.
  - TolerancePermitsOverlap shows an order whose placements overlap.
- PackExactWithinBox: the bound on utilization (at most 1, as the type's
  comment on its utilization field says) is proved only with tolerance 0 and
  non-negative padding.
  - With the source's tolerance of 0.001 it is false.
  - ToleranceAdmitsOverfill and UtilizationCanExceedOne show an order that
    breaks it.
- RecommendUtilizationPositive: positivity is proved for non-negative
  padding; the padding is not validated by the core.
- Recommendation.RecommendBoxes requires `UtilizationDefined`: the padding
  is non-negative, or every accepted active box has nonzero volume.
  - This excludes only negative padding together with an accepted box of a
    zero extent. There the source divides by a zero volume and records
    Infinity or NaN, which exact reals cannot express.
  - With non-negative padding the packer rejects such a box (PaddingDefines).
  - Recommend, RecommendScan and the Recommend lemmas carry the same
    precondition.
- `Fit.orientIdx` is not in the source's best-fit record. The model adds it
  to state which orientation of the scanned list was chosen.
- Quantities are natural numbers, so a fractional or negative quantity
  cannot be expressed.
- The default padding of 2 is not modelled; the padding is always an
  argument.
- A placement's coordinates are the chosen space's origin plus the padding,
  and that holds by the definition of `PlaceAt`. No lemma restates it.
  - TryPack returns exactly `Pack`, whose placements come from `PlaceAt` of
    the chosen space.
  - PackExactWithinBox bounds the coordinates inside the padded interior when
    the tolerance is 0.
