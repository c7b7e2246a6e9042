/**
 * The box recommender (server/src/services/recommendation.ts): every active
 * catalog box, smallest first, that passes the weight check and into which
 * the packer fits the whole order yields one result; the results are ranked
 * by utilization, highest first.
 */
module Recommendation {
  import opened Types
  import opened ArrayMethods
  import opened Packing

  /** `boxes.filter((b) => b.is_active)`. */
  function FilterActive(boxes: seq<Box>): (r: seq<Box>)
    ensures |r| <= |boxes|
  {
    if boxes == [] then []
    else (if boxes[0].isActive then [boxes[0]] else []) + FilterActive(boxes[1..])
  }

  /** The active boxes sorted by ascending volume (the sort is stable). */
  function ActiveBoxes(boxes: seq<Box>): seq<Box> {
    SortBy(FilterActive(boxes), BoxVolume)
  }

  /** The weight check: a positive limit strictly below the total weight
      rejects the box; a limit of 0 means no limit. */
  predicate OverWeight(box: Box, totalWeight: real) {
    box.weightLimit > 0.0 && totalWeight > box.weightLimit
  }

  /** The packer the recommender calls for each box: tryPack on the order
      with the box's outer dimensions and the padding. */
  function PackerFor(products: seq<Product>, padding: real): Box -> PackResult {
    (b: Box) => Pack(products, BoxDims(b), padding, Tolerance)
  }

  /** The box passes the weight check and the packer's outcome fits. */
  predicate Accepted(box: Box, pack: Box -> PackResult, totalWeight: real) {
    !OverWeight(box, totalWeight) && pack(box).fits
  }

  /** The utilization quotient for the box is defined: the box is rejected, or
      its outer volume is nonzero. */
  predicate Measurable(box: Box, pack: Box -> PackResult, totalWeight: real) {
    Accepted(box, pack, totalWeight) ==> BoxVolume(box) != 0.0
  }

  predicate ScanDefined(boxes: seq<Box>, pack: Box -> PackResult, totalWeight: real) {
    forall b :: b in boxes ==> Measurable(b, pack, totalWeight)
  }

  /** One pass of the loop over the active boxes: the result the box adds to
      the list, if any, given the packer's outcome `pack(box)` for it. */
  function ResultFor(box: Box, pack: Box -> PackResult, totalWeight: real, totalVolume: real): Option<RecommendResult>
    requires Measurable(box, pack, totalWeight)
  {
    if OverWeight(box, totalWeight) then None
    else
      var packResult := pack(box);
      if packResult.fits then
        Some(RecommendResult(box, packResult.totalVolume / BoxVolume(box), totalVolume, BoxVolume(box), true, packResult.placed))
      else None
  }

  /** The results the loop collects from `boxes`, in scan order. */
  function ScanBoxes(boxes: seq<Box>, pack: Box -> PackResult, totalWeight: real, totalVolume: real): (r: seq<RecommendResult>)
    requires ScanDefined(boxes, pack, totalWeight)
    ensures |r| <= |boxes|
  {
    if boxes == [] then []
    else
      assert boxes[0] in boxes;
      (match ResultFor(boxes[0], pack, totalWeight, totalVolume)
       case Some(res) => [res]
       case None => [])
      + ScanBoxes(boxes[1..], pack, totalWeight, totalVolume)
  }

  function NegUtilization(r: RecommendResult): real {
    -r.utilization
  }

  function ResultBox(r: RecommendResult): Box {
    r.box
  }

  function ResultBoxVolume(r: RecommendResult): real {
    r.boxVolume
  }

  /** An active catalog box that the order is accepted into has nonzero outer
      volume. */
  ghost predicate CatalogDefined(products: seq<Product>, boxes: seq<Box>, padding: real) {
    forall b :: b in boxes && b.isActive && Accepts(products, b, padding) ==> BoxVolume(b) != 0.0
  }

  /** What the recommender needs so that every utilization it records is a
      quotient by a nonzero volume. With non-negative padding this always
      holds (PaddingDefines): the packer rejects a box with a zero extent. */
  ghost predicate UtilizationDefined(products: seq<Product>, boxes: seq<Box>, padding: real) {
    padding >= 0.0 || CatalogDefined(products, boxes, padding)
  }

  /** The results the loop of recommendBoxes collects, before ranking. */
  function RecommendScan(products: seq<Product>, boxes: seq<Box>, padding: real): (r: seq<RecommendResult>)
    requires UtilizationDefined(products, boxes, padding)
    ensures |r| <= |FilterActive(boxes)|
  {
    ActiveBoxesDefined(products, boxes, padding);
    ScanBoxes(ActiveBoxes(boxes), PackerFor(products, padding), CalculateTotalWeight(products), CalculateTotalVolume(products))
  }

  /** recommendBoxes: the collected results sorted by descending utilization. */
  function Recommend(products: seq<Product>, boxes: seq<Box>, padding: real): seq<RecommendResult>
    requires UtilizationDefined(products, boxes, padding)
  {
    SortBy(RecommendScan(products, boxes, padding), NegUtilization)
  }

  /** The same for the order itself: the box passes the weight check and
      tryPack fits every unit into it. */
  predicate Accepts(products: seq<Product>, box: Box, padding: real) {
    !OverWeight(box, CalculateTotalWeight(products)) && Pack(products, BoxDims(box), padding, Tolerance).fits
  }

  /** The fields of the result recorded for `box` from the packer's outcome. */
  ghost predicate ResultFields(box: Box, pack: Box -> PackResult, totalVolume: real, r: RecommendResult) {
    && BoxVolume(box) != 0.0
    && r.box == box
    && r.fits
    && pack(box).fits
    && r.boxVolume == BoxVolume(box)
    && r.totalProductVolume == totalVolume
    && r.arrangement == pack(box).placed
    && r.utilization == pack(box).totalVolume / BoxVolume(box)
  }

  /** The fields of the result recorded for `box`, in terms of the order. */
  ghost predicate ResultMeaning(products: seq<Product>, box: Box, padding: real, r: RecommendResult) {
    && BoxVolume(box) != 0.0
    && r.box == box
    && r.fits
    && r.boxVolume == BoxVolume(box)
    && r.totalProductVolume == CalculateTotalVolume(products)
    && r.arrangement == Pack(products, BoxDims(box), padding, Tolerance).placed
    && r.utilization == Pack(products, BoxDims(box), padding, Tolerance).totalVolume / BoxVolume(box)
    && r.utilization == CalculateTotalVolume(products) / BoxVolume(box)
    && |r.arrangement| == TotalQuantity(products)
    && SumBy(r.arrangement, PlacedVolume) == r.totalProductVolume
    && (box.weightLimit <= 0.0 || CalculateTotalWeight(products) <= box.weightLimit)
  }

  // ---------------------------------------------------------------------------
  // The active boxes (recommendation.ts:17-23)

  lemma {:induction false} FilterActiveCount(boxes: seq<Box>, b: Box)
    ensures multiset(FilterActive(boxes))[b] == if b.isActive then multiset(boxes)[b] else 0
  {
    if boxes != [] {
      assert boxes == [boxes[0]] + boxes[1..];
      FilterActiveCount(boxes[1..], b);
    }
  }

  /** Each active box occurs in the scan list as often as in the catalog, and
      no inactive box occurs; the list is in ascending volume order. */
  lemma ActiveBoxesFacts(boxes: seq<Box>)
    ensures forall b :: multiset(ActiveBoxes(boxes))[b] == if b.isActive then multiset(boxes)[b] else 0
    ensures forall b :: b in ActiveBoxes(boxes) <==> b in boxes && b.isActive
    ensures SortedBy(ActiveBoxes(boxes), BoxVolume)
    ensures |ActiveBoxes(boxes)| <= |boxes|
  {
    SortByMultiset(FilterActive(boxes), BoxVolume);
    SortBySorted(FilterActive(boxes), BoxVolume);
    forall b ensures multiset(ActiveBoxes(boxes))[b] == if b.isActive then multiset(boxes)[b] else 0 {
      FilterActiveCount(boxes, b);
    }
    forall b ensures b in ActiveBoxes(boxes) <==> b in boxes && b.isActive {
      FilterActiveCount(boxes, b);
      assert b in ActiveBoxes(boxes) <==> b in multiset(ActiveBoxes(boxes));
    }
  }

  /** With non-negative padding a box the order is accepted into has positive
      extents, because a zero or negative extent leaves no usable interior and
      tryPack then fails. */
  lemma AcceptedHasVolume(products: seq<Product>, box: Box, padding: real)
    requires padding >= 0.0
    requires Accepts(products, box, padding)
    ensures BoxVolume(box) > 0.0
  {
    PackShape(products, BoxDims(box), padding, Tolerance);
    assert HasUsableInterior(BoxDims(box), padding);
    MulPositive(box.length, box.width, box.height);
  }

  lemma PaddingDefines(products: seq<Product>, boxes: seq<Box>, padding: real)
    requires padding >= 0.0
    ensures CatalogDefined(products, boxes, padding)
  {
    forall b | b in boxes && b.isActive && Accepts(products, b, padding) ensures BoxVolume(b) != 0.0 {
      AcceptedHasVolume(products, b, padding);
    }
  }

  /** The recommender's scan list meets what ScanBoxes needs. */
  lemma ActiveBoxesDefined(products: seq<Product>, boxes: seq<Box>, padding: real)
    requires UtilizationDefined(products, boxes, padding)
    ensures ScanDefined(ActiveBoxes(boxes), PackerFor(products, padding), CalculateTotalWeight(products))
  {
    ActiveBoxesFacts(boxes);
    if padding >= 0.0 {
      PaddingDefines(products, boxes, padding);
    }
    forall b | b in ActiveBoxes(boxes) ensures Measurable(b, PackerFor(products, padding), CalculateTotalWeight(products)) {
      assert PackerFor(products, padding)(b) == Pack(products, BoxDims(b), padding, Tolerance);
    }
  }

  // ---------------------------------------------------------------------------
  // One box (recommendation.ts:29-45)

  /** A box yields a result exactly when it passes the weight check and the
      packer's outcome fits; the result then carries the box, `fits`, the
      outer box volume, the order's volume, the packer's arrangement, and the
      packed volume over the outer box volume as utilization. */
  lemma ResultForSpec(box: Box, pack: Box -> PackResult, totalWeight: real, totalVolume: real)
    requires Measurable(box, pack, totalWeight)
    ensures ResultFor(box, pack, totalWeight, totalVolume).Some? <==> Accepted(box, pack, totalWeight)
    ensures ResultFor(box, pack, totalWeight, totalVolume).Some? ==>
              ResultFields(box, pack, totalVolume, ResultFor(box, pack, totalWeight, totalVolume).value)
  {
  }

  /** For the recommender's own packer, a result also carries what tryPack
      promises on success: every unit placed, and the packed volume equal to
      the order's volume. */
  lemma ResultMeaningFromFields(products: seq<Product>, box: Box, padding: real, r: RecommendResult)
    requires ResultFields(box, PackerFor(products, padding), CalculateTotalVolume(products), r)
    requires !OverWeight(box, CalculateTotalWeight(products))
    ensures Accepts(products, box, padding)
    ensures ResultMeaning(products, box, padding, r)
  {
    assert PackerFor(products, padding)(box) == Pack(products, BoxDims(box), padding, Tolerance);
    PackShape(products, BoxDims(box), padding, Tolerance);
    PackVolume(products, BoxDims(box), padding, Tolerance);
  }

  // ---------------------------------------------------------------------------
  // The scan (recommendation.ts:25-47)

  lemma ScanBoxesStep(boxes: seq<Box>, i: nat, pack: Box -> PackResult, totalWeight: real, totalVolume: real)
    requires i < |boxes| && ScanDefined(boxes, pack, totalWeight)
    ensures ScanDefined(boxes[i..], pack, totalWeight) && ScanDefined(boxes[i + 1..], pack, totalWeight)
    ensures ResultFor(boxes[i], pack, totalWeight, totalVolume).None? ==>
              ScanBoxes(boxes[i..], pack, totalWeight, totalVolume) == ScanBoxes(boxes[i + 1..], pack, totalWeight, totalVolume)
    ensures ResultFor(boxes[i], pack, totalWeight, totalVolume).Some? ==>
              ScanBoxes(boxes[i..], pack, totalWeight, totalVolume)
              == [ResultFor(boxes[i], pack, totalWeight, totalVolume).value] + ScanBoxes(boxes[i + 1..], pack, totalWeight, totalVolume)
  {
    assert boxes[i..][0] == boxes[i] && boxes[i..][1..] == boxes[i + 1..];
    assert forall b :: b in boxes[i..] ==> b in boxes;
  }

  /** Every collected result is the one its box yields, for a box of the list. */
  lemma {:induction false} ScanBoxesMembers(boxes: seq<Box>, pack: Box -> PackResult, totalWeight: real, totalVolume: real)
    requires ScanDefined(boxes, pack, totalWeight)
    ensures forall r :: r in ScanBoxes(boxes, pack, totalWeight, totalVolume) ==>
              r.box in boxes && ResultFor(r.box, pack, totalWeight, totalVolume) == Some(r)
  {
    if boxes != [] {
      ScanBoxesStep(boxes, 0, pack, totalWeight, totalVolume);
      assert boxes[0..] == boxes;
      ScanBoxesMembers(boxes[1..], pack, totalWeight, totalVolume);
      assert forall b :: b in boxes[1..] ==> b in boxes;
    }
  }

  /** A box contributes one result per occurrence in the list if it is
      accepted, and none otherwise. */
  lemma {:induction false} ScanBoxesCount(boxes: seq<Box>, pack: Box -> PackResult, totalWeight: real, totalVolume: real, b: Box)
    requires ScanDefined(boxes, pack, totalWeight)
    ensures CountBy(ScanBoxes(boxes, pack, totalWeight, totalVolume), ResultBox, b)
         == if Accepted(b, pack, totalWeight) then multiset(boxes)[b] else 0
  {
    if boxes != [] {
      assert boxes[0] in boxes;
      assert boxes == [boxes[0]] + boxes[1..];
      assert forall x :: x in boxes[1..] ==> x in boxes;
      ScanBoxesCount(boxes[1..], pack, totalWeight, totalVolume, b);
      ScanHeadCount(boxes[0], pack, totalWeight, totalVolume, b, ScanBoxes(boxes[1..], pack, totalWeight, totalVolume),
                    ScanBoxes(boxes, pack, totalWeight, totalVolume));
    }
  }

  lemma ScanHeadCount(x: Box, pack: Box -> PackResult, totalWeight: real, totalVolume: real, b: Box,
                      rest: seq<RecommendResult>, s: seq<RecommendResult>)
    requires Measurable(x, pack, totalWeight)
    requires s == (match ResultFor(x, pack, totalWeight, totalVolume) case Some(res) => [res] case None => []) + rest
    ensures CountBy(s, ResultBox, b) == (if x == b && Accepted(b, pack, totalWeight) then 1 else 0) + CountBy(rest, ResultBox, b)
  {
    var head := ResultFor(x, pack, totalWeight, totalVolume);
    if head.Some? {
      CountByConcat([head.value], rest, ResultBox, b);
      assert [head.value][1..] == [];
    } else {
      assert s == rest;
    }
  }

  /** The scan keeps the order of the list, so an ascending-volume list gives
      results in ascending box volume. */
  lemma {:induction false} ScanBoxesSorted(boxes: seq<Box>, pack: Box -> PackResult, totalWeight: real, totalVolume: real)
    requires ScanDefined(boxes, pack, totalWeight)
    requires SortedBy(boxes, BoxVolume)
    ensures SortedBy(ScanBoxes(boxes, pack, totalWeight, totalVolume), ResultBoxVolume)
  {
    if boxes != [] {
      ScanBoxesStep(boxes, 0, pack, totalWeight, totalVolume);
      assert boxes[0..] == boxes;
      var rest := ScanBoxes(boxes[1..], pack, totalWeight, totalVolume);
      ScanBoxesSorted(boxes[1..], pack, totalWeight, totalVolume);
      var head := ResultFor(boxes[0], pack, totalWeight, totalVolume);
      if head.Some? {
        ScanBoxesMembers(boxes[1..], pack, totalWeight, totalVolume);
        forall x | x in rest ensures ResultBoxVolume(head.value) <= ResultBoxVolume(x) {
          var m :| 0 <= m < |boxes[1..]| && boxes[1..][m] == x.box;
          assert boxes[m + 1] == x.box;
        }
        SortedByPrepend(head.value, rest, ResultBoxVolume);
      }
    }
  }

  // ---------------------------------------------------------------------------
  // recommendBoxes (recommendation.ts:8-53)

  /** Every result comes from an active catalog box that passes the weight
      check and fits, and records that box as ResultMeaning says. */
  lemma RecommendResults(products: seq<Product>, boxes: seq<Box>, padding: real)
    requires UtilizationDefined(products, boxes, padding)
    ensures forall r :: r in Recommend(products, boxes, padding) ==>
              && r.box in boxes && r.box.isActive && BoxVolume(r.box) != 0.0
              && Accepts(products, r.box, padding)
              && ResultMeaning(products, r.box, padding, r)
  {
    var pack, tw, tv := PackerFor(products, padding), CalculateTotalWeight(products), CalculateTotalVolume(products);
    var active := ActiveBoxes(boxes);
    ActiveBoxesFacts(boxes);
    ActiveBoxesDefined(products, boxes, padding);
    var scan := ScanBoxes(active, pack, tw, tv);
    assert scan == RecommendScan(products, boxes, padding);
    SortByMultiset(scan, NegUtilization);
    ScanBoxesMembers(active, pack, tw, tv);
    forall r | r in Recommend(products, boxes, padding)
      ensures && r.box in boxes && r.box.isActive && BoxVolume(r.box) != 0.0
              && Accepts(products, r.box, padding)
              && ResultMeaning(products, r.box, padding, r)
    {
      assert r in multiset(scan);
      ResultForSpec(r.box, pack, tw, tv);
      ResultMeaningFromFields(products, r.box, padding, r);
    }
  }

  /** A box yields exactly one result per catalog occurrence when it is
      active and accepted, and none otherwise. */
  lemma RecommendCount(products: seq<Product>, boxes: seq<Box>, padding: real, b: Box)
    requires UtilizationDefined(products, boxes, padding)
    ensures CountBy(Recommend(products, boxes, padding), ResultBox, b)
         == if b.isActive && Accepts(products, b, padding) then multiset(boxes)[b] else 0
  {
    var pack := PackerFor(products, padding);
    var active := ActiveBoxes(boxes);
    ActiveBoxesFacts(boxes);
    ActiveBoxesDefined(products, boxes, padding);
    var scan := ScanBoxes(active, pack, CalculateTotalWeight(products), CalculateTotalVolume(products));
    assert scan == RecommendScan(products, boxes, padding);
    CountBySortBy(scan, NegUtilization, ResultBox, b);
    ScanBoxesCount(active, pack, CalculateTotalWeight(products), CalculateTotalVolume(products), b);
    assert pack(b) == Pack(products, BoxDims(b), padding, Tolerance);
  }

  /** There are at most as many results as active boxes. */
  lemma RecommendSize(products: seq<Product>, boxes: seq<Box>, padding: real)
    requires UtilizationDefined(products, boxes, padding)
    ensures |Recommend(products, boxes, padding)| <= |FilterActive(boxes)| <= |boxes|
  {
  }

  /** The results are in non-increasing utilization; equal utilizations are in
      ascending box volume, and otherwise keep the scan order. */
  lemma RecommendRanked(products: seq<Product>, boxes: seq<Box>, padding: real)
    requires UtilizationDefined(products, boxes, padding)
    ensures forall i, j :: 0 <= i < j < |Recommend(products, boxes, padding)| ==>
              RankedPair(Recommend(products, boxes, padding)[i], Recommend(products, boxes, padding)[j])
    ensures forall k :: KeyClass(Recommend(products, boxes, padding), NegUtilization, k)
                     == KeyClass(RecommendScan(products, boxes, padding), NegUtilization, k)
  {
    var active := ActiveBoxes(boxes);
    ActiveBoxesFacts(boxes);
    ActiveBoxesDefined(products, boxes, padding);
    var scan := RecommendScan(products, boxes, padding);
    ScanBoxesSorted(active, PackerFor(products, padding), CalculateTotalWeight(products), CalculateTotalVolume(products));
    SortByThenBy(scan, NegUtilization, ResultBoxVolume);
    forall k ensures KeyClass(SortBy(scan, NegUtilization), NegUtilization, k) == KeyClass(scan, NegUtilization, k) {
      SortByStable(scan, NegUtilization, k);
    }
  }

  /** The ranking between two results at positions i < j. */
  predicate RankedPair(ri: RecommendResult, rj: RecommendResult) {
    ri.utilization > rj.utilization || (ri.utilization == rj.utilization && ri.boxVolume <= rj.boxVolume)
  }

  /** The list is empty exactly when no active catalog box is accepted; in
      particular for an empty catalog. */
  lemma RecommendEmpty(products: seq<Product>, boxes: seq<Box>, padding: real)
    requires UtilizationDefined(products, boxes, padding)
    ensures Recommend(products, boxes, padding) == [] <==>
              forall b :: b in boxes && b.isActive ==> !Accepts(products, b, padding)
  {
    RecommendResults(products, boxes, padding);
    if Recommend(products, boxes, padding) == [] {
      forall b | b in boxes && b.isActive ensures !Accepts(products, b, padding) {
        RecommendCount(products, boxes, padding, b);
      }
    } else {
      assert Recommend(products, boxes, padding)[0] in Recommend(products, boxes, padding);
    }
  }

  lemma {:induction false} TotalVolumePositive(products: seq<Product>)
    requires products != []
    requires forall p :: p in products ==> ValidProduct(p)
    ensures CalculateTotalVolume(products) > 0.0
  {
    var p := products[0];
    assert p in products;
    MulPositive(p.length, p.width, p.height);
    assert (p.quantity as real) >= 1.0;
    LineVolumePositive(p);
    if products[1..] != [] {
      assert forall q :: q in products[1..] ==> q in products;
      TotalVolumePositive(products[1..]);
    } else {
      assert CalculateTotalVolume(products[1..]) == 0.0;
    }
  }

  lemma LineVolumePositive(p: Product)
    requires ValidProduct(p)
    ensures LineVolume(p) > 0.0
  {
    var v := p.length * p.width * p.height;
    MulPositive(p.length, p.width, p.height);
    assert LineVolume(p) == v * (p.quantity as real);
  }

  /** With non-negative padding and a valid non-empty order, every result has
      positive utilization. */
  lemma RecommendUtilizationPositive(products: seq<Product>, boxes: seq<Box>, padding: real)
    requires padding >= 0.0
    requires products != [] && forall p :: p in products ==> ValidProduct(p)
    ensures forall r :: r in Recommend(products, boxes, padding) ==> r.utilization > 0.0
  {
    RecommendResults(products, boxes, padding);
    TotalVolumePositive(products);
    forall r | r in Recommend(products, boxes, padding) ensures r.utilization > 0.0 {
      UtilizationPositiveFor(products, r.box, padding, r);
    }
  }

  lemma UtilizationPositiveFor(products: seq<Product>, box: Box, padding: real, r: RecommendResult)
    requires padding >= 0.0
    requires CalculateTotalVolume(products) > 0.0
    requires ResultMeaning(products, box, padding, r)
    ensures r.utilization > 0.0
  {
    PackShape(products, BoxDims(box), padding, Tolerance);
    assert HasUsableInterior(BoxDims(box), padding);
    MulPositive(box.length, box.width, box.height);
    QuotientPositive(CalculateTotalVolume(products), BoxVolume(box));
  }

  lemma QuotientPositive(a: real, b: real)
    requires a > 0.0 && b > 0.0
    ensures a / b > 0.0
  {
  }

  /** The utilization can exceed 1: with no padding, a 10.0005 cube is
      accepted by a 10 x 10 x 10 box because of the fitting tolerance. */
  lemma UtilizationCanExceedOne()
    ensures ResultFor(Box("b", "b", 10.0, 10.0, 10.0, 0.0, 0.0, true, "", ""),
                      PackerFor([Product("cube", 10.0005, 10.0005, 10.0005, 1.0, 1)], 0.0), 1.0,
                      CalculateTotalVolume([Product("cube", 10.0005, 10.0005, 10.0005, 1.0, 1)])).Some?
    ensures ResultFor(Box("b", "b", 10.0, 10.0, 10.0, 0.0, 0.0, true, "", ""),
                      PackerFor([Product("cube", 10.0005, 10.0005, 10.0005, 1.0, 1)], 0.0), 1.0,
                      CalculateTotalVolume([Product("cube", 10.0005, 10.0005, 10.0005, 1.0, 1)])).value.utilization > 1.0
  {
    ToleranceAdmitsOverfill();
    var products := [Product("cube", 10.0005, 10.0005, 10.0005, 1.0, 1)];
    var box := Box("b", "b", 10.0, 10.0, 10.0, 0.0, 0.0, true, "", "");
    assert BoxDims(box) == Dims(10.0, 10.0, 10.0);
    assert BoxVolume(box) == 1000.0;
    assert PackerFor(products, 0.0)(box) == Pack(products, Dims(10.0, 10.0, 10.0), 0.0, Tolerance);
  }

  // ---------------------------------------------------------------------------
  // The imperative form

  /** One pass of the loop for a box that passes the weight check, given
      tryPack's outcome for it. */
  lemma RecommendStep(products: seq<Product>, box: Box, padding: real, totalWeight: real, totalVolume: real,
                      packResult: PackResult)
    requires Measurable(box, PackerFor(products, padding), totalWeight)
    requires !OverWeight(box, totalWeight)
    requires packResult == Pack(products, BoxDims(box), padding, Tolerance)
    ensures packResult.fits ==> BoxVolume(box) != 0.0
    ensures ResultFor(box, PackerFor(products, padding), totalWeight, totalVolume)
         == if packResult.fits
            then Some(RecommendResult(box, packResult.totalVolume / BoxVolume(box), totalVolume, BoxVolume(box), true, packResult.placed))
            else None
  {
    assert PackerFor(products, padding)(box) == packResult;
  }

  method RecommendBoxes(products: seq<Product>, boxes: seq<Box>, padding: real) returns (results: seq<RecommendResult>)
    requires UtilizationDefined(products, boxes, padding)
    ensures results == Recommend(products, boxes, padding)
  {
    ghost var pack := PackerFor(products, padding);
    var totalWeight := CalculateTotalWeight(products);
    var totalVolume := CalculateTotalVolume(products);
    var activeBoxes := SortBy(FilterActive(boxes), BoxVolume);
    ActiveBoxesDefined(products, boxes, padding);
    results := [];
    for i := 0 to |activeBoxes|
      invariant ScanDefined(activeBoxes[i..], pack, totalWeight)
      invariant results + ScanBoxes(activeBoxes[i..], pack, totalWeight, totalVolume)
             == ScanBoxes(activeBoxes, pack, totalWeight, totalVolume)
    {
      var box := activeBoxes[i];
      ScanBoxesStep(activeBoxes, i, pack, totalWeight, totalVolume);
      assert activeBoxes[i..][0] == box;
      if box.weightLimit > 0.0 && totalWeight > box.weightLimit {
        continue;
      }
      var boxVolume := BoxVolume(box);
      var packResult := TryPack(products, BoxDims(box), padding);
      RecommendStep(products, box, padding, totalWeight, totalVolume, packResult);
      if packResult.fits {
        var utilization := packResult.totalVolume / boxVolume;
        results := results + [RecommendResult(box, utilization, totalVolume, boxVolume, true, packResult.placed)];
      }
    }
    assert activeBoxes[|activeBoxes|..] == [];
    assert activeBoxes == ActiveBoxes(boxes);
    assert results == RecommendScan(products, boxes, padding);
    results := SortBy(results, NegUtilization);
  }
}
