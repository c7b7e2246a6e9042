/**
 * No two placements of the packer overlap when the fit tolerance is 0: the
 * free spaces of tryPack's loop (server/src/services/packing.ts:153-201) stay
 * pairwise disjoint and clear of every placed unit, and each unit is placed
 * inside a free space. With the source's tolerance of 0.001 a unit may
 * overhang its free space into a neighbouring one, and two placements can
 * overlap.
 */
module Separation {
  import opened Types
  import opened ArrayMethods
  import opened Packing

  /** The cuboid a placement occupies, in the coordinates of the free spaces
      (the padded interior's). */
  function Occupied(q: PlacedItem, padding: real): FreeSpace {
    FreeSpace(q.x - padding, q.y - padding, q.z - padding, q.length, q.width, q.height)
  }

  /** Two placements are separated along some axis: their interiors do not meet. */
  ghost predicate Apart(p: PlacedItem, q: PlacedItem) {
    || p.x + p.length <= q.x || q.x + q.length <= p.x
    || p.y + p.width <= q.y || q.y + q.width <= p.y
    || p.z + p.height <= q.z || q.z + q.height <= p.z
  }

  ghost predicate PlacementsApart(placed: seq<PlacedItem>) {
    forall i, j :: 0 <= i < j < |placed| ==> Apart(placed[i], placed[j])
  }

  /** The invariant of the loop: no free space is listed twice, distinct free
      spaces are disjoint, every free space misses every placed unit, and the
      placed units are pairwise apart. */
  ghost predicate Separated(free: seq<FreeSpace>, placed: seq<PlacedItem>, padding: real) {
    && (forall a :: multiset(free)[a] <= 1)
    && (forall a, b :: a in free && b in free && a != b ==> Disjoint(a, b))
    && (forall a, q :: a in free && q in placed ==> Disjoint(a, Occupied(q, padding)))
    && PlacementsApart(placed)
  }

  // ---------------------------------------------------------------------------
  // Cuboids

  /** A cuboid inside `s` misses whatever `s` misses. */
  lemma InsideDisjoint(a: FreeSpace, s: FreeSpace, b: FreeSpace)
    requires Inside(a, s) && Disjoint(s, b)
    ensures Disjoint(a, b) && Disjoint(b, a)
  {
  }

  /** A non-empty cuboid inside `s` meets `s`, and meets itself. */
  lemma InsideMeets(a: FreeSpace, s: FreeSpace)
    requires PositiveSpace(a) && Inside(a, s)
    ensures !Disjoint(a, s) && !Disjoint(a, a)
  {
  }

  lemma ApartOfOccupied(p: PlacedItem, q: PlacedItem, padding: real)
    requires Disjoint(Occupied(p, padding), Occupied(q, padding))
    ensures Apart(p, q)
  {
  }

  // ---------------------------------------------------------------------------
  // One placement (packing.ts:176-200)

  /** What placing `region` at the origin of the free space `s` leaves: `next`
      holds the other free spaces and the children `cs` of `s`, which are
      non-empty, inside `s`, clear of the region and pairwise disjoint. */
  ghost predicate SplitFacts(free: seq<FreeSpace>, s: FreeSpace, cs: seq<FreeSpace>, next: seq<FreeSpace>, region: FreeSpace) {
    && s in free
    && multiset(next) == multiset(free) - multiset{s} + multiset(cs)
    && Inside(region, s)
    && (forall c :: c in cs ==> PositiveSpace(c) && Inside(c, s) && Disjoint(c, region))
    && (forall i, j :: 0 <= i < j < |cs| ==> Disjoint(cs[i], cs[j]))
  }

  lemma NextMembers(free: seq<FreeSpace>, s: FreeSpace, cs: seq<FreeSpace>, next: seq<FreeSpace>, region: FreeSpace,
                    placed: seq<PlacedItem>, padding: real)
    requires SplitFacts(free, s, cs, next, region)
    requires Separated(free, placed, padding)
    ensures forall a :: a in next <==> (a in free && a != s) || a in cs
  {
    assert multiset(free)[s] <= 1;
    forall a ensures a in next <==> (a in free && a != s) || a in cs {
      assert a in next <==> a in multiset(next);
      assert a in free <==> a in multiset(free);
      assert a in cs <==> a in multiset(cs);
    }
  }

  lemma NextCounts(free: seq<FreeSpace>, s: FreeSpace, cs: seq<FreeSpace>, next: seq<FreeSpace>, region: FreeSpace,
                   placed: seq<PlacedItem>, padding: real)
    requires SplitFacts(free, s, cs, next, region)
    requires Separated(free, placed, padding)
    ensures forall a :: multiset(next)[a] <= 1
  {
    forall i, j | 0 <= i < j < |cs| ensures cs[i] != cs[j] {
      assert cs[i] in cs;
      InsideMeets(cs[i], s);
    }
    DistinctCount(cs);
    assert multiset(free)[s] <= 1;
    forall a ensures multiset(next)[a] <= 1 {
      if a in cs {
        InsideMeets(a, s);
        assert a != s ==> a !in free;
        assert (multiset(free) - multiset{s})[a] == 0;
      } else {
        assert multiset(cs)[a] == 0;
        assert multiset(free)[a] <= 1;
      }
    }
  }

  lemma NextDisjoint(free: seq<FreeSpace>, s: FreeSpace, cs: seq<FreeSpace>, next: seq<FreeSpace>, region: FreeSpace,
                     placed: seq<PlacedItem>, padding: real)
    requires SplitFacts(free, s, cs, next, region)
    requires Separated(free, placed, padding)
    ensures forall a, b :: a in next && b in next && a != b ==> Disjoint(a, b)
  {
    NextMembers(free, s, cs, next, region, placed, padding);
    forall a, b | a in next && b in next && a != b ensures Disjoint(a, b) {
      if a in cs && b in cs {
        var i :| 0 <= i < |cs| && cs[i] == a;
        var j :| 0 <= j < |cs| && cs[j] == b;
        if j < i {
          DisjointSymmetric(cs[j], cs[i]);
        }
      } else if a in cs {
        assert Disjoint(b, s);
        DisjointSymmetric(b, s);
        InsideDisjoint(a, s, b);
      } else if b in cs {
        assert Disjoint(a, s);
        DisjointSymmetric(a, s);
        InsideDisjoint(b, s, a);
      }
    }
  }

  lemma NextClear(free: seq<FreeSpace>, s: FreeSpace, cs: seq<FreeSpace>, next: seq<FreeSpace>, region: FreeSpace,
                  placed: seq<PlacedItem>, q: PlacedItem, padding: real)
    requires SplitFacts(free, s, cs, next, region)
    requires Separated(free, placed, padding)
    requires Occupied(q, padding) == region
    ensures forall a, p :: a in next && p in placed + [q] ==> Disjoint(a, Occupied(p, padding))
  {
    NextMembers(free, s, cs, next, region, placed, padding);
    forall a, p | a in next && p in placed + [q] ensures Disjoint(a, Occupied(p, padding)) {
      if p == q {
        if a !in cs {
          assert Disjoint(a, s);
          DisjointSymmetric(a, s);
          InsideDisjoint(region, s, a);
        }
      } else {
        assert p in placed;
        if a in cs {
          assert Disjoint(s, Occupied(p, padding));
          InsideDisjoint(a, s, Occupied(p, padding));
        }
      }
    }
  }

  lemma NextApart(free: seq<FreeSpace>, s: FreeSpace, region: FreeSpace, placed: seq<PlacedItem>, q: PlacedItem, padding: real)
    requires s in free && Inside(region, s)
    requires Separated(free, placed, padding)
    requires Occupied(q, padding) == region
    ensures PlacementsApart(placed + [q])
  {
    var out := placed + [q];
    forall i, j | 0 <= i < j < |out| ensures Apart(out[i], out[j]) {
      assert out[i] == placed[i];
      if j == |placed| {
        assert out[j] == q;
        assert placed[i] in placed;
        assert Disjoint(s, Occupied(placed[i], padding));
        InsideDisjoint(region, s, Occupied(placed[i], padding));
        ApartOfOccupied(placed[i], q, padding);
      } else {
        assert out[j] == placed[j];
      }
    }
  }

  /** Placing a positive unit exactly inside a free space keeps the loop's
      separation invariant. */
  lemma SeparatedStep(free: seq<FreeSpace>, idx: nat, item: Item, o: Dims, padding: real, placed: seq<PlacedItem>)
    requires idx < |free|
    requires PositiveDims(o) && FitsInSpace(o, free[idx], 0.0)
    requires Separated(free, placed, padding)
    ensures Separated(NextFreeSpaces(free, idx, SplitSpace(free[idx], o, 0.0)),
                      placed + [PlaceAt(item, free[idx], o, padding)], padding)
  {
    var s := free[idx];
    var cs := SplitSpace(s, o, 0.0);
    var next := NextFreeSpaces(free, idx, cs);
    var q := PlaceAt(item, s, o, padding);
    var region := RegionAt(s, o);
    assert Occupied(q, padding) == region;
    assert s in free;
    FitsInSpaceMeaning(o, s, 0.0);
    SplitSpaceGeometry(s, o, 0.0);
    NextFreeSpacesFacts(free, idx, cs);
    assert SplitFacts(free, s, cs, next, region);
    NextCounts(free, s, cs, next, region, placed, padding);
    NextDisjoint(free, s, cs, next, region, placed, padding);
    NextClear(free, s, cs, next, region, placed, q, padding);
    NextApart(free, s, region, placed, q, padding);
  }

  // ---------------------------------------------------------------------------
  // The whole run

  lemma BestFitFacts(item: Item, free: seq<FreeSpace>, f: Fit, tol: real)
    requires PositiveDims(item.dims)
    requires BestFitOf(free, Orientations(item.dims), tol) == Some(f)
    ensures f.spaceIdx < |free|
    ensures FitsInSpace(f.orientation, free[f.spaceIdx], tol) && PositiveDims(f.orientation)
  {
    var orients := Orientations(item.dims);
    BestFitOfIsBest(free, orients, tol);
    assert f.orientation == orients[f.orientIdx];
    OrientationMember(item.dims, f.orientation);
    CandidateFacts(item.dims, f.orientation);
  }

  lemma {:induction false} PlaceAllSeparated(items: seq<Item>, free: seq<FreeSpace>, padding: real,
                                             placed: seq<PlacedItem>, total: real, boxDims: Dims)
    requires forall it :: it in items ==> PositiveDims(it.dims)
    requires ExactInvariant(free, total, Padded(boxDims, padding))
    requires forall p :: p in placed ==> PlacedInBox(p, boxDims, padding)
    requires Separated(free, placed, padding)
    ensures PlacementsApart(PlaceAll(items, free, padding, placed, total, 0.0).placed)
    decreases |items|
  {
    if items != [] {
      var best := BestFitOf(free, Orientations(items[0].dims), 0.0);
      if best.Some? {
        var f := best.value;
        assert items[0] in items;
        BestFitFacts(items[0], free, f, 0.0);
        ExactPlaceFirst(items, free, padding, placed, total, boxDims, f);
        SeparatedStep(free, f.spaceIdx, items[0], f.orientation, padding, placed);
        var free' := NextFreeSpaces(free, f.spaceIdx, SplitSpace(free[f.spaceIdx], f.orientation, 0.0));
        var placed' := placed + [PlaceAt(items[0], free[f.spaceIdx], f.orientation, padding)];
        var total' := total + DimsVolume(f.orientation);
        PlaceAllUnfold(items, free, padding, placed, total, f, free', placed', total', 0.0);
        PlaceAllSeparated(items[1..], free', padding, placed', total', boxDims);
      }
    }
  }

  lemma InitialSeparated(s: FreeSpace, padding: real)
    ensures Separated([s], [], padding)
  {
  }

  /** With no fit tolerance, no two placements of tryPack overlap. */
  lemma PackPlacementsApart(products: seq<Product>, boxDims: Dims, padding: real)
    requires forall p :: p in products ==> PositiveDims(ProductDims(p))
    ensures PlacementsApart(Pack(products, boxDims, padding, 0.0).placed)
  {
    if HasUsableInterior(boxDims, padding) {
      var eff := Padded(boxDims, padding);
      SortedUnitsPositive(products);
      InitialInvariant(eff);
      InitialSeparated(Interior(eff), padding);
      PackStart(products, boxDims, padding, 0.0);
      PlaceAllSeparated(SortedUnits(products), [Interior(eff)], padding, [], 0.0, boxDims);
    } else {
      PackShape(products, boxDims, padding, 0.0);
    }
  }

  // ---------------------------------------------------------------------------
  // With the source's tolerance (packing.ts:44-50, 59-95)

  /** An order for a 2 x 2 x 0.99 box with no padding. Unit b is 0.0005 longer
      than the free space the Best-Fit rule gives it, so it reaches into the
      neighbouring free space, where unit c is then placed. */
  function OverlapOrder(): seq<Product> {
    [ Product("a", 1.0, 1.0, 0.99, 1.0, 1),
      Product("b", 1.0005, 0.99, 0.99, 1.0, 1),
      Product("c", 0.5, 1.5, 0.5, 1.0, 1) ]
  }

  function OverlapBox(): Dims {
    Dims(2.0, 2.0, 0.99)
  }

  lemma OverlapUnits()
    ensures SortedUnits(OverlapOrder())
         == [ Item("a", Dims(1.0, 1.0, 0.99), 1.0), Item("b", Dims(1.0005, 0.99, 0.99), 1.0),
              Item("c", Dims(0.5, 1.5, 0.5), 1.0) ]
  {
    var ps := OverlapOrder();
    var ia, ib, ic := Item("a", Dims(1.0, 1.0, 0.99), 1.0), Item("b", Dims(1.0005, 0.99, 0.99), 1.0),
                      Item("c", Dims(0.5, 1.5, 0.5), 1.0);
    assert Units(ps[0]) == [ia] && Units(ps[1]) == [ib] && Units(ps[2]) == [ic];
    assert ps[1..][1..] == [ps[2]] && ps[1..][1..][1..] == [];
    assert Expand([ps[2]]) == [ic] + Expand([]);
    assert Expand(ps[1..]) == [ib] + Expand([ps[2]]);
    assert Expand(ps) == [ia, ib, ic];
    assert [ia, ib, ic][1..] == [ib, ic] && [ib, ic][1..] == [ic];
    assert SortBy([ic], NegItemVolume) == Insert(ic, SortBy([], NegItemVolume), NegItemVolume) == [ic];
    assert SortBy([ib, ic], NegItemVolume) == Insert(ib, [ic], NegItemVolume) == [ib, ic];
    assert SortBy([ia, ib, ic], NegItemVolume) == Insert(ia, [ib, ic], NegItemVolume) == [ia, ib, ic];
  }

  /** De-duplication of a candidate list canonicalising three distinct
      triples, for the three orders in which they can first occur. */
  lemma DedupRepeats(cs: seq<Dims>, x: Dims, y: Dims, z: Dims)
    requires x != y && y != z && x != z
    requires cs == [x, y, x, y, z, z]
    ensures DedupFrom(cs, {}) == [x, y, z]
  {
    var all := {x, y, z};
    assert {} + {x} == {x} && {x} + {y} == {x, y} && {x, y} + {z} == all;
    assert DedupFrom(cs[5..], all) == DedupFrom(cs[6..], all) == [];
    assert DedupFrom(cs[4..], {x, y}) == [z] + DedupFrom(cs[5..], all);
    assert DedupFrom(cs[2..], {x, y}) == DedupFrom(cs[3..], {x, y}) == DedupFrom(cs[4..], {x, y});
    assert DedupFrom(cs[1..], {x}) == [y] + DedupFrom(cs[2..], {x, y});
    assert DedupFrom(cs, {}) == [x] + DedupFrom(cs[1..], {x});
  }

  lemma DedupPairs(cs: seq<Dims>, x: Dims, y: Dims, z: Dims)
    requires x != y && y != z && x != z
    requires cs == [x, x, y, z, y, z]
    ensures DedupFrom(cs, {}) == [x, y, z]
  {
    var all := {x, y, z};
    assert {} + {x} == {x} && {x} + {y} == {x, y} && {x, y} + {z} == all;
    assert DedupFrom(cs[4..], all) == DedupFrom(cs[5..], all) == DedupFrom(cs[6..], all) == [];
    assert DedupFrom(cs[3..], {x, y}) == [z] + DedupFrom(cs[4..], all);
    assert DedupFrom(cs[2..], {x}) == [y] + DedupFrom(cs[3..], {x, y});
    assert DedupFrom(cs[1..], {x}) == DedupFrom(cs[2..], {x});
    assert DedupFrom(cs, {}) == [x] + DedupFrom(cs[1..], {x});
  }

  lemma DedupMirror(cs: seq<Dims>, x: Dims, y: Dims, z: Dims)
    requires x != y && y != z && x != z
    requires cs == [x, y, z, z, y, x]
    ensures DedupFrom(cs, {}) == [x, y, z]
  {
    var all := {x, y, z};
    assert {} + {x} == {x} && {x} + {y} == {x, y} && {x, y} + {z} == all;
    assert DedupFrom(cs[3..], all) == DedupFrom(cs[4..], all) == DedupFrom(cs[5..], all) == DedupFrom(cs[6..], all) == [];
    assert DedupFrom(cs[2..], {x, y}) == [z] + DedupFrom(cs[3..], all);
    assert DedupFrom(cs[1..], {x}) == [y] + DedupFrom(cs[2..], {x, y});
    assert DedupFrom(cs, {}) == [x] + DedupFrom(cs[1..], {x});
  }

  lemma OverlapOrientations()
    ensures Orientations(Dims(1.0, 1.0, 0.99)) == [Dims(1.0, 1.0, 0.99), Dims(1.0, 0.99, 1.0), Dims(0.99, 1.0, 1.0)]
    ensures Orientations(Dims(1.0005, 0.99, 0.99))
         == [Dims(1.0005, 0.99, 0.99), Dims(0.99, 1.0005, 0.99), Dims(0.99, 0.99, 1.0005)]
    ensures Orientations(Dims(0.5, 1.5, 0.5)) == [Dims(0.5, 1.5, 0.5), Dims(0.5, 0.5, 1.5), Dims(1.5, 0.5, 0.5)]
  {
    DedupRepeats(Candidates(Dims(1.0, 1.0, 0.99)), Dims(1.0, 1.0, 0.99), Dims(1.0, 0.99, 1.0), Dims(0.99, 1.0, 1.0));
    DedupPairs(Candidates(Dims(1.0005, 0.99, 0.99)), Dims(1.0005, 0.99, 0.99), Dims(0.99, 1.0005, 0.99), Dims(0.99, 0.99, 1.0005));
    DedupMirror(Candidates(Dims(0.5, 1.5, 0.5)), Dims(0.5, 1.5, 0.5), Dims(0.5, 0.5, 1.5), Dims(1.5, 0.5, 0.5));
  }

  /** Unit a goes to the origin of the box; the right and front residuals remain. */
  lemma OverlapFirst(s0: FreeSpace, os: seq<Dims>, f: Fit)
    requires s0 == FreeSpace(0.0, 0.0, 0.0, 2.0, 2.0, 0.99)
    requires os == [Dims(1.0, 1.0, 0.99), Dims(1.0, 0.99, 1.0), Dims(0.99, 1.0, 1.0)]
    requires f == Fit(0, 0, os[0], WasteOf(s0, os[0]))
    ensures BestFitOf([s0], os, Tolerance) == Some(f)
    ensures SortBy(Splice([s0], 0, SplitSpace(s0, os[0], Tolerance)), SpaceVolume)
         == [FreeSpace(0.0, 1.0, 0.0, 1.0, 1.0, 0.99), FreeSpace(1.0, 0.0, 0.0, 1.0, 2.0, 0.99)]
  {
    var sp := [s0];
    assert Consider(None, sp, 0, os, 0, Tolerance) == Some(f);
    assert Consider(Some(f), sp, 0, os, 1, Tolerance) == Some(f);
    assert Consider(Some(f), sp, 0, os, 2, Tolerance) == Some(f);
    assert ScanOrientations(sp, 0, os, 3, Some(f), Tolerance) == Some(f);
    assert ScanOrientations(sp, 0, os, 2, Some(f), Tolerance) == Some(f);
    assert ScanOrientations(sp, 0, os, 1, Some(f), Tolerance) == Some(f);
    assert ScanOrientations(sp, 0, os, 0, None, Tolerance) == Some(f);
    assert ScanSpaces(sp, 1, os, Some(f), Tolerance) == Some(f);
    var r0, f0 := FreeSpace(1.0, 0.0, 0.0, 1.0, 2.0, 0.99), FreeSpace(0.0, 1.0, 0.0, 1.0, 1.0, 0.99);
    assert SplitSpace(s0, os[0], Tolerance) == [r0, f0];
    assert Splice(sp, 0, [r0, f0]) == [r0, f0];
    assert [r0, f0][1..] == [f0] && [f0][1..] == [];
    assert SortBy([f0], SpaceVolume) == Insert(f0, [], SpaceVolume) == [f0];
    assert SortBy([r0, f0], SpaceVolume) == Insert(r0, [f0], SpaceVolume) == [f0, r0];
  }

  /** Unit b fits the front residual within the tolerance, though it is 0.0005
      longer; only a thin front residual of it remains. */
  lemma OverlapSecond(free: seq<FreeSpace>, os: seq<Dims>, f: Fit)
    requires free == [FreeSpace(0.0, 1.0, 0.0, 1.0, 1.0, 0.99), FreeSpace(1.0, 0.0, 0.0, 1.0, 2.0, 0.99)]
    requires os == [Dims(1.0005, 0.99, 0.99), Dims(0.99, 1.0005, 0.99), Dims(0.99, 0.99, 1.0005)]
    requires f == Fit(0, 0, os[0], WasteOf(free[0], os[0]))
    ensures BestFitOf(free, os, Tolerance) == Some(f)
    ensures SortBy(Splice(free, 0, SplitSpace(free[0], os[0], Tolerance)), SpaceVolume)
         == [FreeSpace(0.0, 1.99, 0.0, 1.0005, 0.01, 0.99), FreeSpace(1.0, 0.0, 0.0, 1.0, 2.0, 0.99)]
  {
    assert Consider(None, free, 0, os, 0, Tolerance) == Some(f);
    assert Consider(Some(f), free, 0, os, 1, Tolerance) == Some(f);
    assert Consider(Some(f), free, 0, os, 2, Tolerance) == Some(f);
    assert ScanOrientations(free, 0, os, 3, Some(f), Tolerance) == Some(f);
    assert ScanOrientations(free, 0, os, 2, Some(f), Tolerance) == Some(f);
    assert ScanOrientations(free, 0, os, 1, Some(f), Tolerance) == Some(f);
    assert ScanOrientations(free, 0, os, 0, None, Tolerance) == Some(f);
    assert Consider(Some(f), free, 1, os, 0, Tolerance) == Some(f);
    assert Consider(Some(f), free, 1, os, 1, Tolerance) == Some(f);
    assert Consider(Some(f), free, 1, os, 2, Tolerance) == Some(f);
    assert ScanOrientations(free, 1, os, 3, Some(f), Tolerance) == Some(f);
    assert ScanOrientations(free, 1, os, 2, Some(f), Tolerance) == Some(f);
    assert ScanOrientations(free, 1, os, 1, Some(f), Tolerance) == Some(f);
    assert ScanOrientations(free, 1, os, 0, Some(f), Tolerance) == Some(f);
    assert ScanSpaces(free, 2, os, Some(f), Tolerance) == Some(f);
    assert ScanSpaces(free, 1, os, Some(f), Tolerance) == Some(f);
    var t1, r0 := FreeSpace(0.0, 1.99, 0.0, 1.0005, 0.01, 0.99), free[1];
    assert SplitSpace(free[0], os[0], Tolerance) == [t1];
    assert Splice(free, 0, [t1]) == [t1, r0];
    assert [t1, r0][1..] == [r0] && [r0][1..] == [];
    assert SortBy([r0], SpaceVolume) == Insert(r0, [], SpaceVolume) == [r0];
    assert SortBy([t1, r0], SpaceVolume) == Insert(t1, [r0], SpaceVolume) == [t1, r0];
  }

  /** Unit c fits nowhere in the thin residual and goes to the origin of the
      right residual. */
  lemma OverlapThird(free: seq<FreeSpace>, os: seq<Dims>, f: Fit)
    requires free == [FreeSpace(0.0, 1.99, 0.0, 1.0005, 0.01, 0.99), FreeSpace(1.0, 0.0, 0.0, 1.0, 2.0, 0.99)]
    requires os == [Dims(0.5, 1.5, 0.5), Dims(0.5, 0.5, 1.5), Dims(1.5, 0.5, 0.5)]
    requires f == Fit(1, 0, os[0], WasteOf(free[1], os[0]))
    ensures BestFitOf(free, os, Tolerance) == Some(f)
  {
    assert Consider(None, free, 0, os, 0, Tolerance) == None;
    assert Consider(None, free, 0, os, 1, Tolerance) == None;
    assert Consider(None, free, 0, os, 2, Tolerance) == None;
    assert ScanOrientations(free, 0, os, 3, None, Tolerance) == None;
    assert ScanOrientations(free, 0, os, 2, None, Tolerance) == None;
    assert ScanOrientations(free, 0, os, 1, None, Tolerance) == None;
    assert ScanOrientations(free, 0, os, 0, None, Tolerance) == None;
    assert Consider(None, free, 1, os, 0, Tolerance) == Some(f);
    assert Consider(Some(f), free, 1, os, 1, Tolerance) == Some(f);
    assert Consider(Some(f), free, 1, os, 2, Tolerance) == Some(f);
    assert ScanOrientations(free, 1, os, 3, Some(f), Tolerance) == Some(f);
    assert ScanOrientations(free, 1, os, 2, Some(f), Tolerance) == Some(f);
    assert ScanOrientations(free, 1, os, 1, Some(f), Tolerance) == Some(f);
    assert ScanOrientations(free, 1, os, 0, None, Tolerance) == Some(f);
    assert ScanSpaces(free, 2, os, Some(f), Tolerance) == Some(f);
    assert ScanSpaces(free, 1, os, None, Tolerance) == Some(f);
  }

  function UnitA(): Item { Item("a", Dims(1.0, 1.0, 0.99), 1.0) }
  function UnitB(): Item { Item("b", Dims(1.0005, 0.99, 0.99), 1.0) }
  function UnitC(): Item { Item("c", Dims(0.5, 1.5, 0.5), 1.0) }

  /** The free spaces after units a and b are placed. */
  function FreeAfterA(): seq<FreeSpace> {
    [FreeSpace(0.0, 1.0, 0.0, 1.0, 1.0, 0.99), FreeSpace(1.0, 0.0, 0.0, 1.0, 2.0, 0.99)]
  }
  function FreeAfterB(): seq<FreeSpace> {
    [FreeSpace(0.0, 1.99, 0.0, 1.0005, 0.01, 0.99), FreeSpace(1.0, 0.0, 0.0, 1.0, 2.0, 0.99)]
  }

  /** The placements after units a and b. */
  function PlacedAfterA(): seq<PlacedItem> { [PlacedItem("a", 0.0, 0.0, 0.0, 1.0, 1.0, 0.99)] }
  function PlacedAfterB(): seq<PlacedItem> {
    PlacedAfterA() + [PlacedItem("b", 0.0, 1.0, 0.0, 1.0005, 0.99, 0.99)]
  }

  lemma OverlapStepA()
    ensures PlaceAll([UnitA(), UnitB(), UnitC()], [FreeSpace(0.0, 0.0, 0.0, 2.0, 2.0, 0.99)], 0.0, [], 0.0, Tolerance)
         == PlaceAll([UnitB(), UnitC()], FreeAfterA(), 0.0, PlacedAfterA(), 0.99, Tolerance)
  {
    var items := [UnitA(), UnitB(), UnitC()];
    var s0 := FreeSpace(0.0, 0.0, 0.0, 2.0, 2.0, 0.99);
    OverlapOrientations();
    var oa := Orientations(UnitA().dims);
    var fa := Fit(0, 0, oa[0], WasteOf(s0, oa[0]));
    OverlapFirst(s0, oa, fa);
    assert PlacedAfterA() == [] + [PlaceAt(UnitA(), s0, oa[0], 0.0)];
    PlaceAllUnfold(items, [s0], 0.0, [], 0.0, fa, FreeAfterA(), PlacedAfterA(), 0.0 + DimsVolume(oa[0]), Tolerance);
    assert items[1..] == [UnitB(), UnitC()];
  }

  lemma OverlapStepB()
    ensures PlaceAll([UnitB(), UnitC()], FreeAfterA(), 0.0, PlacedAfterA(), 0.99, Tolerance)
         == PlaceAll([UnitC()], FreeAfterB(), 0.0, PlacedAfterB(), 0.99 + 1.0005 * 0.99 * 0.99, Tolerance)
  {
    var items := [UnitB(), UnitC()];
    var free := FreeAfterA();
    OverlapOrientations();
    var ob := Orientations(UnitB().dims);
    var fb := Fit(0, 0, ob[0], WasteOf(free[0], ob[0]));
    OverlapSecond(free, ob, fb);
    assert PlacedAfterB() == PlacedAfterA() + [PlaceAt(UnitB(), free[0], ob[0], 0.0)];
    PlaceAllUnfold(items, free, 0.0, PlacedAfterA(), 0.99, fb, FreeAfterB(), PlacedAfterB(),
                   0.99 + DimsVolume(ob[0]), Tolerance);
    assert items[1..] == [UnitC()];
  }

  lemma OverlapStepC(total: real)
    ensures PlaceAll([UnitC()], FreeAfterB(), 0.0, PlacedAfterB(), total, Tolerance).fits
    ensures PlaceAll([UnitC()], FreeAfterB(), 0.0, PlacedAfterB(), total, Tolerance).placed
         == [PlacedItem("a", 0.0, 0.0, 0.0, 1.0, 1.0, 0.99), PlacedItem("b", 0.0, 1.0, 0.0, 1.0005, 0.99, 0.99),
             PlacedItem("c", 1.0, 0.0, 0.0, 0.5, 1.5, 0.5)]
  {
    var items := [UnitC()];
    var free := FreeAfterB();
    OverlapOrientations();
    var oc := Orientations(UnitC().dims);
    var fc := Fit(1, 0, oc[0], WasteOf(free[1], oc[0]));
    OverlapThird(free, oc, fc);
    var free3 := SortBy(Splice(free, 1, SplitSpace(free[1], oc[0], Tolerance)), SpaceVolume);
    var placed3 := PlacedAfterB() + [PlaceAt(UnitC(), free[1], oc[0], 0.0)];
    var total3 := total + DimsVolume(oc[0]);
    PlaceAllUnfold(items, free, 0.0, PlacedAfterB(), total, fc, free3, placed3, total3, Tolerance);
    assert items[1..] == [];
    assert PlaceAll([], free3, 0.0, placed3, total3, Tolerance) == PackResult(true, placed3, total3);
  }

  lemma OverlapStart()
    ensures Pack(OverlapOrder(), OverlapBox(), 0.0, Tolerance)
         == PlaceAll([UnitA(), UnitB(), UnitC()], [FreeSpace(0.0, 0.0, 0.0, 2.0, 2.0, 0.99)], 0.0, [], 0.0, Tolerance)
  {
    OverlapUnits();
    assert Interior(Padded(OverlapBox(), 0.0)) == FreeSpace(0.0, 0.0, 0.0, 2.0, 2.0, 0.99);
    PackStart(OverlapOrder(), OverlapBox(), 0.0, Tolerance);
  }

  /** Units a and b are placed as the trace above gives. */
  lemma OverlapReachesC()
    ensures Pack(OverlapOrder(), OverlapBox(), 0.0, Tolerance)
         == PlaceAll([UnitC()], FreeAfterB(), 0.0, PlacedAfterB(), 0.99 + 1.0005 * 0.99 * 0.99, Tolerance)
  {
    OverlapStart();
    OverlapStepA();
    OverlapStepB();
  }

  /** The result of packing the order: all three units fit, at the
      positions the trace above gives. */
  lemma OverlapPacked()
    ensures Pack(OverlapOrder(), OverlapBox(), 0.0, Tolerance).fits
    ensures Pack(OverlapOrder(), OverlapBox(), 0.0, Tolerance).placed
         == [PlacedItem("a", 0.0, 0.0, 0.0, 1.0, 1.0, 0.99), PlacedItem("b", 0.0, 1.0, 0.0, 1.0005, 0.99, 0.99),
             PlacedItem("c", 1.0, 0.0, 0.0, 0.5, 1.5, 0.5)]
  {
    OverlapReachesC();
    OverlapStepC(0.99 + 1.0005 * 0.99 * 0.99);
  }

  /** With the source's tolerance of 0.001 two placements can overlap: the
      order above fits, and units b and c share the region
      [1, 1.0005] x [1, 1.5] x [0, 0.5]. */
  lemma TolerancePermitsOverlap()
    ensures Pack(OverlapOrder(), OverlapBox(), 0.0, Tolerance).fits
    ensures |Pack(OverlapOrder(), OverlapBox(), 0.0, Tolerance).placed| == 3
    ensures !Apart(Pack(OverlapOrder(), OverlapBox(), 0.0, Tolerance).placed[1],
                   Pack(OverlapOrder(), OverlapBox(), 0.0, Tolerance).placed[2])
  {
    OverlapPacked();
  }
}
