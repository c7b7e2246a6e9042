/**
 * The packer of server/src/services/packing.ts: can a list of products, each
 * with a quantity, be packed into one box?
 *
 * First-Fit-Decreasing over the expanded units (largest volume first), with a
 * Best-Fit choice of (free space, orientation) per unit and a three-way
 * guillotine split of the used free space.
 *
 * The specification functions take the fit tolerance `tol` as a parameter; the
 * methods, like the source, use Tolerance = 0.001. With `tol = 0` the packer is
 * proved to keep every placement inside the padded interior.
 */
module Packing {
  import opened Types
  import opened ArrayMethods

  /** The slack allowed by every fit test and every residual test. */
  const Tolerance: real := 0.001

  datatype Option<T> = None | Some(value: T)

  /** An empty cuboid of the padded interior: origin and extents. */
  datatype FreeSpace = FreeSpace(x: real, y: real, z: real, length: real, width: real, height: real)

  /** One unit of a product, after expansion by quantity. */
  datatype Item = Item(name: string, dims: Dims, weight: real)

  /** The best (free space, orientation) pair found so far: the index of the
      space, the orientation and its wasted volume; `orientIdx` is the
      position of the orientation in the list that was scanned. */
  datatype Fit = Fit(spaceIdx: nat, orientIdx: nat, orientation: Dims, wasteVolume: real)

  datatype PackResult = PackResult(fits: bool, placed: seq<PlacedItem>, totalVolume: real)

  function SpaceVolume(s: FreeSpace): real {
    s.length * s.width * s.height
  }

  function ItemVolume(it: Item): real {
    DimsVolume(it.dims)
  }

  function ItemWeight(it: Item): real {
    it.weight
  }

  /** Sort key of the unit sort: the comparator `volB - volA` orders by
      descending volume. */
  function NegItemVolume(it: Item): real {
    -DimsVolume(it.dims)
  }

  predicate PositiveSpace(s: FreeSpace) {
    s.length > 0.0 && s.width > 0.0 && s.height > 0.0
  }

  /** The cuboid of extents `d` placed at the origin of `s`. */
  function RegionAt(s: FreeSpace, d: Dims): FreeSpace {
    FreeSpace(s.x, s.y, s.z, d.length, d.width, d.height)
  }

  ghost predicate Inside(a: FreeSpace, b: FreeSpace) {
    && b.x <= a.x && a.x + a.length <= b.x + b.length
    && b.y <= a.y && a.y + a.width <= b.y + b.width
    && b.z <= a.z && a.z + a.height <= b.z + b.height
  }

  /** Separated along some axis: the interiors do not meet. */
  ghost predicate Disjoint(a: FreeSpace, b: FreeSpace) {
    || a.x + a.length <= b.x || b.x + b.length <= a.x
    || a.y + a.width <= b.y || b.y + b.width <= a.y
    || a.z + a.height <= b.z || b.z + b.height <= a.z
  }

  lemma MulPositive(a: real, b: real, c: real)
    requires a > 0.0 && b > 0.0 && c > 0.0
    ensures a * b * c > 0.0
  {
    assert a * b > 0.0;
  }

  lemma MulNonnegative(a: real, b: real, c: real)
    requires a >= 0.0 && b >= 0.0 && c >= 0.0
    ensures a * b * c >= 0.0
  {
    assert a * b >= 0.0;
  }

  // ---------------------------------------------------------------------------
  // getOrientations (packing.ts:21-39)
  // ---------------------------------------------------------------------------

  /** The six axis permutations in the order the source enumerates them. */
  function Candidates(d: Dims): seq<Dims> {
    [ Dims(d.length, d.width, d.height), Dims(d.length, d.height, d.width),
      Dims(d.width, d.length, d.height), Dims(d.width, d.height, d.length),
      Dims(d.height, d.length, d.width), Dims(d.height, d.width, d.length) ]
  }

  /** The elements of `cs` not in `seen`, first occurrence only. */
  function DedupFrom(cs: seq<Dims>, seen: set<Dims>): seq<Dims> {
    if cs == [] then []
    else if cs[0] in seen then DedupFrom(cs[1..], seen)
    else [cs[0]] + DedupFrom(cs[1..], seen + {cs[0]})
  }

  function Orientations(d: Dims): seq<Dims> {
    DedupFrom(Candidates(d), {})
  }

  /** `o` holds the same three extents as `d`, in some order. */
  ghost predicate IsPermutationOf(o: Dims, d: Dims) {
    multiset{o.length, o.width, o.height} == multiset{d.length, d.width, d.height}
  }

  lemma {:induction false} DedupFromFacts(cs: seq<Dims>, seen: set<Dims>)
    ensures |DedupFrom(cs, seen)| <= |cs|
    ensures forall o :: o in DedupFrom(cs, seen) <==> o in cs && o !in seen
    ensures forall i, j :: 0 <= i < j < |DedupFrom(cs, seen)| ==>
              DedupFrom(cs, seen)[i] != DedupFrom(cs, seen)[j]
  {
    if cs != [] {
      assert cs == [cs[0]] + cs[1..];
      if cs[0] in seen {
        DedupFromFacts(cs[1..], seen);
      } else {
        var rest := DedupFrom(cs[1..], seen + {cs[0]});
        DedupFromFacts(cs[1..], seen + {cs[0]});
        var r := [cs[0]] + rest;
        forall i, j | 0 <= i < j < |r| ensures r[i] != r[j] {
          if i == 0 {
            assert r[j] == rest[j - 1] && rest[j - 1] in rest;
          } else {
            assert r[i] == rest[i - 1] && r[j] == rest[j - 1];
          }
        }
      }
    }
  }

  lemma CandidateFacts(d: Dims, o: Dims)
    requires o in Candidates(d)
    ensures IsPermutationOf(o, d)
    ensures DimsVolume(o) == DimsVolume(d)
    ensures PositiveDims(d) ==> PositiveDims(o)
  {
    var l, w, h := d.length, d.width, d.height;
    ThreeElements(l, w, h);
    if o == Dims(l, w, h) {
    } else if o == Dims(l, h, w) {
      assert DimsVolume(o) == l * h * w;
    } else if o == Dims(w, l, h) {
      assert DimsVolume(o) == w * l * h;
    } else if o == Dims(w, h, l) {
      assert DimsVolume(o) == w * h * l;
    } else if o == Dims(h, l, w) {
      assert DimsVolume(o) == h * l * w;
    } else {
      assert DimsVolume(o) == h * w * l;
    }
  }

  /** The six orders of three values have the same multiset. */
  lemma ThreeElements(a: real, b: real, c: real)
    ensures multiset{a, c, b} == multiset{a, b, c}
    ensures multiset{b, a, c} == multiset{a, b, c}
    ensures multiset{b, c, a} == multiset{a, b, c}
    ensures multiset{c, a, b} == multiset{a, b, c}
    ensures multiset{c, b, a} == multiset{a, b, c}
  {
    SwapLastTwo(a, b, c);
    SwapFirstTwo(a, b, c);
    SwapLastTwo(b, a, c);
    SwapFirstTwo(a, c, b);
    SwapLastTwo(c, a, b);
  }

  lemma SwapFirstTwo(a: real, b: real, c: real)
    ensures multiset{b, a, c} == multiset{a, b, c}
  {
    assert multiset{b, a, c} == multiset{b} + multiset{a} + multiset{c};
  }

  lemma SwapLastTwo(a: real, b: real, c: real)
    ensures multiset{a, c, b} == multiset{a, b, c}
  {
    assert multiset{a, c, b} == multiset{a} + multiset{c} + multiset{b};
  }

  /** getOrientations returns between one and six distinct permutations of
      the dimensions, the unrotated one first, and misses none of the six. */
  lemma OrientationsFacts(d: Dims)
    ensures 1 <= |Orientations(d)| <= 6
    ensures Orientations(d)[0] == d
    ensures forall i :: 0 <= i < |Orientations(d)| ==>
              Orientations(d)[i] in Candidates(d) && IsPermutationOf(Orientations(d)[i], d)
    ensures forall i, j :: 0 <= i < j < |Orientations(d)| ==> Orientations(d)[i] != Orientations(d)[j]
    ensures forall c :: c in Candidates(d) ==> c in Orientations(d)
  {
    var cs := Candidates(d);
    DedupFromFacts(cs, {});
    assert DedupFrom(cs, {}) == [cs[0]] + DedupFrom(cs[1..], {} + {cs[0]});
    forall i | 0 <= i < |Orientations(d)|
      ensures Orientations(d)[i] in cs && IsPermutationOf(Orientations(d)[i], d)
    {
      assert Orientations(d)[i] in Orientations(d);
      CandidateFacts(d, Orientations(d)[i]);
    }
  }

  method GetOrientations(d: Dims) returns (orientations: seq<Dims>)
    ensures orientations == Orientations(d)
  {
    var cs := Candidates(d);
    ghost var target := Orientations(d);
    var seen: set<Dims> := {};
    orientations := [];
    assert cs[0..] == cs;
    for i := 0 to |cs|
      invariant orientations + DedupFrom(cs[i..], seen) == target
    {
      DedupStep(cs, i, seen, orientations, target);
      if cs[i] !in seen {
        seen := seen + {cs[i]};
        orientations := orientations + [cs[i]];
      }
    }
    assert cs[|cs|..] == [];
  }

  /** One pass of getOrientations' loop. */
  lemma DedupStep(cs: seq<Dims>, i: nat, seen: set<Dims>, acc: seq<Dims>, target: seq<Dims>)
    requires i < |cs|
    requires acc + DedupFrom(cs[i..], seen) == target
    ensures cs[i] in seen ==> acc + DedupFrom(cs[i + 1..], seen) == target
    ensures cs[i] !in seen ==> (acc + [cs[i]]) + DedupFrom(cs[i + 1..], seen + {cs[i]}) == target
  {
    assert cs[i..][0] == cs[i] && cs[i..][1..] == cs[i + 1..];
  }

  // ---------------------------------------------------------------------------
  // fitsInSpace (packing.ts:44-50)
  // ---------------------------------------------------------------------------

  predicate FitsInSpace(item: Dims, space: FreeSpace, tol: real) {
    && item.length <= space.length + tol
    && item.width <= space.width + tol
    && item.height <= space.height + tol
  }

  /** Without tolerance, fitting means that the item placed at the space's
      origin lies inside the space; the tolerance only admits more. */
  lemma FitsInSpaceMeaning(item: Dims, space: FreeSpace, tol: real)
    ensures FitsInSpace(item, space, 0.0) <==> Inside(RegionAt(space, item), space)
    ensures tol >= 0.0 && FitsInSpace(item, space, 0.0) ==> FitsInSpace(item, space, tol)
  {
  }

  // ---------------------------------------------------------------------------
  // splitSpace (packing.ts:55-98)
  // ---------------------------------------------------------------------------

  /** The residual beyond the item along the length, over the whole width and height. */
  function RightPart(space: FreeSpace, item: Dims): FreeSpace {
    FreeSpace(space.x + item.length, space.y, space.z, space.length - item.length, space.width, space.height)
  }

  /** The residual beyond the item along the width, within the item's length. */
  function FrontPart(space: FreeSpace, item: Dims): FreeSpace {
    FreeSpace(space.x, space.y + item.width, space.z, item.length, space.width - item.width, space.height)
  }

  /** The residual above the item, within its footprint. */
  function TopPart(space: FreeSpace, item: Dims): FreeSpace {
    FreeSpace(space.x, space.y, space.z + item.height, item.length, item.width, space.height - item.height)
  }

  function Keep(b: bool, s: FreeSpace): seq<FreeSpace> {
    if b then [s] else []
  }

  /** The right, front and top residuals of an item placed at the origin of
      `space`, in that order, each kept only when its growing extent exceeds
      the tolerance. */
  function SplitSpace(space: FreeSpace, item: Dims, tol: real): (r: seq<FreeSpace>)
    ensures |r| <= 3
  {
    var right := RightPart(space, item);
    var front := FrontPart(space, item);
    var top := TopPart(space, item);
    Keep(right.length > tol, right) + Keep(front.width > tol, front) + Keep(top.height > tol, top)
  }

  /** The three residuals, for an item no larger than the space, lie in the
      space, do not meet the item and do not meet each other. */
  lemma SplitPartsGeometry(space: FreeSpace, item: Dims)
    requires PositiveDims(item)
    requires item.length <= space.length && item.width <= space.width && item.height <= space.height
    ensures Inside(RightPart(space, item), space) && Inside(FrontPart(space, item), space)
            && Inside(TopPart(space, item), space)
    ensures Disjoint(RightPart(space, item), RegionAt(space, item))
            && Disjoint(FrontPart(space, item), RegionAt(space, item))
            && Disjoint(TopPart(space, item), RegionAt(space, item))
    ensures Disjoint(RightPart(space, item), FrontPart(space, item))
            && Disjoint(RightPart(space, item), TopPart(space, item))
            && Disjoint(FrontPart(space, item), TopPart(space, item))
  {
  }

  lemma DisjointSymmetric(a: FreeSpace, b: FreeSpace)
    ensures Disjoint(a, b) <==> Disjoint(b, a)
  {
  }

  /** Any selection of three pairwise disjoint cuboids, kept in order, is
      pairwise disjoint. */
  lemma KeptPairwiseDisjoint(p: bool, u: FreeSpace, q: bool, v: FreeSpace, r: bool, w: FreeSpace)
    requires Disjoint(u, v) && Disjoint(u, w) && Disjoint(v, w)
    ensures forall i, j :: 0 <= i < j < |Keep(p, u) + Keep(q, v) + Keep(r, w)| ==>
              Disjoint((Keep(p, u) + Keep(q, v) + Keep(r, w))[i], (Keep(p, u) + Keep(q, v) + Keep(r, w))[j])
  {
    var s := Keep(p, u) + Keep(q, v) + Keep(r, w);
    forall i, j | 0 <= i < j < |s| ensures Disjoint(s[i], s[j]) {
      var x, y := s[i], s[j];
      assert x in s && y in s;
      assert x == u || x == v || x == w;
      assert y == u || y == v || y == w;
      if x == y {
        // equal elements at two positions can only be distinct selections of equal cuboids
        assert (x == u && y == v) || (x == u && y == w) || (x == v && y == w);
      }
      DisjointSymmetric(u, v);
      DisjointSymmetric(u, w);
      DisjointSymmetric(v, w);
    }
  }

  /** For an item no larger than the space: every child is a non-empty cuboid
      inside the space that meets neither the item nor another child. */
  lemma SplitSpaceGeometry(space: FreeSpace, item: Dims, tol: real)
    requires tol >= 0.0
    requires PositiveDims(item)
    requires item.length <= space.length && item.width <= space.width && item.height <= space.height
    ensures forall c :: c in SplitSpace(space, item, tol) ==>
              PositiveSpace(c) && Inside(c, space) && Disjoint(c, RegionAt(space, item))
    ensures forall i, j :: 0 <= i < j < |SplitSpace(space, item, tol)| ==>
              Disjoint(SplitSpace(space, item, tol)[i], SplitSpace(space, item, tol)[j])
  {
    var right := RightPart(space, item);
    var front := FrontPart(space, item);
    var top := TopPart(space, item);
    SplitPartsGeometry(space, item);
    KeptPairwiseDisjoint(right.length > tol, right, front.width > tol, front, top.height > tol, top);
  }

  lemma SplitVolumeIdentity(l: real, w: real, h: real, a: real, b: real, c: real)
    ensures a * b * c + (l - a) * w * h + a * (w - b) * h + a * b * (h - c) == l * w * h
  {
  }

  lemma SumOfKeep(b: bool, s: FreeSpace)
    ensures SumBy(Keep(b, s), SpaceVolume) == if b then SpaceVolume(s) else 0.0
  {
    if b {
      assert Keep(b, s)[1..] == [];
    }
  }

  /** The item and the children account for at most the space's volume, and
      for exactly its volume when no residual is dropped (as with tolerance 0
      and a space the item fits in exactly). */
  lemma SplitSpaceVolume(space: FreeSpace, item: Dims, tol: real)
    requires tol >= 0.0
    requires PositiveDims(item)
    requires item.length <= space.length && item.width <= space.width && item.height <= space.height
    ensures DimsVolume(item) + SumBy(SplitSpace(space, item, tol), SpaceVolume) <= SpaceVolume(space)
    ensures tol == 0.0 ==>
              DimsVolume(item) + SumBy(SplitSpace(space, item, tol), SpaceVolume) == SpaceVolume(space)
  {
    var right := RightPart(space, item);
    var front := FrontPart(space, item);
    var top := TopPart(space, item);
    var kr, kf, kt := right.length > tol, front.width > tol, top.height > tol;
    SumByConcat(Keep(kr, right) + Keep(kf, front), Keep(kt, top), SpaceVolume);
    SumByConcat(Keep(kr, right), Keep(kf, front), SpaceVolume);
    SumOfKeep(kr, right);
    SumOfKeep(kf, front);
    SumOfKeep(kt, top);
    PartsVolume(space, item);
    if tol == 0.0 {
      DroppedPartsEmpty(space, item);
    }
    KeptBound(DimsVolume(item), SpaceVolume(space), SpaceVolume(right), SpaceVolume(front), SpaceVolume(top),
              kr, kf, kt, SumBy(SplitSpace(space, item, tol), SpaceVolume));
  }

  /** The item and its three residuals tile the space. */
  lemma PartsVolume(space: FreeSpace, item: Dims)
    requires PositiveDims(item)
    requires item.length <= space.length && item.width <= space.width && item.height <= space.height
    ensures DimsVolume(item) + SpaceVolume(RightPart(space, item)) + SpaceVolume(FrontPart(space, item))
              + SpaceVolume(TopPart(space, item)) == SpaceVolume(space)
    ensures SpaceVolume(RightPart(space, item)) >= 0.0 && SpaceVolume(FrontPart(space, item)) >= 0.0
            && SpaceVolume(TopPart(space, item)) >= 0.0
  {
    var l, w, h := space.length, space.width, space.height;
    var a, b, c := item.length, item.width, item.height;
    SplitVolumeIdentity(l, w, h, a, b, c);
    MulNonnegative(l - a, w, h);
    MulNonnegative(a, w - b, h);
    MulNonnegative(a, b, h - c);
  }

  /** Without tolerance, a residual is dropped only when it is empty. */
  lemma DroppedPartsEmpty(space: FreeSpace, item: Dims)
    requires item.length <= space.length && item.width <= space.width && item.height <= space.height
    ensures !(RightPart(space, item).length > 0.0) ==> SpaceVolume(RightPart(space, item)) == 0.0
    ensures !(FrontPart(space, item).width > 0.0) ==> SpaceVolume(FrontPart(space, item)) == 0.0
    ensures !(TopPart(space, item).height > 0.0) ==> SpaceVolume(TopPart(space, item)) == 0.0
  {
    var f := FrontPart(space, item);
    var t := TopPart(space, item);
    if !(f.width > 0.0) {
      assert f.length * f.width == 0.0;
    }
    if !(t.height > 0.0) {
      assert t.length * t.width * t.height == 0.0;
    }
  }

  lemma KeptBound(vi: real, vs: real, vr: real, vf: real, vt: real, kr: bool, kf: bool, kt: bool, sum: real)
    requires vi + vr + vf + vt == vs
    requires vr >= 0.0 && vf >= 0.0 && vt >= 0.0
    requires sum == (if kr then vr else 0.0) + (if kf then vf else 0.0) + (if kt then vt else 0.0)
    ensures vi + sum <= vs
    ensures (kr || vr == 0.0) && (kf || vf == 0.0) && (kt || vt == 0.0) ==> vi + sum == vs
  {
  }

  // ---------------------------------------------------------------------------
  // expandProducts (packing.ts:103-115)
  // ---------------------------------------------------------------------------

  function DigitChar(d: nat): char
    requires d < 10
  {
    "0123456789"[d]
  }

  /** The decimal form JavaScript gives a non-negative integer. */
  function NatToString(n: nat): string {
    if n < 10 then [DigitChar(n)] else NatToString(n / 10) + [DigitChar(n % 10)]
  }

  /** The label of unit `k` (from 0) of product `p`. */
  function UnitName(p: Product, k: nat): string {
    if p.quantity > 1 then p.name + " (" + NatToString(k + 1) + "/" + NatToString(p.quantity) + ")"
    else p.name
  }

  function UnitOf(p: Product, k: nat): Item {
    Item(UnitName(p, k), ProductDims(p), p.weight)
  }

  /** The units of `p`, in order. */
  function Units(p: Product): seq<Item> {
    seq(p.quantity, k requires 0 <= k < p.quantity => UnitOf(p, k))
  }

  function Expand(ps: seq<Product>): seq<Item> {
    if ps == [] then [] else Units(ps[0]) + Expand(ps[1..])
  }

  function TotalQuantity(ps: seq<Product>): nat {
    if ps == [] then 0 else ps[0].quantity + TotalQuantity(ps[1..])
  }

  /** The volume of one product line: its unit volume times its quantity. */
  function LineVolume(p: Product): real {
    DimsVolume(ProductDims(p)) * (p.quantity as real)
  }

  function LineWeight(p: Product): real {
    p.weight * (p.quantity as real)
  }

  /** calculateTotalVolume (packing.ts:209-213). */
  function CalculateTotalVolume(ps: seq<Product>): real {
    if ps == [] then 0.0 else LineVolume(ps[0]) + CalculateTotalVolume(ps[1..])
  }

  /** calculateTotalWeight (packing.ts:218-220). */
  function CalculateTotalWeight(ps: seq<Product>): real {
    if ps == [] then 0.0 else LineWeight(ps[0]) + CalculateTotalWeight(ps[1..])
  }

  lemma UnitsVolume(p: Product)
    ensures SumBy(Units(p), ItemVolume) == LineVolume(p)
  {
    UnitsDims(p);
    SumByConstantCount(Units(p), ItemVolume, DimsVolume(ProductDims(p)), p.quantity);
  }

  lemma UnitsDims(p: Product)
    ensures forall i :: 0 <= i < |Units(p)| ==> Units(p)[i].dims == ProductDims(p)
  {
  }

  lemma UnitsWeight(p: Product)
    ensures SumBy(Units(p), ItemWeight) == LineWeight(p)
  {
    SumByConstantCount(Units(p), ItemWeight, p.weight, p.quantity);
  }

  lemma {:induction false} ExpandAppend(a: seq<Product>, b: seq<Product>)
    ensures Expand(a + b) == Expand(a) + Expand(b)
  {
    if a == [] {
      assert a + b == b;
    } else {
      assert (a + b)[0] == a[0] && (a + b)[1..] == a[1..] + b;
      ExpandAppend(a[1..], b);
    }
  }

  /** One more unit of the inner loop of expandProducts. */
  lemma UnitsPrefix(p: Product, k: nat)
    requires k < p.quantity
    ensures Units(p)[..k + 1] == Units(p)[..k] + [UnitOf(p, k)]
  {
    PrefixSnoc(Units(p), k);
  }

  /** One more product of the outer loop of expandProducts. */
  lemma ExpandPrefix(products: seq<Product>, i: nat)
    requires i < |products|
    ensures Expand(products[..i + 1]) == Expand(products[..i]) + Units(products[i])
  {
    assert products[..i + 1] == products[..i] + [products[i]];
    ExpandAppend(products[..i], [products[i]]);
    assert Expand([products[i]]) == Units(products[i]) + Expand([]);
  }

  lemma {:induction false} ExpandLength(ps: seq<Product>)
    ensures |Expand(ps)| == TotalQuantity(ps)
  {
    if ps != [] {
      ExpandLength(ps[1..]);
    }
  }

  /** expandProducts emits the units product by product: unit `k` of product
      `i` sits after all units of the products before it, carries its
      product's dimensions and weight, and is labelled "name (k+1/N)" exactly
      when the quantity N exceeds 1. */
  lemma ExpandAt(ps: seq<Product>, i: nat, k: nat)
    requires i < |ps| && k < ps[i].quantity
    ensures |Expand(ps)| == TotalQuantity(ps)
    ensures TotalQuantity(ps[..i]) + k < |Expand(ps)|
    ensures Expand(ps)[TotalQuantity(ps[..i]) + k].dims == ProductDims(ps[i])
    ensures Expand(ps)[TotalQuantity(ps[..i]) + k].weight == ps[i].weight
    ensures ps[i].quantity > 1 ==>
              Expand(ps)[TotalQuantity(ps[..i]) + k].name
                == ps[i].name + " (" + NatToString(k + 1) + "/" + NatToString(ps[i].quantity) + ")"
    ensures ps[i].quantity == 1 ==> Expand(ps)[TotalQuantity(ps[..i]) + k].name == ps[i].name
  {
    ExpandLength(ps);
    ExpandIndex(ps, i, k);
  }

  /** Unit `k` of product `i` is at offset TotalQuantity(ps[..i]) + k. */
  lemma {:induction false} ExpandIndex(ps: seq<Product>, i: nat, k: nat)
    requires i < |ps| && k < ps[i].quantity
    ensures TotalQuantity(ps[..i]) + k < |Expand(ps)|
    ensures Expand(ps)[TotalQuantity(ps[..i]) + k] == UnitOf(ps[i], k)
    decreases i
  {
    ExpandLength(ps);
    ExpandLength(ps[1..]);
    if i > 0 {
      ExpandIndex(ps[1..], i - 1, k);
      assert ps[1..][..i - 1] == ps[..i][1..];
      assert TotalQuantity(ps[..i]) == ps[0].quantity + TotalQuantity(ps[1..][..i - 1]);
      assert Expand(ps)[TotalQuantity(ps[..i]) + k] == Expand(ps[1..])[TotalQuantity(ps[1..][..i - 1]) + k];
    } else {
      assert ps[..0] == [];
      assert Expand(ps)[k] == Units(ps[0])[k];
    }
  }

  /** The units carry in total the volume calculateTotalVolume computes
      from the products. */
  lemma {:induction false} ExpandVolume(ps: seq<Product>)
    ensures SumBy(Expand(ps), ItemVolume) == CalculateTotalVolume(ps)
  {
    if ps != [] {
      ExpandVolume(ps[1..]);
      UnitsVolume(ps[0]);
      SumByConcat(Units(ps[0]), Expand(ps[1..]), ItemVolume);
      assert SumBy(Expand(ps), ItemVolume) == SumBy(Units(ps[0]), ItemVolume) + SumBy(Expand(ps[1..]), ItemVolume);
    }
  }

  /** The units carry in total the weight calculateTotalWeight computes
      from the products. */
  lemma {:induction false} ExpandWeight(ps: seq<Product>)
    ensures SumBy(Expand(ps), ItemWeight) == CalculateTotalWeight(ps)
  {
    if ps != [] {
      ExpandWeight(ps[1..]);
      UnitsWeight(ps[0]);
      SumByConcat(Units(ps[0]), Expand(ps[1..]), ItemWeight);
      assert SumBy(Expand(ps), ItemWeight) == SumBy(Units(ps[0]), ItemWeight) + SumBy(Expand(ps[1..]), ItemWeight);
    } else {
      assert Expand(ps) == [];
    }
  }

  lemma {:induction false} ExpandPositive(ps: seq<Product>)
    requires forall p :: p in ps ==> PositiveDims(ProductDims(p))
    ensures forall it :: it in Expand(ps) ==> PositiveDims(it.dims)
  {
    if ps != [] {
      assert ps[0] in ps;
      assert forall p :: p in ps[1..] ==> p in ps;
      ExpandPositive(ps[1..]);
      forall it | it in Expand(ps) ensures PositiveDims(it.dims) {
        if it !in Expand(ps[1..]) {
          assert it in Units(ps[0]);
        }
      }
    }
  }

  method ExpandProducts(products: seq<Product>) returns (items: seq<Item>)
    ensures items == Expand(products)
    ensures |items| == TotalQuantity(products)
  {
    items := [];
    for i := 0 to |products|
      invariant items == Expand(products[..i])
    {
      var p := products[i];
      ghost var before := items;
      for k := 0 to p.quantity
        invariant items == before + Units(p)[..k]
      {
        var name := if p.quantity > 1
          then p.name + " (" + NatToString(k + 1) + "/" + NatToString(p.quantity) + ")"
          else p.name;
        items := items + [Item(name, Dims(p.length, p.width, p.height), p.weight)];
        UnitsPrefix(p, k);
      }
      assert Units(p)[..p.quantity] == Units(p);
      ExpandPrefix(products, i);
    }
    assert products[..|products|] == products;
    ExpandLength(products);
  }

  // ---------------------------------------------------------------------------
  // The Best-Fit scan over (free space, orientation) pairs (packing.ts:155-170)
  // ---------------------------------------------------------------------------

  function WasteOf(space: FreeSpace, o: Dims): real {
    SpaceVolume(space) - DimsVolume(o)
  }

  predicate FitWithin(acc: Option<Fit>, spaces: seq<FreeSpace>, orients: seq<Dims>) {
    acc.Some? ==>
      acc.value.spaceIdx < |spaces| && acc.value.orientIdx < |orients|
      && acc.value.orientation == orients[acc.value.orientIdx]
  }

  /** One step of the inner loop: the pair (spaces[si], orients[oi]) replaces
      the best so far only when it fits and wastes strictly less. */
  function Consider(acc: Option<Fit>, spaces: seq<FreeSpace>, si: nat, orients: seq<Dims>, oi: nat, tol: real): Option<Fit>
    requires si < |spaces| && oi < |orients|
  {
    if FitsInSpace(orients[oi], spaces[si], tol) then
      var waste := WasteOf(spaces[si], orients[oi]);
      if acc.None? || waste < acc.value.wasteVolume then Some(Fit(si, oi, orients[oi], waste)) else acc
    else acc
  }

  /** The inner loop over the orientations, from `oi` on. */
  function ScanOrientations(spaces: seq<FreeSpace>, si: nat, orients: seq<Dims>, oi: nat, acc: Option<Fit>, tol: real): (r: Option<Fit>)
    requires si < |spaces| && oi <= |orients|
    ensures FitWithin(acc, spaces, orients) ==> FitWithin(r, spaces, orients)
    decreases |orients| - oi
  {
    if oi == |orients| then acc
    else ScanOrientations(spaces, si, orients, oi + 1, Consider(acc, spaces, si, orients, oi, tol), tol)
  }

  /** The outer loop over the free spaces, from `si` on. */
  function ScanSpaces(spaces: seq<FreeSpace>, si: nat, orients: seq<Dims>, acc: Option<Fit>, tol: real): (r: Option<Fit>)
    requires si <= |spaces|
    ensures FitWithin(acc, spaces, orients) ==> FitWithin(r, spaces, orients)
    decreases |spaces| - si
  {
    if si == |spaces| then acc
    else ScanSpaces(spaces, si + 1, orients, ScanOrientations(spaces, si, orients, 0, acc, tol), tol)
  }

  function BestFitOf(spaces: seq<FreeSpace>, orients: seq<Dims>, tol: real): (r: Option<Fit>)
    ensures FitWithin(r, spaces, orients)
  {
    ScanSpaces(spaces, 0, orients, None, tol)
  }

  /** (i, j) comes before (si, oi) in scan order. */
  ghost predicate Precedes(i: int, j: int, si: int, oi: int) {
    i < si || (i == si && j < oi)
  }

  ghost predicate FittingPair(spaces: seq<FreeSpace>, orients: seq<Dims>, i: int, j: int, tol: real) {
    0 <= i < |spaces| && 0 <= j < |orients| && FitsInSpace(orients[j], spaces[i], tol)
  }

  /** `acc` is what the scan must hold once every pair before (si, oi) has
      been considered: nothing if no such pair fits, otherwise a fitting pair
      of least waste that no earlier fitting pair ties. */
  ghost predicate BestBefore(spaces: seq<FreeSpace>, orients: seq<Dims>, acc: Option<Fit>, si: int, oi: int, tol: real) {
    match acc
    case None =>
      forall i, j :: Precedes(i, j, si, oi) ==> !FittingPair(spaces, orients, i, j, tol)
    case Some(f) =>
      && Precedes(f.spaceIdx, f.orientIdx, si, oi)
      && FittingPair(spaces, orients, f.spaceIdx, f.orientIdx, tol)
      && f.orientation == orients[f.orientIdx]
      && f.wasteVolume == WasteOf(spaces[f.spaceIdx], f.orientation)
      && (forall i, j :: Precedes(i, j, si, oi) && FittingPair(spaces, orients, i, j, tol) ==>
            f.wasteVolume <= WasteOf(spaces[i], orients[j]))
      && (forall i, j :: Precedes(i, j, f.spaceIdx, f.orientIdx) && FittingPair(spaces, orients, i, j, tol) ==>
            f.wasteVolume < WasteOf(spaces[i], orients[j]))
  }

  lemma PrecedesNext(si: int, oi: int)
    ensures forall i, j :: Precedes(i, j, si, oi + 1) <==> Precedes(i, j, si, oi) || (i == si && j == oi)
  {
  }

  lemma ConsiderBest(spaces: seq<FreeSpace>, si: nat, orients: seq<Dims>, oi: nat, acc: Option<Fit>, tol: real)
    requires si < |spaces| && oi < |orients|
    requires BestBefore(spaces, orients, acc, si, oi, tol)
    ensures BestBefore(spaces, orients, Consider(acc, spaces, si, orients, oi, tol), si, oi + 1, tol)
  {
    if !FitsInSpace(orients[oi], spaces[si], tol) {
      ConsiderSkipped(spaces, si, orients, oi, acc, tol);
    } else if acc.None? || WasteOf(spaces[si], orients[oi]) < acc.value.wasteVolume {
      ConsiderTaken(spaces, si, orients, oi, acc, tol);
    } else {
      ConsiderKept(spaces, si, orients, oi, acc, tol);
    }
  }

  lemma ConsiderSkipped(spaces: seq<FreeSpace>, si: nat, orients: seq<Dims>, oi: nat, acc: Option<Fit>, tol: real)
    requires si < |spaces| && oi < |orients|
    requires !FitsInSpace(orients[oi], spaces[si], tol)
    requires BestBefore(spaces, orients, acc, si, oi, tol)
    ensures BestBefore(spaces, orients, acc, si, oi + 1, tol)
  {
    PrecedesNext(si, oi);
  }

  lemma ConsiderTaken(spaces: seq<FreeSpace>, si: nat, orients: seq<Dims>, oi: nat, acc: Option<Fit>, tol: real)
    requires si < |spaces| && oi < |orients|
    requires FitsInSpace(orients[oi], spaces[si], tol)
    requires acc.None? || WasteOf(spaces[si], orients[oi]) < acc.value.wasteVolume
    requires BestBefore(spaces, orients, acc, si, oi, tol)
    ensures BestBefore(spaces, orients, Some(Fit(si, oi, orients[oi], WasteOf(spaces[si], orients[oi]))), si, oi + 1, tol)
  {
    PrecedesNext(si, oi);
  }

  lemma ConsiderKept(spaces: seq<FreeSpace>, si: nat, orients: seq<Dims>, oi: nat, acc: Option<Fit>, tol: real)
    requires si < |spaces| && oi < |orients|
    requires FitsInSpace(orients[oi], spaces[si], tol)
    requires acc.Some? && WasteOf(spaces[si], orients[oi]) >= acc.value.wasteVolume
    requires BestBefore(spaces, orients, acc, si, oi, tol)
    ensures BestBefore(spaces, orients, acc, si, oi + 1, tol)
  {
    PrecedesNext(si, oi);
  }

  lemma {:induction false} ScanOrientationsBest(spaces: seq<FreeSpace>, si: nat, orients: seq<Dims>, oi: nat, acc: Option<Fit>, tol: real)
    requires si < |spaces| && oi <= |orients|
    requires BestBefore(spaces, orients, acc, si, oi, tol)
    ensures BestBefore(spaces, orients, ScanOrientations(spaces, si, orients, oi, acc, tol), si + 1, 0, tol)
    decreases |orients| - oi
  {
    if oi < |orients| {
      ConsiderBest(spaces, si, orients, oi, acc, tol);
      ScanOrientationsBest(spaces, si, orients, oi + 1, Consider(acc, spaces, si, orients, oi, tol), tol);
    } else {
      RowDone(spaces, si, orients, acc, tol);
    }
  }

  lemma RowDone(spaces: seq<FreeSpace>, si: nat, orients: seq<Dims>, acc: Option<Fit>, tol: real)
    requires BestBefore(spaces, orients, acc, si, |orients|, tol)
    ensures BestBefore(spaces, orients, acc, si + 1, 0, tol)
  {
    assert forall i, j :: FittingPair(spaces, orients, i, j, tol) ==>
      (Precedes(i, j, si + 1, 0) <==> Precedes(i, j, si, |orients|));
  }

  lemma {:induction false} ScanSpacesBest(spaces: seq<FreeSpace>, si: nat, orients: seq<Dims>, acc: Option<Fit>, tol: real)
    requires si <= |spaces|
    requires BestBefore(spaces, orients, acc, si, 0, tol)
    ensures BestBefore(spaces, orients, ScanSpaces(spaces, si, orients, acc, tol), |spaces|, 0, tol)
    decreases |spaces| - si
  {
    if si < |spaces| {
      ScanOrientationsBest(spaces, si, orients, 0, acc, tol);
      ScanSpacesBest(spaces, si + 1, orients, ScanOrientations(spaces, si, orients, 0, acc, tol), tol);
    }
  }

  /** No orientation fits in any free space. */
  ghost predicate NoFit(spaces: seq<FreeSpace>, orients: seq<Dims>, tol: real) {
    forall i, j :: !FittingPair(spaces, orients, i, j, tol)
  }

  /** The Best-Fit rule: `f` names a fitting (space, orientation) pair of
      minimum waste, and no fitting pair earlier in scan order (spaces first,
      then orientations) wastes as little. */
  ghost predicate IsBestFit(spaces: seq<FreeSpace>, orients: seq<Dims>, f: Fit, tol: real) {
    && FittingPair(spaces, orients, f.spaceIdx, f.orientIdx, tol)
    && f.orientation == orients[f.orientIdx]
    && f.wasteVolume == WasteOf(spaces[f.spaceIdx], f.orientation)
    && (forall i, j :: FittingPair(spaces, orients, i, j, tol) ==>
          f.wasteVolume <= WasteOf(spaces[i], orients[j]))
    && (forall i, j :: FittingPair(spaces, orients, i, j, tol) && Precedes(i, j, f.spaceIdx, f.orientIdx) ==>
          f.wasteVolume < WasteOf(spaces[i], orients[j]))
  }

  /** The scan finds nothing exactly when nothing fits, and otherwise the
      best fit; a later pair of equal waste never replaces an earlier one. */
  lemma BestFitOfIsBest(spaces: seq<FreeSpace>, orients: seq<Dims>, tol: real)
    ensures BestFitOf(spaces, orients, tol).None? <==> NoFit(spaces, orients, tol)
    ensures BestFitOf(spaces, orients, tol).Some? ==> IsBestFit(spaces, orients, BestFitOf(spaces, orients, tol).value, tol)
  {
    ScanSpacesBest(spaces, 0, orients, None, tol);
    var b := BestFitOf(spaces, orients, tol);
    assert forall i, j :: FittingPair(spaces, orients, i, j, tol) ==> Precedes(i, j, |spaces|, 0);
    if b.Some? {
      BestBeforeEnd(spaces, orients, b.value, tol);
    }
  }

  lemma BestBeforeEnd(spaces: seq<FreeSpace>, orients: seq<Dims>, f: Fit, tol: real)
    requires BestBefore(spaces, orients, Some(f), |spaces|, 0, tol)
    requires forall i, j :: FittingPair(spaces, orients, i, j, tol) ==> Precedes(i, j, |spaces|, 0)
    ensures IsBestFit(spaces, orients, f, tol)
  {
  }

  /** The nested loops of tryPack that look for the best (space, orientation). */
  method FindBestFit(freeSpaces: seq<FreeSpace>, orientations: seq<Dims>) returns (bestFit: Option<Fit>)
    ensures bestFit == BestFitOf(freeSpaces, orientations, Tolerance)
    ensures bestFit.None? <==> NoFit(freeSpaces, orientations, Tolerance)
    ensures bestFit.Some? ==> IsBestFit(freeSpaces, orientations, bestFit.value, Tolerance)
  {
    bestFit := None;
    for si := 0 to |freeSpaces|
      invariant ScanSpaces(freeSpaces, si, orientations, bestFit, Tolerance) == BestFitOf(freeSpaces, orientations, Tolerance)
    {
      var space := freeSpaces[si];
      for oi := 0 to |orientations|
        invariant ScanSpaces(freeSpaces, si + 1, orientations,
                    ScanOrientations(freeSpaces, si, orientations, oi, bestFit, Tolerance), Tolerance)
                  == BestFitOf(freeSpaces, orientations, Tolerance)
      {
        ghost var prev := bestFit;
        var orient := orientations[oi];
        if FitsInSpace(orient, space, Tolerance) {
          var spaceVol := SpaceVolume(space);
          var itemVol := DimsVolume(orient);
          var waste := spaceVol - itemVol;
          assert waste == WasteOf(space, orient);
          if bestFit.None? || waste < bestFit.value.wasteVolume {
            bestFit := Some(Fit(si, oi, orient, waste));
          }
        }
        assert bestFit == Consider(prev, freeSpaces, si, orientations, oi, Tolerance);
      }
    }
    BestFitOfIsBest(freeSpaces, orientations, Tolerance);
  }

  // ---------------------------------------------------------------------------
  // tryPack (packing.ts:121-204)
  // ---------------------------------------------------------------------------

  /** The box less the padding on both sides of every axis. */
  function Padded(boxDims: Dims, padding: real): Dims {
    Dims(boxDims.length - padding * 2.0, boxDims.width - padding * 2.0, boxDims.height - padding * 2.0)
  }

  predicate HasUsableInterior(boxDims: Dims, padding: real) {
    PositiveDims(Padded(boxDims, padding))
  }

  function Interior(eff: Dims): FreeSpace {
    FreeSpace(0.0, 0.0, 0.0, eff.length, eff.width, eff.height)
  }

  /** The units in packing order: descending volume, stable. */
  function SortedUnits(products: seq<Product>): seq<Item> {
    SortBy(Expand(products), NegItemVolume)
  }

  /** The placement of `item` in orientation `o` at the origin of `space`,
      shifted by the padding into box coordinates. */
  function PlaceAt(item: Item, space: FreeSpace, o: Dims, padding: real): PlacedItem {
    PlacedItem(item.name, space.x + padding, space.y + padding, space.z + padding, o.length, o.width, o.height)
  }

  /** The free-space list after the entry at `idx` is replaced by `children`
      and the list is re-sorted by ascending volume. */
  function NextFreeSpaces(free: seq<FreeSpace>, idx: nat, children: seq<FreeSpace>): seq<FreeSpace>
    requires idx < |free|
  {
    SortBy(Splice(free, idx, children), SpaceVolume)
  }

  /** The main loop from the current state on: place every unit or stop at
      the first one that fits nowhere. */
  function PlaceAll(items: seq<Item>, free: seq<FreeSpace>, padding: real,
                    placed: seq<PlacedItem>, total: real, tol: real): PackResult
    decreases |items|, 1
  {
    if items == [] then PackResult(true, placed, total)
    else PlaceHead(items, free, padding, placed, total, tol)
  }

  /** One iteration: place the first unit at its best fit, or report failure
      with what has been placed so far. */
  function PlaceHead(items: seq<Item>, free: seq<FreeSpace>, padding: real,
                     placed: seq<PlacedItem>, total: real, tol: real): PackResult
    requires items != []
    decreases |items|, 0
  {
    var best := BestFitOf(free, Orientations(items[0].dims), tol);
    if best.None? then PackResult(false, placed, total)
    else
      var f := best.value;
      var space := free[f.spaceIdx];
      PlaceAll(items[1..], NextFreeSpaces(free, f.spaceIdx, SplitSpace(space, f.orientation, tol)), padding,
               placed + [PlaceAt(items[0], space, f.orientation, padding)],
               total + DimsVolume(f.orientation), tol)
  }

  function Pack(products: seq<Product>, boxDims: Dims, padding: real, tol: real): PackResult {
    var eff := Padded(boxDims, padding);
    if eff.length <= 0.0 || eff.width <= 0.0 || eff.height <= 0.0 then PackResult(false, [], 0.0)
    else PlaceAll(SortedUnits(products), [Interior(eff)], padding, [], 0.0, tol)
  }

  /** After each placement the free-space list is ascending by volume and holds
      exactly the old entries less the used one plus its split children. */
  lemma NextFreeSpacesFacts(free: seq<FreeSpace>, idx: nat, children: seq<FreeSpace>)
    requires idx < |free|
    ensures forall i, j :: 0 <= i < j < |NextFreeSpaces(free, idx, children)| ==>
              SpaceVolume(NextFreeSpaces(free, idx, children)[i]) <= SpaceVolume(NextFreeSpaces(free, idx, children)[j])
    ensures multiset(NextFreeSpaces(free, idx, children))
              == multiset(free) - multiset{free[idx]} + multiset(children)
    ensures SumBy(NextFreeSpaces(free, idx, children), SpaceVolume)
              == SumBy(free, SpaceVolume) - SpaceVolume(free[idx]) + SumBy(children, SpaceVolume)
  {
    var spliced := Splice(free, idx, children);
    SortBySorted(spliced, SpaceVolume);
    SortByMultiset(spliced, SpaceVolume);
    SumBySortBy(spliced, SpaceVolume, SpaceVolume);
    assert free == free[..idx] + [free[idx]] + free[idx + 1..];
    SumByConcat(free[..idx] + [free[idx]], free[idx + 1..], SpaceVolume);
    SumByConcat(free[..idx], [free[idx]], SpaceVolume);
    SumByConcat(free[..idx] + children, free[idx + 1..], SpaceVolume);
    SumByConcat(free[..idx], children, SpaceVolume);
    assert SumBy([free[idx]], SpaceVolume) == SpaceVolume(free[idx]) + SumBy([free[idx]][1..], SpaceVolume);
    assert [free[idx]][1..] == [];
  }

  /** Units are packed in non-increasing volume order, units of equal volume in
      expansion order, and none is lost or duplicated. */
  lemma SortedUnitsOrder(products: seq<Product>)
    ensures multiset(SortedUnits(products)) == multiset(Expand(products))
    ensures forall i, j :: 0 <= i < j < |SortedUnits(products)| ==>
              ItemVolume(SortedUnits(products)[i]) >= ItemVolume(SortedUnits(products)[j])
    ensures forall k :: KeyClass(SortedUnits(products), NegItemVolume, k) == KeyClass(Expand(products), NegItemVolume, k)
  {
    SortBySorted(Expand(products), NegItemVolume);
    SortByMultiset(Expand(products), NegItemVolume);
    forall k ensures KeyClass(SortedUnits(products), NegItemVolume, k) == KeyClass(Expand(products), NegItemVolume, k) {
      SortByStable(Expand(products), NegItemVolume, k);
    }
  }

  /** One run of the main loop keeps the placements made so far, places at
      most one unit per remaining item, and succeeds exactly when it places
      all of them. */
  lemma {:induction false} PlaceAllShape(items: seq<Item>, free: seq<FreeSpace>, padding: real,
                                         placed: seq<PlacedItem>, total: real, tol: real)
    ensures Extends(PlaceAll(items, free, padding, placed, total, tol), placed, |items|)
    decreases |items|
  {
    if items != [] {
      var best := BestFitOf(free, Orientations(items[0].dims), tol);
      if best.Some? {
        var f := best.value;
        var space := free[f.spaceIdx];
        var p := PlaceAt(items[0], space, f.orientation, padding);
        var free' := NextFreeSpaces(free, f.spaceIdx, SplitSpace(space, f.orientation, tol));
        PlaceAllUnfold(items, free, padding, placed, total, f, free', placed + [p], total + DimsVolume(f.orientation), tol);
        PlaceAllShape(items[1..], free', padding, placed + [p], total + DimsVolume(f.orientation), tol);
        ExtendsStep(PlaceAll(items[1..], free', padding, placed + [p], total + DimsVolume(f.orientation), tol),
                    placed, p, |items|);
      }
    }
  }

  /** `r` keeps `placed` as a prefix and adds at most `n` placements, all `n`
      exactly when it fits. */
  ghost predicate Extends(r: PackResult, placed: seq<PlacedItem>, n: nat) {
    && |placed| <= |r.placed| <= |placed| + n
    && r.placed[..|placed|] == placed
    && (r.fits <==> |r.placed| == |placed| + n)
  }

  lemma ExtendsStep(r: PackResult, placed: seq<PlacedItem>, p: PlacedItem, n: nat)
    requires n >= 1
    requires Extends(r, placed + [p], n - 1)
    ensures Extends(r, placed, n)
  {
    assert r.placed[..|placed|] == r.placed[..|placed| + 1][..|placed|];
  }

  /** The running volume is the sum of the volumes of the placements. */
  lemma {:induction false} PlaceAllVolume(items: seq<Item>, free: seq<FreeSpace>, padding: real,
                                          placed: seq<PlacedItem>, total: real, tol: real)
    requires total == SumBy(placed, PlacedVolume)
    ensures VolumeMatches(PlaceAll(items, free, padding, placed, total, tol))
    decreases |items|
  {
    if items != [] {
      var best := BestFitOf(free, Orientations(items[0].dims), tol);
      if best.Some? {
        var f := best.value;
        var space := free[f.spaceIdx];
        var p := PlaceAt(items[0], space, f.orientation, padding);
        var free' := NextFreeSpaces(free, f.spaceIdx, SplitSpace(space, f.orientation, tol));
        SumBySnoc(placed, p, PlacedVolume);
        PlaceAtVolume(items[0], space, f.orientation, padding);
        PlaceAllUnfold(items, free, padding, placed, total, f, free', placed + [p], total + DimsVolume(f.orientation), tol);
        PlaceAllVolume(items[1..], free', padding, placed + [p], total + DimsVolume(f.orientation), tol);
      }
    }
  }

  /** The reported volume is the sum of the placed volumes. */
  ghost predicate VolumeMatches(r: PackResult) {
    r.totalVolume == SumBy(r.placed, PlacedVolume)
  }

  lemma PlaceAtVolume(item: Item, space: FreeSpace, o: Dims, padding: real)
    ensures PlacedVolume(PlaceAt(item, space, o, padding)) == DimsVolume(o)
  {
  }

  /** A placement records the unit `it`: its name, a permutation of its
      dimensions, and so its volume. */
  ghost predicate PlacementOf(q: PlacedItem, it: Item) {
    && q.name == it.name
    && IsPermutationOf(PlacedExtents(q), it.dims)
    && PlacedVolume(q) == ItemVolume(it)
  }

  lemma OrientationMember(d: Dims, o: Dims)
    requires o in Orientations(d)
    ensures o in Candidates(d)
  {
    DedupFromFacts(Candidates(d), {});
  }

  lemma PlaceAtRecordsUnit(item: Item, space: FreeSpace, o: Dims, padding: real)
    requires o in Orientations(item.dims)
    ensures PlacementOf(PlaceAt(item, space, o, padding), item)
  {
    OrientationMember(item.dims, o);
    CandidateFacts(item.dims, o);
  }

  /** The placements in `out` after the first |placed| record `items`, in order. */
  ghost predicate RecordsUnits(out: seq<PlacedItem>, placed: seq<PlacedItem>, items: seq<Item>) {
    forall k :: |placed| <= k < |out| && k - |placed| < |items| ==> PlacementOf(out[k], items[k - |placed|])
  }

  /** Each new placement records the next item. */
  lemma {:induction false} PlaceAllUnits(items: seq<Item>, free: seq<FreeSpace>, padding: real,
                                         placed: seq<PlacedItem>, total: real, tol: real)
    ensures RecordsUnits(PlaceAll(items, free, padding, placed, total, tol).placed, placed, items)
    decreases |items|
  {
    if items != [] {
      var best := BestFitOf(free, Orientations(items[0].dims), tol);
      if best.Some? {
        var f := best.value;
        var p := PlaceAt(items[0], free[f.spaceIdx], f.orientation, padding);
        var free' := NextFreeSpaces(free, f.spaceIdx, SplitSpace(free[f.spaceIdx], f.orientation, tol));
        var total' := total + DimsVolume(f.orientation);
        PlaceAllUnfold(items, free, padding, placed, total, f, free', placed + [p], total', tol);
        PlaceAllUnits(items[1..], free', padding, placed + [p], total', tol);
        PlaceAllShape(items[1..], free', padding, placed + [p], total', tol);
        UnitsPlaceFirst(items, free, padding, placed, tol, f, PlaceAll(items[1..], free', padding, placed + [p], total', tol).placed);
      }
    }
  }

  /** The first unit's placement followed by a run that records the rest
      records all of `items`. */
  lemma UnitsPlaceFirst(items: seq<Item>, free: seq<FreeSpace>, padding: real,
                        placed: seq<PlacedItem>, tol: real, f: Fit, out: seq<PlacedItem>)
    requires items != []
    requires BestFitOf(free, Orientations(items[0].dims), tol) == Some(f)
    requires f.spaceIdx < |free|
    requires |placed + [PlaceAt(items[0], free[f.spaceIdx], f.orientation, padding)]| <= |out|
    requires out[..|placed + [PlaceAt(items[0], free[f.spaceIdx], f.orientation, padding)]|]
          == placed + [PlaceAt(items[0], free[f.spaceIdx], f.orientation, padding)]
    requires RecordsUnits(out, placed + [PlaceAt(items[0], free[f.spaceIdx], f.orientation, padding)], items[1..])
    ensures RecordsUnits(out, placed, items)
  {
    var p := PlaceAt(items[0], free[f.spaceIdx], f.orientation, padding);
    PlaceAtRecordsUnit(items[0], free[f.spaceIdx], f.orientation, padding);
    ExtendPlacements(items, placed, p, out);
  }

  lemma ExtendPlacements(items: seq<Item>, placed: seq<PlacedItem>, p: PlacedItem, out: seq<PlacedItem>)
    requires items != []
    requires |placed + [p]| <= |out| && out[..|placed + [p]|] == placed + [p]
    requires PlacementOf(p, items[0])
    requires RecordsUnits(out, placed + [p], items[1..])
    ensures RecordsUnits(out, placed, items)
  {
    forall k | |placed| <= k < |out| && k - |placed| < |items|
      ensures PlacementOf(out[k], items[k - |placed|])
    {
      if k == |placed| {
        assert out[k] == out[..|placed + [p]|][k] == p;
      } else {
        assert items[1..][k - |placed + [p]|] == items[k - |placed|];
      }
    }
  }

  /** tryPack's fail-fast on the padding, and the count of placements: at most
      one per unit, all of them exactly when the products fit. */
  lemma PackShape(products: seq<Product>, boxDims: Dims, padding: real, tol: real)
    ensures |SortedUnits(products)| == TotalQuantity(products)
    ensures !HasUsableInterior(boxDims, padding) ==> Pack(products, boxDims, padding, tol) == PackResult(false, [], 0.0)
    ensures |Pack(products, boxDims, padding, tol).placed| <= TotalQuantity(products)
    ensures HasUsableInterior(boxDims, padding) ==>
              (Pack(products, boxDims, padding, tol).fits <==>
               |Pack(products, boxDims, padding, tol).placed| == TotalQuantity(products))
  {
    ExpandLength(products);
    if HasUsableInterior(boxDims, padding) {
      PlaceAllShape(SortedUnits(products), [Interior(Padded(boxDims, padding))], padding, [], 0.0, tol);
    }
  }

  /** The i-th placement records the i-th unit in packing order. */
  lemma PackUnits(products: seq<Product>, boxDims: Dims, padding: real, tol: real)
    ensures RecordsUnits(Pack(products, boxDims, padding, tol).placed, [], SortedUnits(products))
  {
    if HasUsableInterior(boxDims, padding) {
      PackStart(products, boxDims, padding, tol);
      PlaceAllUnits(SortedUnits(products), [Interior(Padded(boxDims, padding))], padding, [], 0.0, tol);
    }
  }

  /** With a usable interior, tryPack is the main loop from one free space,
      the whole interior, and nothing placed. */
  lemma PackStart(products: seq<Product>, boxDims: Dims, padding: real, tol: real)
    requires HasUsableInterior(boxDims, padding)
    ensures Pack(products, boxDims, padding, tol)
         == PlaceAll(SortedUnits(products), [Interior(Padded(boxDims, padding))], padding, [], 0.0, tol)
  {
  }

  /** Placements that record `units` one for one have the units' volume. */
  lemma RecordedVolume(out: seq<PlacedItem>, units: seq<Item>)
    requires |out| == |units|
    requires RecordsUnits(out, [], units)
    ensures SumBy(out, PlacedVolume) == SumBy(units, ItemVolume)
  {
    forall k | 0 <= k < |out| ensures PlacedVolume(out[k]) == ItemVolume(units[k]) {
      assert PlacementOf(out[k], units[k - 0]);
    }
    SumByPointwise(out, PlacedVolume, units, ItemVolume);
  }

  /** The reported volume is the sum of the placed volumes, and on success the
      volume calculateTotalVolume computes for the products. */
  lemma PackVolume(products: seq<Product>, boxDims: Dims, padding: real, tol: real)
    ensures Pack(products, boxDims, padding, tol).totalVolume == SumBy(Pack(products, boxDims, padding, tol).placed, PlacedVolume)
    ensures Pack(products, boxDims, padding, tol).fits ==>
              Pack(products, boxDims, padding, tol).totalVolume == CalculateTotalVolume(products)
  {
    if HasUsableInterior(boxDims, padding) {
      var units := SortedUnits(products);
      var init := [Interior(Padded(boxDims, padding))];
      var r := PlaceAll(units, init, padding, [], 0.0, tol);
      PlaceAllVolume(units, init, padding, [], 0.0, tol);
      if r.fits {
        PlaceAllShape(units, init, padding, [], 0.0, tol);
        PlaceAllUnits(units, init, padding, [], 0.0, tol);
        RecordedVolume(r.placed, units);
        SumBySortBy(Expand(products), NegItemVolume, ItemVolume);
        ExpandVolume(products);
      }
    }
  }

  // ---------------------------------------------------------------------------
  // The exact-arithmetic case
  // ---------------------------------------------------------------------------

  /** The placement lies within the box less the padding on every side. */
  ghost predicate PlacedInBox(p: PlacedItem, boxDims: Dims, padding: real) {
    && padding <= p.x && p.x + p.length <= boxDims.length - padding
    && padding <= p.y && p.y + p.width <= boxDims.width - padding
    && padding <= p.z && p.z + p.height <= boxDims.height - padding
  }

  /** Every free space is a non-empty cuboid of the interior, and the placed
      volume plus the free volume does not exceed the interior's volume. */
  ghost predicate ExactInvariant(free: seq<FreeSpace>, total: real, eff: Dims) {
    && (forall s :: s in free ==> PositiveSpace(s) && Inside(s, Interior(eff)))
    && total + SumBy(free, SpaceVolume) <= DimsVolume(eff)
  }

  lemma FreeVolumeNonnegative(free: seq<FreeSpace>)
    requires forall s :: s in free ==> PositiveSpace(s)
    ensures SumBy(free, SpaceVolume) >= 0.0
  {
    forall i | 0 <= i < |free| ensures SpaceVolume(free[i]) >= 0.0 {
      assert free[i] in free;
      MulPositive(free[i].length, free[i].width, free[i].height);
    }
    SumByNonnegative(free, SpaceVolume);
  }

  /** Placing a positive unit exactly inside a free space keeps the invariant
      and puts the unit inside the padded interior. */
  lemma ExactStep(free: seq<FreeSpace>, idx: nat, item: Item, o: Dims, padding: real, total: real, boxDims: Dims)
    requires idx < |free|
    requires PositiveDims(o) && FitsInSpace(o, free[idx], 0.0)
    requires ExactInvariant(free, total, Padded(boxDims, padding))
    ensures ExactInvariant(NextFreeSpaces(free, idx, SplitSpace(free[idx], o, 0.0)), total + DimsVolume(o), Padded(boxDims, padding))
    ensures PlacedInBox(PlaceAt(item, free[idx], o, padding), boxDims, padding)
  {
    var eff := Padded(boxDims, padding);
    var space := free[idx];
    var children := SplitSpace(space, o, 0.0);
    var free' := NextFreeSpaces(free, idx, children);
    assert space in free;
    SplitSpaceGeometry(space, o, 0.0);
    SplitSpaceVolume(space, o, 0.0);
    NextFreeSpacesFacts(free, idx, children);
    forall s | s in free' ensures PositiveSpace(s) && Inside(s, Interior(eff)) {
      assert s in multiset(free');
      assert s in multiset(free) || s in multiset(children);
    }
  }

  lemma {:induction false} PlaceAllExact(items: seq<Item>, free: seq<FreeSpace>, padding: real,
                                         placed: seq<PlacedItem>, total: real, boxDims: Dims)
    requires forall it :: it in items ==> PositiveDims(it.dims)
    requires ExactInvariant(free, total, Padded(boxDims, padding))
    requires forall p :: p in placed ==> PlacedInBox(p, boxDims, padding)
    ensures PlaceAll(items, free, padding, placed, total, 0.0).totalVolume <= DimsVolume(Padded(boxDims, padding))
    ensures forall p :: p in PlaceAll(items, free, padding, placed, total, 0.0).placed ==> PlacedInBox(p, boxDims, padding)
    decreases |items|
  {
    FreeVolumeNonnegative(free);
    if items != [] {
      var best := BestFitOf(free, Orientations(items[0].dims), 0.0);
      if best.Some? {
        var f := best.value;
        ExactPlaceFirst(items, free, padding, placed, total, boxDims, f);
        PlaceAllExact(items[1..], NextFreeSpaces(free, f.spaceIdx, SplitSpace(free[f.spaceIdx], f.orientation, 0.0)),
                      padding, placed + [PlaceAt(items[0], free[f.spaceIdx], f.orientation, padding)],
                      total + DimsVolume(f.orientation), boxDims);
      }
    }
  }

  /** Placing the first unit at its best fit keeps the hypotheses of
      PlaceAllExact for the rest of the run. */
  lemma ExactPlaceFirst(items: seq<Item>, free: seq<FreeSpace>, padding: real,
                        placed: seq<PlacedItem>, total: real, boxDims: Dims, f: Fit)
    requires items != []
    requires forall it :: it in items ==> PositiveDims(it.dims)
    requires ExactInvariant(free, total, Padded(boxDims, padding))
    requires forall p :: p in placed ==> PlacedInBox(p, boxDims, padding)
    requires BestFitOf(free, Orientations(items[0].dims), 0.0) == Some(f)
    ensures f.spaceIdx < |free|
    ensures forall it :: it in items[1..] ==> PositiveDims(it.dims)
    ensures ExactInvariant(NextFreeSpaces(free, f.spaceIdx, SplitSpace(free[f.spaceIdx], f.orientation, 0.0)),
                           total + DimsVolume(f.orientation), Padded(boxDims, padding))
    ensures forall q :: q in placed + [PlaceAt(items[0], free[f.spaceIdx], f.orientation, padding)] ==>
              PlacedInBox(q, boxDims, padding)
  {
    var orients := Orientations(items[0].dims);
    var o := f.orientation;
    var p := PlaceAt(items[0], free[f.spaceIdx], o, padding);
    BestFitOfIsBest(free, orients, 0.0);
    assert items[0] in items;
    OrientationMember(items[0].dims, o);
    CandidateFacts(items[0].dims, o);
    ExactStep(free, f.spaceIdx, items[0], o, padding, total, boxDims);
    forall q | q in placed + [p] ensures PlacedInBox(q, boxDims, padding) {
      if q != p {
        assert q in placed;
      }
    }
    assert forall it :: it in items[1..] ==> it in items;
  }

  lemma PaddedVolumeAtMostBox(boxDims: Dims, padding: real)
    requires padding >= 0.0 && HasUsableInterior(boxDims, padding)
    ensures 0.0 < DimsVolume(Padded(boxDims, padding)) <= DimsVolume(boxDims)
  {
    var e := Padded(boxDims, padding);
    MulPositive(e.length, e.width, e.height);
    assert e.length * e.width <= boxDims.length * e.width;
    assert boxDims.length * e.width <= boxDims.length * boxDims.width;
    assert e.length * e.width * e.height <= boxDims.length * boxDims.width * e.height;
    assert boxDims.length * boxDims.width * e.height <= boxDims.length * boxDims.width * boxDims.height;
  }

  lemma SortedUnitsPositive(products: seq<Product>)
    requires forall p :: p in products ==> PositiveDims(ProductDims(p))
    ensures forall it :: it in SortedUnits(products) ==> PositiveDims(it.dims)
  {
    ExpandPositive(products);
    SortByMultiset(Expand(products), NegItemVolume);
    forall it | it in SortedUnits(products) ensures PositiveDims(it.dims) {
      assert it in multiset(Expand(products));
    }
  }

  lemma InitialInvariant(eff: Dims)
    requires PositiveDims(eff)
    ensures ExactInvariant([Interior(eff)], 0.0, eff)
  {
    assert SumBy([Interior(eff)], SpaceVolume) == SpaceVolume(Interior(eff)) + SumBy([Interior(eff)][1..], SpaceVolume);
    assert [Interior(eff)][1..] == [];
  }

  lemma RatioAtMostOne(t: real, v: real)
    requires 0.0 < v && t <= v
    ensures t / v <= 1.0
  {
    assert t / v * v == t;
  }

  /** With no fit tolerance and a non-negative padding, every placement lies in
      the padded interior and the packed volume never exceeds the box volume,
      so the utilization of a successful pack is at most 1. */
  lemma PackExactWithinBox(products: seq<Product>, boxDims: Dims, padding: real)
    requires padding >= 0.0
    requires forall p :: p in products ==> PositiveDims(ProductDims(p))
    ensures forall p :: p in Pack(products, boxDims, padding, 0.0).placed ==> PlacedInBox(p, boxDims, padding)
    ensures HasUsableInterior(boxDims, padding) ==>
              Pack(products, boxDims, padding, 0.0).totalVolume <= DimsVolume(Padded(boxDims, padding)) <= DimsVolume(boxDims)
    ensures Pack(products, boxDims, padding, 0.0).fits ==>
              DimsVolume(boxDims) > 0.0 &&
              Pack(products, boxDims, padding, 0.0).totalVolume / DimsVolume(boxDims) <= 1.0
  {
    if HasUsableInterior(boxDims, padding) {
      var eff := Padded(boxDims, padding);
      SortedUnitsPositive(products);
      InitialInvariant(eff);
      PlaceAllExact(SortedUnits(products), [Interior(eff)], padding, [], 0.0, boxDims);
      PaddedVolumeAtMostBox(boxDims, padding);
      RatioAtMostOne(Pack(products, boxDims, padding, 0.0).totalVolume, DimsVolume(boxDims));
    }
  }

  /** With the source's tolerance, exact arithmetic lets a unit overfill the
      box: a cube of side 10.0005 packs into a 10 x 10 x 10 box with no
      padding, so the packed volume exceeds the box volume. */
  lemma ToleranceAdmitsOverfill()
    ensures Pack([Product("cube", 10.0005, 10.0005, 10.0005, 1.0, 1)], Dims(10.0, 10.0, 10.0), 0.0, Tolerance).fits
    ensures Pack([Product("cube", 10.0005, 10.0005, 10.0005, 1.0, 1)], Dims(10.0, 10.0, 10.0), 0.0, Tolerance).totalVolume
              > DimsVolume(Dims(10.0, 10.0, 10.0))
  {
    var p := Product("cube", 10.0005, 10.0005, 10.0005, 1.0, 1);
    var d := Dims(10.0005, 10.0005, 10.0005);
    var item := Item("cube", d, 1.0);
    assert Units(p) == [item];
    assert Expand([p]) == [item] + Expand([]);
    assert SortedUnits([p]) == [item];
    var cs := Candidates(d);
    assert cs == [d, d, d, d, d, d];
    assert cs[1..] == [d, d, d, d, d] && cs[2..] == [d, d, d, d] && cs[3..] == [d, d, d];
    assert cs[4..] == [d, d] && cs[5..] == [d] && cs[6..] == [];
    assert DedupFrom(cs[6..], {} + {d}) == [];
    assert DedupFrom(cs[5..], {} + {d}) == [];
    assert DedupFrom(cs[4..], {} + {d}) == [];
    assert DedupFrom(cs[3..], {} + {d}) == [];
    assert DedupFrom(cs[2..], {} + {d}) == [];
    assert DedupFrom(cs[1..], {} + {d}) == [];
    assert DedupFrom(cs, {}) == [d] + DedupFrom(cs[1..], {} + {d});
    assert Orientations(d) == [d];
    var eff := Padded(Dims(10.0, 10.0, 10.0), 0.0);
    var space := Interior(eff);
    var waste := WasteOf(space, d);
    assert FitsInSpace(d, space, Tolerance);
    assert Consider(None, [space], 0, [d], 0, Tolerance) == Some(Fit(0, 0, d, waste));
    assert ScanOrientations([space], 0, [d], 1, Some(Fit(0, 0, d, waste)), Tolerance) == Some(Fit(0, 0, d, waste));
    assert ScanOrientations([space], 0, [d], 0, None, Tolerance) == Some(Fit(0, 0, d, waste));
    assert ScanSpaces([space], 1, [d], Some(Fit(0, 0, d, waste)), Tolerance) == Some(Fit(0, 0, d, waste));
    assert BestFitOf([space], [d], Tolerance) == Some(Fit(0, 0, d, waste));
    assert SplitSpace(space, d, Tolerance) == [];
    assert [space][..0] + [] + [space][1..] == [];
    assert NextFreeSpaces([space], 0, []) == [];
    var placed := [PlaceAt(item, space, d, 0.0)];
    assert [item][1..] == [];
    assert PlaceAll([], [], 0.0, [] + placed, 0.0 + DimsVolume(d), Tolerance) == PackResult(true, placed, DimsVolume(d));
    assert PlaceHead([item], [space], 0.0, [], 0.0, Tolerance) == PackResult(true, placed, DimsVolume(d));
    var r := PlaceAll([item], [space], 0.0, [], 0.0, Tolerance);
    assert r == PackResult(true, [PlaceAt(item, space, d, 0.0)], DimsVolume(d));
  }

  /** One iteration of tryPack's loop, in the loop's own terms: the unit at
      `k` goes to its best fit `f` and the rest of the run is unchanged. */
  lemma {:induction false} TryPackStep(items: seq<Item>, k: nat, free: seq<FreeSpace>, padding: real,
                                       placed: seq<PlacedItem>, total: real, f: Fit, target: PackResult,
                                       free': seq<FreeSpace>, placed': seq<PlacedItem>, total': real)
    requires k < |items|
    requires PlaceAll(items[k..], free, padding, placed, total, Tolerance) == target
    requires BestFitOf(free, Orientations(items[k].dims), Tolerance) == Some(f)
    requires f.spaceIdx < |free|
    requires free' == SortBy(Splice(free, f.spaceIdx, SplitSpace(free[f.spaceIdx], f.orientation, Tolerance)), SpaceVolume)
    requires placed' == placed + [PlaceAt(items[k], free[f.spaceIdx], f.orientation, padding)]
    requires total' == total + DimsVolume(f.orientation)
    ensures PlaceAll(items[k + 1..], free', padding, placed', total', Tolerance) == target
  {
    var rest := items[k..];
    assert rest[0] == items[k] && rest[1..] == items[k + 1..];
    PlaceAllUnfold(rest, free, padding, placed, total, f, free', placed', total', Tolerance);
  }

  /** PlaceAll when the first unit has the best fit `f`. */
  lemma PlaceAllUnfold(items: seq<Item>, free: seq<FreeSpace>, padding: real,
                       placed: seq<PlacedItem>, total: real, f: Fit,
                       free': seq<FreeSpace>, placed': seq<PlacedItem>, total': real, tol: real)
    requires items != []
    requires BestFitOf(free, Orientations(items[0].dims), tol) == Some(f)
    requires f.spaceIdx < |free|
    requires free' == SortBy(Splice(free, f.spaceIdx, SplitSpace(free[f.spaceIdx], f.orientation, tol)), SpaceVolume)
    requires placed' == placed + [PlaceAt(items[0], free[f.spaceIdx], f.orientation, padding)]
    requires total' == total + DimsVolume(f.orientation)
    ensures PlaceAll(items, free, padding, placed, total, tol)
         == PlaceAll(items[1..], free', padding, placed', total', tol)
  {
  }

  /** The loop's early return, in the loop's own terms. */
  lemma TryPackStop(items: seq<Item>, k: nat, free: seq<FreeSpace>, padding: real,
                    placed: seq<PlacedItem>, total: real, target: PackResult)
    requires k < |items|
    requires PlaceAll(items[k..], free, padding, placed, total, Tolerance) == target
    requires BestFitOf(free, Orientations(items[k].dims), Tolerance).None?
    ensures target == PackResult(false, placed, total)
  {
    assert items[k..][0] == items[k];
  }

  /** The state tryPack's loop starts from, when the padded box is usable. */
  lemma TryPackStart(products: seq<Product>, boxDims: Dims, padding: real, items: seq<Item>, free: seq<FreeSpace>,
                     target: PackResult)
    requires HasUsableInterior(boxDims, padding)
    requires items == SortBy(Expand(products), NegItemVolume)
    requires free == [FreeSpace(0.0, 0.0, 0.0, boxDims.length - padding * 2.0, boxDims.width - padding * 2.0,
                                boxDims.height - padding * 2.0)]
    requires target == Pack(products, boxDims, padding, Tolerance)
    ensures PlaceAll(items[0..], free, padding, [], 0.0, Tolerance) == target
  {
    assert items == SortedUnits(products) && free == [Interior(Padded(boxDims, padding))];
    assert items[0..] == items;
  }

  method TryPack(products: seq<Product>, boxDims: Dims, padding: real) returns (r: PackResult)
    ensures r == Pack(products, boxDims, padding, Tolerance)
  {
    var effectiveBox := Dims(boxDims.length - padding * 2.0, boxDims.width - padding * 2.0, boxDims.height - padding * 2.0);
    if effectiveBox.length <= 0.0 || effectiveBox.width <= 0.0 || effectiveBox.height <= 0.0 {
      return PackResult(false, [], 0.0);
    }
    var items := ExpandProducts(products);
    items := SortBy(items, NegItemVolume);
    var totalVolume := 0.0;
    var placed: seq<PlacedItem> := [];
    var freeSpaces := [FreeSpace(0.0, 0.0, 0.0, effectiveBox.length, effectiveBox.width, effectiveBox.height)];
    ghost var target := Pack(products, boxDims, padding, Tolerance);
    TryPackStart(products, boxDims, padding, items, freeSpaces, target);
    for k := 0 to |items|
      invariant PlaceAll(items[k..], freeSpaces, padding, placed, totalVolume, Tolerance) == target
    {
      var item := items[k];
      var orientations := GetOrientations(item.dims);
      var bestFit := FindBestFit(freeSpaces, orientations);
      if bestFit.None? {
        TryPackStop(items, k, freeSpaces, padding, placed, totalVolume, target);
        return PackResult(false, placed, totalVolume);
      }
      ghost var (free0, placed0, total0) := (freeSpaces, placed, totalVolume);
      var space := freeSpaces[bestFit.value.spaceIdx];
      var orient := bestFit.value.orientation;
      placed := placed + [PlaceAt(item, space, orient, padding)];
      totalVolume := totalVolume + DimsVolume(orient);
      var newSpaces := SplitSpace(space, orient, Tolerance);
      freeSpaces := Splice(freeSpaces, bestFit.value.spaceIdx, newSpaces);
      freeSpaces := SortBy(freeSpaces, SpaceVolume);
      TryPackStep(items, k, free0, padding, placed0, total0, bestFit.value, target, freeSpaces, placed, totalVolume);
    }
    assert items[|items|..] == [];
    return PackResult(true, placed, totalVolume);
  }
}
