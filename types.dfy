/**
 * The records shared by the server and the client (shared/types.ts).
 * JavaScript numbers are modelled as exact reals, a product quantity as a
 * natural number and strings as sequences of characters.
 */
module Types {

  /** A catalog box: its outer dimensions, an optional weight limit
      (0 means unlimited), a cost and whether it takes part in recommendation. */
  datatype Box = Box(
    id: string,
    name: string,
    length: real,
    width: real,
    height: real,
    weightLimit: real,
    cost: real,
    isActive: bool,
    createdAt: string,
    updatedAt: string)

  /** One line of a packing request: a product and how many units of it. */
  datatype Product = Product(
    name: string,
    length: real,
    width: real,
    height: real,
    weight: real,
    quantity: nat)

  /** One unit committed to a position (x, y, z) with the chosen extents. */
  datatype PlacedItem = PlacedItem(
    name: string,
    x: real,
    y: real,
    z: real,
    length: real,
    width: real,
    height: real)

  /** One feasible box in a recommendation. */
  datatype RecommendResult = RecommendResult(
    box: Box,
    utilization: real,
    totalProductVolume: real,
    boxVolume: real,
    fits: bool,
    arrangement: seq<PlacedItem>)

  /** The three extents of an axis-aligned cuboid. */
  datatype Dims = Dims(length: real, width: real, height: real)

  function DimsVolume(d: Dims): real {
    d.length * d.width * d.height
  }

  function BoxDims(b: Box): Dims {
    Dims(b.length, b.width, b.height)
  }

  function BoxVolume(b: Box): real {
    b.length * b.width * b.height
  }

  function ProductDims(p: Product): Dims {
    Dims(p.length, p.width, p.height)
  }

  function PlacedVolume(p: PlacedItem): real {
    p.length * p.width * p.height
  }

  function PlacedExtents(p: PlacedItem): Dims {
    Dims(p.length, p.width, p.height)
  }

  predicate PositiveDims(d: Dims) {
    d.length > 0.0 && d.width > 0.0 && d.height > 0.0
  }

  /** What the request handler checks of every product before the core
      is called (positive dimensions, quantity at least 1). */
  predicate ValidProduct(p: Product) {
    PositiveDims(ProductDims(p)) && p.quantity >= 1
  }
}
