/** Grid value types and the per-grid metadata read from a file. */
module GridTypes {

  /** `VolumeGridType`: the value type of a grid's voxels. */
  datatype GridType =
    | Boolean | Float | Double | Int | Int64 | Mask | String
    | VectorFloat | VectorDouble | VectorInt
    | Unknown

  /** Three-component vector grids. */
  predicate IsVector(t: GridType)
  {
    t.VectorFloat? || t.VectorDouble? || t.VectorInt?
  }

  /** Grids whose values cannot be copied into a dense float buffer at all. */
  predicate HasNoDenseValues(t: GridType)
  {
    t.String? || t.Unknown?
  }

  /**
   * `BKE_volume_grid_channels`: vector grids have three channels, string and
   * unrecognised grids none, every other grid one.
   */
  function Channels(t: GridType): (n: nat)
    ensures n == 3 <==> IsVector(t)
    ensures n == 0 <==> HasNoDenseValues(t)
    ensures n == 1 <==> !IsVector(t) && !HasNoDenseValues(t)
  {
    match t
    case Boolean => 1
    case Float => 1
    case Double => 1
    case Int => 1
    case Int64 => 1
    case Mask => 1
    case String => 0
    case VectorFloat => 3
    case VectorDouble => 3
    case VectorInt => 3
    case Unknown => 0
  }

  /** What enumerating a file's grids tells about one grid, without reading its tree. */
  datatype GridMeta = GridMeta(name: string, gridType: GridType)

}
