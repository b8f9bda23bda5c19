/**
 * The integer bounds a grid hands to dense voxel export
 * (`BKE_volume_grid_dense_bounds`) and the two consumers that turn them back
 * into an index-space box (`BKE_volume_grid_dense_voxels`) and into a texture
 * placement (`BKE_volume_grid_dense_transform_matrix`). OpenVDB boxes are
 * inclusive with 32-bit signed coordinates; the dense bounds are half-open.
 * The version as written stores them in 64-bit `size_t`, so a negative
 * coordinate wraps around.
 */
module DenseBounds {
  import opened CInt

  const SIZE_T_MODULUS: int := 0x1_0000_0000_0000_0000
  const INT32_MODULUS: int := 0x1_0000_0000
  const INT32_MIN: int := -0x8000_0000

  datatype Coord = Coord(x: int, y: int, z: int)

  /** An OpenVDB `CoordBBox`: inclusive corners. */
  datatype CoordBBox = CoordBBox(min: Coord, max: Coord)

  /** The outcome of a dense-bounds query: whether the grid has active voxels, and the half-open corners. */
  datatype Bounds = Bounds(found: bool, min: Coord, max: Coord)

  predicate IsInt32(v: int)
  {
    INT32_MIN <= v <= INT_MAX
  }

  predicate IsInt32Coord(p: Coord)
  {
    IsInt32(p.x) && IsInt32(p.y) && IsInt32(p.z)
  }

  /** `CoordBBox::empty`: some axis has its maximum below its minimum. */
  predicate IsEmpty(b: CoordBBox)
  {
    b.min.x > b.max.x || b.min.y > b.max.y || b.min.z > b.max.z
  }

  /** Storing a signed value into a `size_t`: reduction modulo 2^64. */
  function ToSizeT(v: int): (r: int)
    ensures 0 <= r < SIZE_T_MODULUS
    ensures -SIZE_T_MODULUS <= v < SIZE_T_MODULUS ==> r == (if v >= 0 then v else v + SIZE_T_MODULUS)
  {
    var r := v % SIZE_T_MODULUS;
    if 0 <= v < SIZE_T_MODULUS then
      EuclideanUnique(v, SIZE_T_MODULUS, 0, v);
      r
    else if -SIZE_T_MODULUS <= v < 0 then
      EuclideanUnique(v, SIZE_T_MODULUS, -1, v + SIZE_T_MODULUS);
      r
    else r
  }

  /** Passing a `size_t` to OpenVDB's 32-bit signed coordinate: the low 32 bits, as two's complement. */
  function ToInt32(v: int): (r: int)
    ensures IsInt32(r)
    ensures (v - r) % INT32_MODULUS == 0
    ensures IsInt32(v) ==> r == v
  {
    var low := v % INT32_MODULUS;
    var r := if low > INT_MAX then low - INT32_MODULUS else low;
    EuclideanUnique(v - r, INT32_MODULUS, v / INT32_MODULUS + (if low > INT_MAX then 1 else 0), 0);
    if IsInt32(v) then
      Int32Residue(v);
      r
    else r
  }

  /** The low 32 bits of a 32-bit value, read as unsigned. */
  lemma {:induction false} Int32Residue(v: int)
    requires IsInt32(v)
    ensures v % INT32_MODULUS == (if v >= 0 then v else v + INT32_MODULUS)
  {
    if v >= 0 {
      EuclideanUnique(v, INT32_MODULUS, 0, v);
    } else {
      EuclideanUnique(v, INT32_MODULUS, -1, v + INT32_MODULUS);
    }
  }

  function CoordToSizeT(p: Coord): Coord
  {
    Coord(ToSizeT(p.x), ToSizeT(p.y), ToSizeT(p.z))
  }

  /** A 32-bit coordinate survives the trip through `size_t` and back. */
  lemma {:induction false} SizeTRoundTrip(v: int)
    requires IsInt32(v)
    ensures ToInt32(ToSizeT(v)) == v
  {
    if v >= 0 {
      EuclideanUnique(v, INT32_MODULUS, 0, v);
    } else {
      assert ToSizeT(v) == v + SIZE_T_MODULUS;
      EuclideanUnique(v + SIZE_T_MODULUS, INT32_MODULUS, INT32_MODULUS - 1, v + INT32_MODULUS);
    }
  }

  /**
   * `BKE_volume_grid_dense_bounds` as written: the inclusive OpenVDB box
   * becomes a half-open one, each corner stored in a `size_t`; an empty box
   * gives all zeros.
   */
  function DenseBoundsAsWritten(b: CoordBBox): (r: Bounds)
    ensures r.found <==> !IsEmpty(b)
    ensures !r.found ==> r.min == Coord(0, 0, 0) && r.max == Coord(0, 0, 0)
    ensures r.found ==> r.min == CoordToSizeT(b.min)
    ensures r.found ==> r.max == CoordToSizeT(Coord(b.max.x + 1, b.max.y + 1, b.max.z + 1))
  {
    if IsEmpty(b) then Bounds(false, Coord(0, 0, 0), Coord(0, 0, 0))
    else Bounds(true,
                Coord(ToSizeT(b.min.x), ToSizeT(b.min.y), ToSizeT(b.min.z)),
                Coord(ToSizeT(b.max.x + 1), ToSizeT(b.max.y + 1), ToSizeT(b.max.z + 1)))
  }

  /** `BKE_volume_grid_dense_voxels` as written: back to an inclusive box, `max - 1` in `size_t`. */
  function VoxelBoxAsWritten(min: Coord, max: Coord): CoordBBox
  {
    CoordBBox(Coord(ToInt32(min.x), ToInt32(min.y), ToInt32(min.z)),
              Coord(ToInt32(ToSizeT(max.x - 1)), ToInt32(ToSizeT(max.y - 1)), ToInt32(ToSizeT(max.z - 1))))
  }

  /** `BKE_volume_grid_dense_transform_matrix` as written: the texture's origin and size in index space. */
  function TextureOriginAsWritten(min: Coord): Coord
  {
    min
  }

  function TextureSizeAsWritten(min: Coord, max: Coord): Coord
  {
    Coord(ToSizeT(max.x - min.x), ToSizeT(max.y - min.y), ToSizeT(max.z - min.z))
  }

  /** One axis of the as-written trip: the wrapped `max + 1` comes back as `max`. */
  lemma {:induction false} ExclusiveMaxRoundTrip(v: int)
    requires IsInt32(v)
    ensures ToInt32(ToSizeT(ToSizeT(v + 1) - 1)) == v
  {
    assert ToSizeT(ToSizeT(v + 1) - 1) == ToSizeT(v);
    SizeTRoundTrip(v);
  }

  /** One axis of the as-written size: unsigned subtraction still gives the extent. */
  lemma {:induction false} ExtentAsWritten(lo: int, hi: int)
    requires IsInt32(lo) && IsInt32(hi) && lo <= hi
    ensures ToSizeT(ToSizeT(hi + 1) - ToSizeT(lo)) == hi + 1 - lo
  {
  }

  /** One axis of the as-written trip: corners come back and the size is the extent. */
  lemma {:induction false} AxisAsWritten(lo: int, hi: int)
    requires IsInt32(lo) && IsInt32(hi) && lo <= hi
    ensures ToInt32(ToSizeT(lo)) == lo
    ensures ToInt32(ToSizeT(ToSizeT(hi + 1) - 1)) == hi
    ensures ToSizeT(ToSizeT(hi + 1) - ToSizeT(lo)) == hi + 1 - lo
  {
    SizeTRoundTrip(lo);
    ExclusiveMaxRoundTrip(hi);
    ExtentAsWritten(lo, hi);
  }

  /** As written, the voxel copy gives back every box of 32-bit coordinates. */
  lemma AsWrittenVoxelsAreRight(b: CoordBBox)
    requires IsInt32Coord(b.min) && IsInt32Coord(b.max) && !IsEmpty(b)
    ensures var r := DenseBoundsAsWritten(b);
            VoxelBoxAsWritten(r.min, r.max) == b
  {
    var r := DenseBoundsAsWritten(b);
    assert r.min == CoordToSizeT(b.min);
    assert r.max == CoordToSizeT(Coord(b.max.x + 1, b.max.y + 1, b.max.z + 1));
    AxisAsWritten(b.min.x, b.max.x);
    AxisAsWritten(b.min.y, b.max.y);
    AxisAsWritten(b.min.z, b.max.z);
  }

  /** As written, the texture size is the box's extent for 32-bit coordinates. */
  lemma AsWrittenSizeIsRight(b: CoordBBox)
    requires IsInt32Coord(b.min) && IsInt32Coord(b.max) && !IsEmpty(b)
    ensures var r := DenseBoundsAsWritten(b);
            TextureSizeAsWritten(r.min, r.max)
            == Coord(b.max.x + 1 - b.min.x, b.max.y + 1 - b.min.y, b.max.z + 1 - b.min.z)
  {
    var r := DenseBoundsAsWritten(b);
    assert r.min == CoordToSizeT(b.min);
    assert r.max == CoordToSizeT(Coord(b.max.x + 1, b.max.y + 1, b.max.z + 1));
    AxisAsWritten(b.min.x, b.max.x);
    AxisAsWritten(b.min.y, b.max.y);
    AxisAsWritten(b.min.z, b.max.z);
  }

  /**
   * As written, the voxel copy and the texture size are right for every box
   * of 32-bit coordinates: the wrap-around cancels out. This only combines
   * `AsWrittenVoxelsAreRight` and `AsWrittenSizeIsRight`.
   */
  lemma AsWrittenVoxelsAndSizeAreRight(b: CoordBBox)
    requires IsInt32Coord(b.min) && IsInt32Coord(b.max) && !IsEmpty(b)
    ensures var r := DenseBoundsAsWritten(b);
            && VoxelBoxAsWritten(r.min, r.max) == b
            && TextureSizeAsWritten(r.min, r.max)
               == Coord(b.max.x + 1 - b.min.x, b.max.y + 1 - b.min.y, b.max.z + 1 - b.min.z)
  {
    AsWrittenVoxelsAreRight(b);
    AsWrittenSizeIsRight(b);
  }

  /**
   * As written, the texture origin of a grid with voxels at negative x is
   * placed 2^64 - 4 voxels away instead of at -4.
   */
  lemma AsWrittenMisplacesNegativeOrigin()
    ensures var b := CoordBBox(Coord(-4, 0, 0), Coord(3, 7, 7));
            var r := DenseBoundsAsWritten(b);
            && r.found
            && TextureOriginAsWritten(r.min).x == SIZE_T_MODULUS - 4
            && TextureOriginAsWritten(r.min).x != b.min.x
  {
  }

  /** Dense bounds with signed corners: half-open, with the box's own minimum. */
  function DenseBounds(b: CoordBBox): (r: Bounds)
    ensures r.found <==> !IsEmpty(b)
    ensures !r.found ==> r.min == Coord(0, 0, 0) && r.max == Coord(0, 0, 0)
    ensures r.found ==> r.min.x < r.max.x && r.min.y < r.max.y && r.min.z < r.max.z
  {
    if IsEmpty(b) then Bounds(false, Coord(0, 0, 0), Coord(0, 0, 0))
    else Bounds(true, b.min, Coord(b.max.x + 1, b.max.y + 1, b.max.z + 1))
  }

  /** The inclusive box a pair of half-open corners denotes. */
  function VoxelBox(min: Coord, max: Coord): CoordBBox
  {
    CoordBBox(min, Coord(max.x - 1, max.y - 1, max.z - 1))
  }

  /** The texture placement from signed corners: origin at the minimum, size the extent. */
  function TextureSize(min: Coord, max: Coord): Coord
  {
    Coord(max.x - min.x, max.y - min.y, max.z - min.z)
  }

  /**
   * With signed corners, every non-empty box comes back unchanged, its
   * texture origin is its minimum corner and its size the voxel count per
   * axis.
   */
  lemma DenseBoundsRoundTrip(b: CoordBBox)
    requires !IsEmpty(b)
    ensures var r := DenseBounds(b);
            && VoxelBox(r.min, r.max) == b
            && r.min == b.min
            && TextureSize(r.min, r.max)
               == Coord(b.max.x + 1 - b.min.x, b.max.y + 1 - b.min.y, b.max.z + 1 - b.min.z)
  {
  }
}
