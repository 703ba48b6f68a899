/**
  The height-map terrain: a grid of sizeX by sizeZ heights read from the red
  bytes of an RGBA bitmap, the vertex streams and the triangle indices built
  over it, and the height look-up by grid coordinates centred on the origin.
 */
module Terrain {
  import opened Geometry

  newtype byte = b: int | 0 <= b < 256

  /** C's integer division truncates toward zero: for a size n >= 0, -n / 2 is -(n / 2). */
  function MinCoord(size: nat): int
  {
    -(size / 2)
  }

  // ---------------------------------------------------------------------
  // Index arithmetic

  /** Grid cell (i, k) of a grid with sz rows per column lies inside a grid of sx * sz entries. */
  lemma CellIndexBelow(i: nat, k: nat, sx: nat, sz: nat)
    requires i < sx && k < sz
    ensures i * sz + k < sx * sz
  {
    assert i * sz + k < (i + 1) * sz;
    MulMonotone(i + 1, sx, sz);
  }

  lemma MulMonotone(a: nat, b: nat, c: nat)
    requires a <= b
    ensures a * c <= b * c
  {
  }

  /** The position where column i starts in a grid stored column after column, sz entries each. */
  function ColumnStart(i: nat, sz: nat): nat
  {
    if i == 0 then 0 else ColumnStart(i - 1, sz) + sz
  }

  lemma {:induction false} ColumnStartIs(i: nat, sz: nat)
    ensures ColumnStart(i, sz) == i * sz
  {
    if i > 0 {
      ColumnStartIs(i - 1, sz);
    }
  }

  /** Entry k of column i lies inside a grid of sx columns. */
  lemma ColumnEntryBelow(i: nat, k: nat, sx: nat, sz: nat)
    requires i < sx && k < sz
    ensures ColumnStart(i, sz) + k < sx * sz
  {
    ColumnStartIs(i, sz);
    CellIndexBelow(i, k, sx, sz);
  }

  /** Position i * sz + k, k < sz, is column i, row k. */
  lemma {:induction false} ColumnMajor(i: nat, k: nat, sz: nat)
    requires k < sz
    ensures (i * sz + k) / sz == i && (i * sz + k) % sz == k
  {
    var n := i * sz + k;
    var q, r := n / sz, n % sz;
    assert n == q * sz + r;
    if q > i {
      MulMonotone(i + 1, q, sz);
      assert false;
    } else if q < i {
      MulMonotone(q + 1, i, sz);
      assert false;
    }
  }

  // ---------------------------------------------------------------------
  // Heights read from the bitmap

  /** The byte of pixel (i, j) read as height: the red byte over 256, times the scale. */
  function PixelHeight(bits: seq<byte>, sx: nat, sz: nat, scale: real, i: nat, j: nat): real
    requires i < sx && j < sz && |bits| >= 4 * sx * sz
  {
    PixelIndexBelow(i, j, sx, sz);
    (bits[(i + j * sx) * 4] as real) / 256.0 * scale
  }

  /** The red byte of pixel (i, j) lies inside a bitmap of sx by sz RGBA pixels. */
  lemma PixelIndexBelow(i: nat, j: nat, sx: nat, sz: nat)
    requires i < sx && j < sz
    ensures (i + j * sx) * 4 + 3 < 4 * sx * sz
  {
    CellIndexBelow(j, i, sz, sx);
    assert j * sx + i + 1 <= sz * sx;
    assert 4 * sx * sz == 4 * (sz * sx);
  }

  /** Entry n of the collected heights: column n / sz, read from bitmap row sz - 1 - n % sz. */
  function HeightAt(bits: seq<byte>, sx: nat, sz: nat, scale: real, n: nat): real
    requires n < sx * sz && |bits| >= 4 * sx * sz
  {
    var i, k := n / sz, n % sz;
    assert i < sx by {
      if i >= sx {
        MulMonotone(sx, i, sz);
      }
    }
    PixelHeight(bits, sx, sz, scale, i, sz - 1 - k)
  }

  /** The heights collected from a bitmap, column by column, each column from the bottom row up. */
  function CollectedHeights(bits: seq<byte>, sx: nat, sz: nat, scale: real): (r: seq<real>)
    requires |bits| >= 4 * sx * sz
    ensures |r| == sx * sz
  {
    seq(sx * sz, n requires 0 <= n < sx * sz => HeightAt(bits, sx, sz, scale, n))
  }

  /** Pixel (i, j) is read into entry ColumnStart(i) + (sz - 1 - j): column i, rows counted from the bottom. */
  lemma EntryOfPixel(bits: seq<byte>, sx: nat, sz: nat, scale: real, i: nat, j: nat)
    requires i < sx && j < sz && |bits| >= 4 * sx * sz
    ensures ColumnStart(i, sz) + (sz - 1 - j) < sx * sz
    ensures HeightAt(bits, sx, sz, scale, ColumnStart(i, sz) + (sz - 1 - j)) == PixelHeight(bits, sx, sz, scale, i, j)
  {
    ColumnStartIs(i, sz);
    ColumnMajor(i, sz - 1 - j, sz);
    CellIndexBelow(i, sz - 1 - j, sx, sz);
  }

  function Abs(n: int): nat
  {
    if n < 0 then -n else n
  }

  // ---------------------------------------------------------------------
  // Vertex streams

  /** The four float streams the vertex loop fills: positions, normals, texture coordinates and normal lines. */
  datatype Streams = Streams(vertices: seq<real>, normals: seq<real>, texCoords: seq<real>, lines: seq<real>)

  /** Stream by stream concatenation. */
  function Concat(a: Streams, b: Streams): Streams
  {
    Streams(a.vertices + b.vertices, a.normals + b.normals, a.texCoords + b.texCoords, a.lines + b.lines)
  }

  lemma ConcatAssoc(a: Streams, b: Streams, c: Streams)
    ensures Concat(Concat(a, b), c) == Concat(a, Concat(b, c))
  {
    AppendAssoc(a.vertices, b.vertices, c.vertices);
    AppendAssoc(a.normals, b.normals, c.normals);
    AppendAssoc(a.texCoords, b.texCoords, c.texCoords);
    AppendAssoc(a.lines, b.lines, c.lines);
  }

  /** The square root the normal length is computed with is positive on every argument of at least 4. */
  ghost predicate RootPositive(sqrt: real -> real)
  {
    forall r: real | r >= 4.0 :: sqrt(r) > 0.0
  }

  /** A square root: non-negative, and squaring back to its argument. */
  ghost predicate IsSquareRoot(sqrt: real -> real)
  {
    forall r: real | r >= 0.0 :: sqrt(r) >= 0.0 && sqrt(r) * sqrt(r) == r
  }

  /** Every square root meets the assumption the vertex loop makes of it. */
  lemma SquareRootPositive(sqrt: real -> real)
    requires IsSquareRoot(sqrt)
    ensures RootPositive(sqrt)
  {
    forall r: real | r >= 4.0
      ensures sqrt(r) > 0.0
    {
      assert sqrt(r) * sqrt(r) == r;
    }
  }

  /** Length of the unnormalised normal (-dyX, 2, -dyZ): never zero. */
  function NormalLength(dyX: real, dyZ: real, sqrt: real -> real): (m: real)
    requires RootPositive(sqrt)
    ensures m > 0.0
  {
    var q := dyX * dyX + 4.0 + dyZ * dyZ;
    assert q >= 4.0;
    sqrt(q)
  }

  /** The unit normal of a grid point whose neighbours differ in height by dyX along x and dyZ along z. */
  function NormalVector(dyX: real, dyZ: real, sqrt: real -> real): (n: seq<real>)
    requires RootPositive(sqrt)
    ensures |n| == 3
  {
    var m := NormalLength(dyX, dyZ, sqrt);
    [-dyX / m, 2.0 / m, -dyZ / m]
  }

  /** The normal has unit length and points upwards. */
  lemma UnitNormal(dyX: real, dyZ: real, sqrt: real -> real)
    requires RootPositive(sqrt) && IsSquareRoot(sqrt)
    ensures var n := NormalVector(dyX, dyZ, sqrt);
      n[0] * n[0] + n[1] * n[1] + n[2] * n[2] == 1.0 && n[1] > 0.0
  {
    var m := NormalLength(dyX, dyZ, sqrt);
    var q := dyX * dyX + 4.0 + dyZ * dyZ;
    assert q >= 0.0;
    assert m * m == q;
    assert (-dyX / m) * (-dyX / m) == dyX * dyX / (m * m);
    assert (2.0 / m) * (2.0 / m) == 4.0 / (m * m);
    assert (-dyZ / m) * (-dyZ / m) == dyZ * dyZ / (m * m);
    assert dyX * dyX / (m * m) + 4.0 / (m * m) + dyZ * dyZ / (m * m) == q / (m * m);
  }

  /**
    What the vertex loop emits for grid point (x, z) at height h, whose
    neighbours differ in height by dyX along x and dyZ along z: its
    position, its normal, its texture coordinates, and a line from the
    vertex along the normal.
   */
  function PointStreams(x: int, z: int, h: real, dyX: real, dyZ: real, sqrt: real -> real): (r: Streams)
    requires RootPositive(sqrt)
    ensures |r.vertices| == 3 && |r.normals| == 3 && |r.texCoords| == 2 && |r.lines| == 6
  {
    var n := NormalVector(dyX, dyZ, sqrt);
    Streams([x as real, h, z as real], n, [x as real / 2.0, z as real / 2.0],
            [x as real, h, z as real, x as real + n[0], h + n[1], z as real + n[2]])
  }

  /**
    The vertex of a grid point is at its height, its normal is the unit
    normal of its height differences, and its line runs from the vertex to
    the vertex plus the normal.
   */
  lemma PointNormalLine(x: int, z: int, h: real, dyX: real, dyZ: real, sqrt: real -> real)
    requires RootPositive(sqrt)
    ensures var r := PointStreams(x, z, h, dyX, dyZ, sqrt);
      && r.vertices == [x as real, h, z as real]
      && r.normals == NormalVector(dyX, dyZ, sqrt)
      && r.lines[..3] == r.vertices
      && r.lines[3..] == [r.vertices[0] + r.normals[0], r.vertices[1] + r.normals[1], r.vertices[2] + r.normals[2]]
  {
  }

  /** The lower neighbour coordinate: one less, except on the first line of the grid. */
  function Lower(c: int, min: int): (r: int)
    ensures min <= c ==> min <= r <= c
    ensures r == c <==> c == min
  {
    if c == min then c else c - 1
  }

  /** The upper neighbour coordinate: one more, except on the last line of the grid. */
  function Upper(c: int, min: int, size: nat): (r: int)
    ensures c <= min + size - 1 ==> c <= r <= min + size - 1
    ensures r == c <==> c == min + size - 1
  {
    if c == min + size - 1 then c else c + 1
  }

  /** The grid points of column x, z running over size rows from min. */
  function Column(x: int, min: int, size: nat): (r: seq<(int, int)>)
    ensures |r| == size && forall k | 0 <= k < size :: r[k] == (x, min + k)
  {
    seq(size, k requires 0 <= k < size => (x, min + k))
  }

  /** The triangle indices of grid cell (x, z): two triangles sharing the diagonal. */
  function CellIndices(x: nat, z: nat, sz: nat): (r: seq<nat>)
    ensures |r| == 6
    ensures r[1] == r[3] == x * sz + z + 1 && r[2] == r[5] == (x + 1) * sz + z
    ensures r[0] == x * sz + z && r[4] == (x + 1) * sz + z + 1
  {
    [x * sz + z, x * sz + z + 1, (x + 1) * sz + z,
     x * sz + z + 1, (x + 1) * sz + z + 1, (x + 1) * sz + z]
  }

  /** The indices of cells 0 .. w - 1 of row z. */
  function RowIndices(z: nat, w: nat, sz: nat): (r: seq<nat>)
    decreases w
  {
    if w == 0 then [] else RowIndices(z, w - 1, sz) + CellIndices(w - 1, z, sz)
  }

  /** The indices of rows 0 .. h - 1, each of w cells. */
  function GridIndices(h: nat, w: nat, sz: nat): (r: seq<nat>)
    decreases h
  {
    if h == 0 then [] else GridIndices(h - 1, w, sz) + RowIndices(h - 1, w, sz)
  }

  /** The number of cells along a side of n points. */
  function Cells(n: nat): nat
  {
    if n >= 1 then n - 1 else 0
  }

  /** Six indices per cell. */
  lemma {:induction false} RowIndicesLength(z: nat, w: nat, sz: nat)
    decreases w
    ensures |RowIndices(z, w, sz)| == 6 * w
  {
    if w > 0 {
      RowIndicesLength(z, w - 1, sz);
    }
  }

  lemma {:induction false} GridIndicesLength(h: nat, w: nat, sz: nat)
    decreases h
    ensures |GridIndices(h, w, sz)| == 6 * w * h
  {
    if h > 0 {
      GridIndicesLength(h - 1, w, sz);
      RowIndicesLength(h - 1, w, sz);
      MulSucc(6 * w, h - 1);
    }
  }

  lemma MulSucc(a: nat, h: nat)
    ensures a * (h + 1) == a * h + a
  {
  }

  /** Every index of a row of w cells, in a grid of sz rows with z + 1 < sz, names one of the first (w + 1) * sz points. */
  lemma {:induction false} RowIndicesBelow(z: nat, w: nat, sz: nat)
    requires z + 1 < sz
    decreases w
    ensures forall n | 0 <= n < |RowIndices(z, w, sz)| :: RowIndices(z, w, sz)[n] < (w + 1) * sz
  {
    if w > 0 {
      RowIndicesBelow(z, w - 1, sz);
      MulMonotone(w, w + 1, sz);
      var r := RowIndices(z, w, sz);
      var init := RowIndices(z, w - 1, sz);
      var cell := CellIndices(w - 1, z, sz);
      assert r == init + cell;
      assert w * sz + z + 1 < (w + 1) * sz;
      forall n | 0 <= n < |r| ensures r[n] < (w + 1) * sz {
        if n >= |init| {
          assert r[n] == cell[n - |init|];
        } else {
          assert r[n] == init[n];
        }
      }
    }
  }

  lemma {:induction false} GridIndicesBelow(h: nat, w: nat, sz: nat)
    requires h < sz
    decreases h
    ensures forall n | 0 <= n < |GridIndices(h, w, sz)| :: GridIndices(h, w, sz)[n] < (w + 1) * sz
  {
    if h > 0 {
      GridIndicesBelow(h - 1, w, sz);
      RowIndicesBelow(h - 1, w, sz);
      var g := GridIndices(h, w, sz);
      var init := GridIndices(h - 1, w, sz);
      forall n | 0 <= n < |g| ensures g[n] < (w + 1) * sz {
        if n >= |init| {
          assert g[n] == RowIndices(h - 1, w, sz)[n - |init|];
        } else {
          assert g[n] == init[n];
        }
      }
    }
  }

  /**
    The index buffer of an sx by sz grid holds 6 * (sx - 1) * (sz - 1)
    indices, the count the draw call is given, and every index names one of
    the sx * sz grid points.
   */
  lemma GridIndexBuffer(sx: nat, sz: nat)
    requires sx >= 1 && sz >= 1
    ensures |GridIndices(Cells(sz), Cells(sx), sz)| == (sx - 1) * (sz - 1) * 6
    ensures forall n | 0 <= n < |GridIndices(Cells(sz), Cells(sx), sz)| :: GridIndices(Cells(sz), Cells(sx), sz)[n] < sx * sz
  {
    GridIndicesLength(sz - 1, sx - 1, sz);
    GridIndicesBelow(sz - 1, sx - 1, sz);
  }

  // ---------------------------------------------------------------------
  // Triangle choice for interpolation

  /** Orientation of p against the edge a -> b: positive on its left. */
  function Edge(a: (int, int), b: (int, int), px: real, pz: real): real
  {
    (b.0 - a.0) as real * (pz - a.1 as real) - (b.1 - a.1) as real * (px - a.0 as real)
  }

  /** Point (px, pz) lies in the closed triangle a, b, c (either orientation). */
  predicate InTriangle(px: real, pz: real, a: (int, int), b: (int, int), c: (int, int))
  {
    || (Edge(a, b, px, pz) >= 0.0 && Edge(b, c, px, pz) >= 0.0 && Edge(c, a, px, pz) >= 0.0)
    || (Edge(a, b, px, pz) <= 0.0 && Edge(b, c, px, pz) <= 0.0 && Edge(c, a, px, pz) <= 0.0)
  }

  /**
    The three grid corners whose heights are interpolated at (fx, fz): the
    lower-left triangle of the cell when the fractional parts sum below one,
    the upper-right one otherwise.
   */
  function TriangleAt(fx: real, fz: real): (r: ((int, int), (int, int), (int, int)))
  {
    var x, z := fx.Floor, fz.Floor;
    if (fx - x as real) + (fz - z as real) < 1.0 then ((x, z), (x, z + 1), (x + 1, z))
    else ((x, z + 1), (x + 1, z), (x + 1, z + 1))
  }

  /**
    The chosen corners belong to the grid cell holding (fx, fz), the
    fractional parts lie in [0, 1), and the point lies in the chosen
    triangle.
   */
  lemma TriangleContainsPoint(fx: real, fz: real)
    ensures var x, z := fx.Floor, fz.Floor;
      && 0.0 <= fx - x as real < 1.0 && 0.0 <= fz - z as real < 1.0
      && var t := TriangleAt(fx, fz);
      && InTriangle(fx, fz, t.0, t.1, t.2)
      && (t == ((x, z), (x, z + 1), (x + 1, z)) <==> (fx - x as real) + (fz - z as real) < 1.0)
  {
  }

  // ---------------------------------------------------------------------
  // The terrain object

  class Terrain {
    var sizeX: nat
    var sizeZ: nat
    var scaleHeight: real
    var heights: seq<real>

    /** One height per grid point, column after column. */
    ghost predicate Valid()
      reads this
    {
      |heights| == sizeX * sizeZ
    }

    constructor()
      ensures Valid() && sizeX == 0 && sizeZ == 0 && scaleHeight == 1.0 && heights == []
    {
      sizeX, sizeZ := 0, 0;
      scaleHeight := 1.0;
      heights := [];
    }

    /**
      The height at grid coordinates (x, z), centred so that the grid runs
      from -(size / 2): zero outside the grid, else the entry of column
      x + sizeX / 2, row z + sizeZ / 2.
     */
    function Height(x: int, z: int): (h: real)
      reads this
      requires Valid()
      ensures (x + sizeX / 2 < 0 || x + sizeX / 2 >= sizeX || z + sizeZ / 2 < 0 || z + sizeZ / 2 >= sizeZ) ==> h == 0.0
    {
      var i, k := x + sizeX / 2, z + sizeZ / 2;
      if i < 0 || i >= sizeX then 0.0
      else if k < 0 || k >= sizeZ then 0.0
      else
        ColumnEntryBelow(i, k, sizeX, sizeZ);
        heights[ColumnStart(i, sizeZ) + k]
    }

    /** A corner handed to the barycentric blend: its offset from the cell's origin and its height. */
    function CornerOf(c: (int, int), x: int, z: int): (real, real, real)
      reads this
      requires Valid()
    {
      ((c.0 - x) as real, (c.1 - z) as real, Height(c.0, c.1))
    }

    /**
      The interpolated height at (fx, fz): the barycentric blend (a
      parameter here) of the heights at three corners of the cell holding
      the point, chosen by whether the fractional parts sum below one.
     */
    function InterpolatedHeight(fx: real, fz: real, barycent: (real, real, (real, real, real), (real, real, real), (real, real, real)) -> real): (h: real)
      reads this
      requires Valid()
      ensures var x, z := fx.Floor, fz.Floor; var t := TriangleAt(fx, fz);
        h == barycent(fx - x as real, fz - z as real, CornerOf(t.0, x, z), CornerOf(t.1, x, z), CornerOf(t.2, x, z))
    {
      var x, z := fx.Floor, fz.Floor;
      var dx, dz := fx - x as real, fz - z as real;
      if dx + dz < 1.0 then
        barycent(dx, dz, (0.0, 0.0, Height(x, z)), (0.0, 1.0, Height(x, z + 1)), (1.0, 0.0, Height(x + 1, z)))
      else
        barycent(dx, dz, (0.0, 1.0, Height(x, z + 1)), (1.0, 0.0, Height(x + 1, z)), (1.0, 1.0, Height(x + 1, z + 1)))
    }

    /**
      Loading the heights of a bitmap: the grid takes the bitmap's width
      and the magnitude of its height, and the heights are collected column
      by column, each column from the bottom row up.
     */
    method LoadHeights(width: nat, height: int, bits: seq<byte>, scale: real)
      requires |bits| >= 4 * width * Abs(height)
      modifies this
      ensures Valid()
      ensures sizeX == width && sizeZ == Abs(height) && scaleHeight == scale
      ensures heights == CollectedHeights(bits, sizeX, sizeZ, scale)
    {
      sizeX := width;
      sizeZ := Abs(height);
      scaleHeight := scale;
      var collected := CollectColumns(bits, sizeX, sizeZ, scale);
      heights := collected;
    }

    /** The collection loops of the loader, over the bitmap's columns and, within each, its rows from the bottom up. */
    static method CollectColumns(bits: seq<byte>, sx: nat, sz: nat, scale: real) returns (hs: seq<real>)
      requires |bits| >= 4 * sx * sz
      ensures hs == CollectedHeights(bits, sx, sz, scale)
    {
      ghost var all := CollectedHeights(bits, sx, sz, scale);
      ColumnStartIs(sx, sz);
      hs := [];
      for i := 0 to sx
        invariant |hs| == ColumnStart(i, sz) <= |all|
        invariant hs == all[..|hs|]
      {
        ColumnStartIs(i + 1, sz);
        MulMonotone(i + 1, sx, sz);
        var j := sz - 1;
        while j >= 0
          invariant -1 <= j < sz
          invariant |hs| == ColumnStart(i, sz) + (sz - 1 - j)
          invariant hs == all[..|hs|]
        {
          PixelIndexBelow(i, j, sx, sz);
          var index := (i + j * sx) * 4;
          var value := bits[index];
          var h := (value as real) / 256.0 * scale;
          assert h == PixelHeight(bits, sx, sz, scale, i, j);
          ghost var n := |hs|;
          EntryOfPixel(bits, sx, sz, scale, i, j);
          assert all[n] == h;
          assert all[..n + 1] == all[..n] + [h];
          hs := hs + [h];
          j := j - 1;
        }
      }
      assert all[..|all|] == all;
    }

    /**
      After loading, the height at centred grid coordinates is the bitmap
      byte of the same column and the mirrored row: grid row k reads bitmap
      row sizeZ - 1 - k.
     */
    lemma HeightOfPixel(bits: seq<byte>, i: nat, k: nat)
      requires Valid() && |bits| >= 4 * sizeX * sizeZ
      requires heights == CollectedHeights(bits, sizeX, sizeZ, scaleHeight)
      requires i < sizeX && k < sizeZ
      ensures Height(MinCoord(sizeX) + i, MinCoord(sizeZ) + k) == PixelHeight(bits, sizeX, sizeZ, scaleHeight, i, sizeZ - 1 - k)
    {
      CellIndexBelow(i, k, sizeX, sizeZ);
      ColumnMajor(i, k, sizeZ);
      ColumnStartIs(i, sizeZ);
    }

    /** Height difference across (x, z) along x, between its clamped neighbours. */
    function SlopeX(x: int, z: int): real
      reads this
      requires Valid()
    {
      Height(Upper(x, MinCoord(sizeX), sizeX), z) - Height(Lower(x, MinCoord(sizeX)), z)
    }

    /** Height difference across (x, z) along z, between its clamped neighbours. */
    function SlopeZ(x: int, z: int): real
      reads this
      requires Valid()
    {
      Height(x, Upper(z, MinCoord(sizeZ), sizeZ)) - Height(x, Lower(z, MinCoord(sizeZ)))
    }

    /** What the vertex loop emits for grid point (x, z) of this terrain. */
    function StreamsAt(x: int, z: int, sqrt: real -> real): (r: Streams)
      reads this
      requires Valid() && RootPositive(sqrt)
    {
      PointStreams(x, z, Height(x, z), SlopeX(x, z), SlopeZ(x, z), sqrt)
    }

    /** The grid points in the order the vertex loop visits them: the first n columns, each top to bottom. */
    function GridPoints(n: nat): (r: seq<(int, int)>)
      reads this
      requires n <= sizeX
    {
      if n == 0 then [] else GridPoints(n - 1) + Column(MinCoord(sizeX) + n - 1, MinCoord(sizeZ), sizeZ)
    }

    lemma GridPointsSnoc(n: nat, x: int)
      requires n < sizeX && x == MinCoord(sizeX) + n
      ensures GridPoints(n + 1) == GridPoints(n) + Column(x, MinCoord(sizeZ), sizeZ)
    {
    }

    /** The streams emitted for the given points, in order. */
    function Emitted(points: seq<(int, int)>, sqrt: real -> real): Streams
      reads this
      requires Valid() && RootPositive(sqrt)
      decreases |points|
    {
      if points == [] then Streams([], [], [], [])
      else
        var last := points[|points| - 1];
        Concat(Emitted(points[..|points| - 1], sqrt), StreamsAt(last.0, last.1, sqrt))
    }

    /** The streams hold 3, 3, 2 and 6 floats per point. */
    lemma {:induction false} EmittedLength(points: seq<(int, int)>, sqrt: real -> real)
      requires Valid() && RootPositive(sqrt)
      decreases |points|
      ensures var e := Emitted(points, sqrt);
        |e.vertices| == 3 * |points| && |e.normals| == 3 * |points| && |e.texCoords| == 2 * |points| && |e.lines| == 6 * |points|
    {
      if points != [] {
        EmittedLength(points[..|points| - 1], sqrt);
      }
    }

    /** The grid has sizeZ points per column. */
    lemma {:induction false} GridPointsLength(n: nat)
      requires n <= sizeX
      decreases n
      ensures |GridPoints(n)| == n * sizeZ
    {
      if n > 0 {
        GridPointsLength(n - 1);
      }
    }

    /** Grid point number i * sizeZ + k is column i, row k. */
    lemma {:induction false} GridPointAt(n: nat, i: nat, k: nat)
      requires n <= sizeX && i < n && k < sizeZ
      decreases n
      ensures i * sizeZ + k < |GridPoints(n)|
      ensures GridPoints(n)[i * sizeZ + k] == (MinCoord(sizeX) + i, MinCoord(sizeZ) + k)
    {
      GridPointsLength(n - 1);
      var init := GridPoints(n - 1);
      assert GridPoints(n) == init + Column(MinCoord(sizeX) + n - 1, MinCoord(sizeZ), sizeZ);
      if i < n - 1 {
        CellIndexBelow(i, k, n - 1, sizeZ);
        GridPointAt(n - 1, i, k);
      } else {
        assert i * sizeZ + k - |init| == k;
      }
    }

    /**
      The vertex order is the order of the heights: grid point number
      i * sizeZ + k, which a triangle index names, has the height stored at
      entry i * sizeZ + k.
     */
    lemma VertexOrderMatchesHeights(i: nat, k: nat)
      requires Valid() && i < sizeX && k < sizeZ
      ensures i * sizeZ + k < |GridPoints(sizeX)| == |heights|
      ensures var p := GridPoints(sizeX)[i * sizeZ + k];
        Height(p.0, p.1) == heights[i * sizeZ + k]
    {
      GridPointsLength(sizeX);
      GridPointAt(sizeX, i, k);
      ColumnStartIs(i, sizeZ);
    }

    lemma EmittedSnoc(points: seq<(int, int)>, x: int, z: int, sqrt: real -> real)
      requires Valid() && RootPositive(sqrt)
      ensures Emitted(points + [(x, z)], sqrt) == Concat(Emitted(points, sqrt), StreamsAt(x, z, sqrt))
    {
      assert (points + [(x, z)])[..|points|] == points;
    }

    /**
      The height differences across grid point (x, z): between its
      neighbours along x and along z, a neighbour on the grid's edge being
      the point itself.
     */
    method Slopes(x: int, z: int) returns (dyX: real, dyZ: real)
      requires Valid()
      ensures dyX == SlopeX(x, z) && dyZ == SlopeZ(x, z)
    {
      var minx, minz := -(sizeX / 2), -(sizeZ / 2);
      assert minx == MinCoord(sizeX) && minz == MinCoord(sizeZ);
      var x0 := if x == minx then x else x - 1;
      var x1 := if x == minx + sizeX - 1 then x else x + 1;
      var z0 := if z == minz then z else z - 1;
      var z1 := if z == minz + sizeZ - 1 then z else z + 1;
      assert x0 == Lower(x, minx) && x1 == Upper(x, minx, sizeX);
      assert z0 == Lower(z, minz) && z1 == Upper(z, minz, sizeZ);
      dyX := Height(x1, z) - Height(x0, z);
      dyZ := Height(x, z1) - Height(x, z0);
    }

    /** The body of the vertex loop for grid point (x, z): the four streams' floats. */
    method PointData(x: int, z: int, sqrt: real -> real) returns (v: seq<real>, n: seq<real>, t: seq<real>, l: seq<real>)
      requires Valid() && RootPositive(sqrt)
      ensures Streams(v, n, t, l) == StreamsAt(x, z, sqrt)
    {
      var h := Height(x, z);
      v := [x as real, h, z as real];
      var dyX, dyZ := Slopes(x, z);
      n := NormalVector(dyX, dyZ, sqrt);
      t := [x as real / 2.0, z as real / 2.0];
      l := [x as real, h, z as real, x as real + n[0], h + n[1], z as real + n[2]];
    }

    /** Emitting a sequence of points emits each part in turn. */
    lemma {:induction false} EmittedAppend(a: seq<(int, int)>, b: seq<(int, int)>, sqrt: real -> real)
      requires Valid() && RootPositive(sqrt)
      decreases |b|
      ensures Emitted(a + b, sqrt) == Concat(Emitted(a, sqrt), Emitted(b, sqrt))
    {
      if b == [] {
        assert a + b == a;
        assert Concat(Emitted(a, sqrt), Streams([], [], [], [])) == Emitted(a, sqrt);
      } else {
        var init, last := b[..|b| - 1], b[|b| - 1];
        assert init + [last] == b;
        AppendAssoc(a, init, [last]);
        EmittedAppend(a, init, sqrt);
        EmittedSnoc(a + init, last.0, last.1, sqrt);
        EmittedSnoc(init, last.0, last.1, sqrt);
        ConcatAssoc(Emitted(a, sqrt), Emitted(init, sqrt), StreamsAt(last.0, last.1, sqrt));
      }
    }

    lemma ColumnSnoc(x: int, min: int, n: nat, z: int)
      requires z == min + n
      ensures Column(x, min, n + 1) == Column(x, min, n) + [(x, z)]
    {
    }

    /** The inner vertex loop: the streams of the points of column x. */
    method ColumnData(x: int, sqrt: real -> real) returns (vertices: seq<real>, normals: seq<real>, texCoords: seq<real>, lines: seq<real>)
      requires Valid() && RootPositive(sqrt)
      ensures Streams(vertices, normals, texCoords, lines) == Emitted(Column(x, MinCoord(sizeZ), sizeZ), sqrt)
    {
      var minz := -(sizeZ / 2);
      vertices, normals, texCoords, lines := [], [], [], [];
      ghost var points: seq<(int, int)> := [];
      ghost var rows := 0;
      var z := minz;
      while z < minz + sizeZ
        invariant minz <= z <= minz + sizeZ && rows == z - minz
        invariant points == Column(x, minz, rows)
        invariant Streams(vertices, normals, texCoords, lines) == Emitted(points, sqrt)
      {
        ColumnSnoc(x, minz, rows, z);
        EmittedSnoc(points, x, z, sqrt);
        var v, n, t, l := PointData(x, z, sqrt);
        vertices, normals, texCoords, lines := vertices + v, normals + n, texCoords + t, lines + l;
        points := points + [(x, z)];
        rows := rows + 1;
        z := z + 1;
      }
      assert minz == MinCoord(sizeZ) && rows == sizeZ;
    }

    /**
      The vertex loop: every grid point, column by column, each column from
      its first row, contributes to the four streams.
     */
    method BuildVertexData(sqrt: real -> real) returns (vertices: seq<real>, normals: seq<real>, texCoords: seq<real>, lines: seq<real>)
      requires Valid() && RootPositive(sqrt)
      ensures Streams(vertices, normals, texCoords, lines) == Emitted(GridPoints(sizeX), sqrt)
    {
      var minx := -(sizeX / 2);
      vertices, normals, texCoords, lines := [], [], [], [];
      ghost var done: seq<(int, int)> := [];
      ghost var columns := 0;
      var x := minx;
      while x < minx + sizeX
        invariant minx <= x <= minx + sizeX && columns == x - minx
        invariant done == GridPoints(columns)
        invariant Streams(vertices, normals, texCoords, lines) == Emitted(done, sqrt)
      {
        var v, n, t, l := ColumnData(x, sqrt);
        ghost var column := Column(x, MinCoord(sizeZ), sizeZ);
        EmittedAppend(done, column, sqrt);
        vertices, normals, texCoords, lines := vertices + v, normals + n, texCoords + t, lines + l;
        GridPointsSnoc(columns, x);
        done := done + column;
        columns := columns + 1;
        x := x + 1;
      }
      assert done == GridPoints(sizeX);
    }

    /**
      The streams hold 3, 3, 2 and 6 floats per grid point: sizeX * sizeZ
      points in all.
     */
    lemma VertexDataLength(sqrt: real -> real)
      requires Valid() && RootPositive(sqrt)
      ensures var e := Emitted(GridPoints(sizeX), sqrt);
        && |e.vertices| == 3 * (sizeX * sizeZ) && |e.normals| == 3 * (sizeX * sizeZ)
        && |e.texCoords| == 2 * (sizeX * sizeZ) && |e.lines| == 6 * (sizeX * sizeZ)
    {
      GridPointsLength(sizeX);
      EmittedLength(GridPoints(sizeX), sqrt);
    }

    /** The index loop: rows z of cells outer, cells x inner, six indices per cell. */
    method BuildIndices() returns (indices: seq<nat>)
      ensures indices == GridIndices(Cells(sizeZ), Cells(sizeX), sizeZ)
    {
      indices := [];
      var z := 0;
      while z < sizeZ - 1
        invariant 0 <= z <= Cells(sizeZ)
        invariant indices == GridIndices(z, Cells(sizeX), sizeZ)
      {
        var x := 0;
        while x < sizeX - 1
          invariant 0 <= x <= Cells(sizeX)
          invariant indices == GridIndices(z, Cells(sizeX), sizeZ) + RowIndices(z, x, sizeZ)
        {
          indices := indices + [x * sizeZ + z, x * sizeZ + z + 1, (x + 1) * sizeZ + z];
          indices := indices + [x * sizeZ + z + 1, (x + 1) * sizeZ + z + 1, (x + 1) * sizeZ + z];
          x := x + 1;
        }
        z := z + 1;
      }
    }

    /**
      Loading a height map: the heights of the bitmap, then the four vertex
      streams over the whole grid, then the triangle indices. The bitmap's
      pixels, its size and the square root are inputs; what the loader
      hands to the graphics card is returned.
     */
    method LoadHeightmap(width: nat, height: int, bits: seq<byte>, scale: real, sqrt: real -> real)
        returns (vertices: seq<real>, normals: seq<real>, texCoords: seq<real>, lines: seq<real>, indices: seq<nat>)
      requires |bits| >= 4 * width * Abs(height) && RootPositive(sqrt)
      modifies this
      ensures Valid()
      ensures sizeX == width && sizeZ == Abs(height) && scaleHeight == scale
      ensures heights == CollectedHeights(bits, width, Abs(height), scale)
      ensures Streams(vertices, normals, texCoords, lines) == Emitted(GridPoints(width), sqrt)
      ensures indices == GridIndices(Cells(Abs(height)), Cells(width), Abs(height))
    {
      LoadHeights(width, height, bits, scale);
      vertices, normals, texCoords, lines := BuildVertexData(sqrt);
      indices := BuildIndices();
    }
  }
}
