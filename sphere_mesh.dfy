/**
 * The sphere mesh builder `generateSphere(Y_SEGMENTS, X_SEGMENTS)`.
 *
 * Two nested loops visit the grid points (y, x) for y in 0..=Y and x in 0..=X,
 * in row-major order, and every iteration appends one chunk to each of three
 * flat arrays: three position components, two texture coordinates and six
 * triangle indices. The position itself comes from sin/cos of the two angles;
 * here it is an opaque function `vertexAt` of (y, x) whose values are only
 * tracked, never computed.
 *
 * The specification of the builder is `Grid`: the concatenation, in row-major
 * order, of the chunks an emitter function produces for each grid point.
 */
module SphereMesh {

  /** One vertex position, (xPos, yPos, zPos). */
  datatype Vec3 = Vec3(x: real, y: real, z: real)

  /** The object `generateSphere` returns: three flat arrays. */
  datatype SphereData = SphereData(positions: seq<real>, textureCoords: seq<real>, indices: seq<int>)

  // ---------------------------------------------------------------------------
  // Row-major emission, the shape of the two nested loops
  // ---------------------------------------------------------------------------

  /** The chunks emitted for grid points (y, 0), ..., (y, n - 1), in order. */
  function Row<T>(emit: (nat, nat) -> seq<T>, y: nat, n: nat): seq<T>
  {
    if n == 0 then [] else Row(emit, y, n - 1) + emit(y, n - 1)
  }

  /** The chunks emitted for rows 0, ..., rows - 1, each row holding `cols` grid points. */
  function Grid<T>(emit: (nat, nat) -> seq<T>, cols: nat, rows: nat): seq<T>
  {
    if rows == 0 then [] else Grid(emit, cols, rows - 1) + Row(emit, rows - 1, cols)
  }

  /** Every grid point emits exactly `w` values. */
  ghost predicate Uniform<T>(emit: (nat, nat) -> seq<T>, w: nat)
  {
    forall y: nat, x: nat :: |emit(y, x)| == w
  }

  /** Row-major position of grid point (y, x) when rows hold `cols` points. */
  function Offset(cols: nat, y: nat, x: nat): nat
  {
    y * cols + x
  }

  lemma {:induction false} RowLength<T>(emit: (nat, nat) -> seq<T>, w: nat, y: nat, n: nat)
    requires Uniform(emit, w)
    ensures |Row(emit, y, n)| == w * n
  {
    if n > 0 {
      RowLength(emit, w, y, n - 1);
      assert |emit(y, n - 1)| == w;
    }
  }

  /** A uniform emitter fills `w * cols * rows` entries. */
  lemma {:induction false} GridLength<T>(emit: (nat, nat) -> seq<T>, w: nat, cols: nat, rows: nat)
    requires Uniform(emit, w)
    ensures |Grid(emit, cols, rows)| == w * cols * rows
  {
    if rows > 0 {
      GridLength(emit, w, cols, rows - 1);
      RowLength(emit, w, rows - 1, cols);
      assert w * cols * rows == w * cols * (rows - 1) + w * cols;
    }
  }

  lemma {:induction false} RowAt<T>(emit: (nat, nat) -> seq<T>, w: nat, y: nat, n: nat, x: nat, j: nat)
    requires Uniform(emit, w)
    requires x < n && j < w
    ensures w * x + j < |Row(emit, y, n)|
    ensures Row(emit, y, n)[w * x + j] == emit(y, x)[j]
  {
    RowLength(emit, w, y, n - 1);
    assert |emit(y, n - 1)| == w;
    if x < n - 1 {
      RowAt(emit, w, y, n - 1, x, j);
    } else {
      assert w * x == w * (n - 1);
    }
  }

  /** The arithmetic behind the row-major layout: chunk (y, x) lies inside row y. */
  lemma ChunkInRow(w: nat, cols: nat, y: nat, x: nat, j: nat)
    requires x < cols && j < w
    ensures w * (y * cols + x) + j == w * cols * y + (w * x + j)
    ensures w * x + j < w * cols
  {
    MulMonotone(w, x + 1, cols);
  }

  lemma MulMonotone(a: nat, b: nat, c: nat)
    requires b <= c
    ensures a * b <= a * c
  {
    assert a * c == a * b + a * (c - b);
  }

  /**
   * Entry j of the chunk of grid point (y, x) sits at `w * Offset(cols, y, x) + j`:
   * the arrays are laid out in row-major (y, x) order.
   */
  lemma {:induction false} GridAt<T>(emit: (nat, nat) -> seq<T>, w: nat, cols: nat, rows: nat, y: nat, x: nat, j: nat)
    requires Uniform(emit, w)
    requires y < rows && x < cols && j < w
    ensures w * Offset(cols, y, x) + j < |Grid(emit, cols, rows)|
    ensures Grid(emit, cols, rows)[w * Offset(cols, y, x) + j] == emit(y, x)[j]
  {
    if y < rows - 1 {
      GridAt(emit, w, cols, rows - 1, y, x, j);
      PrefixAt(Grid(emit, cols, rows - 1), Row(emit, rows - 1, cols), w * Offset(cols, y, x) + j);
    } else {
      LastRowAt(emit, w, cols, rows, x, j);
    }
  }

  lemma LastRowAt<T>(emit: (nat, nat) -> seq<T>, w: nat, cols: nat, rows: nat, x: nat, j: nat)
    requires Uniform(emit, w)
    requires 0 < rows && x < cols && j < w
    ensures w * Offset(cols, rows - 1, x) + j < |Grid(emit, cols, rows)|
    ensures Grid(emit, cols, rows)[w * Offset(cols, rows - 1, x) + j] == emit(rows - 1, x)[j]
  {
    var prefix, row := Grid(emit, cols, rows - 1), Row(emit, rows - 1, cols);
    GridLength(emit, w, cols, rows - 1);
    RowLength(emit, w, rows - 1, cols);
    ChunkInRow(w, cols, rows - 1, x, j);
    RowAt(emit, w, rows - 1, cols, x, j);
    AppendAt(prefix, row, w * x + j);
  }

  lemma PrefixAt<T>(a: seq<T>, b: seq<T>, k: nat)
    requires k < |a|
    ensures (a + b)[k] == a[k]
  {
  }

  lemma AppendAt<T>(a: seq<T>, b: seq<T>, k: nat)
    requires k < |b|
    ensures (a + b)[|a| + k] == b[k]
  {
  }

  /** Whatever holds of every emitted value holds of every entry of the grid. */
  lemma {:induction false} GridAll<T>(emit: (nat, nat) -> seq<T>, cols: nat, rows: nat, P: T -> bool)
    requires forall y: nat, x: nat, e :: y < rows && x < cols && e in emit(y, x) ==> P(e)
    ensures forall e :: e in Grid(emit, cols, rows) ==> P(e)
  {
    if rows > 0 {
      var prefix, row := Grid(emit, cols, rows - 1), Row(emit, rows - 1, cols);
      GridAll(emit, cols, rows - 1, P);
      RowAll(emit, rows - 1, cols, P);
      forall e | e in prefix + row
        ensures P(e)
      {
        assert e in prefix || e in row;
      }
    }
  }

  lemma {:induction false} RowAll<T>(emit: (nat, nat) -> seq<T>, y: nat, n: nat, P: T -> bool)
    requires forall x: nat, e :: x < n && e in emit(y, x) ==> P(e)
    ensures forall e :: e in Row(emit, y, n) ==> P(e)
  {
    if n > 0 {
      var prefix, chunk := Row(emit, y, n - 1), emit(y, n - 1);
      RowAll(emit, y, n - 1, P);
      forall e | e in prefix + chunk
        ensures P(e)
      {
        assert e in prefix || e in chunk;
      }
    }
  }

  // ---------------------------------------------------------------------------
  // What one iteration (y, x) of generateSphere pushes
  // ---------------------------------------------------------------------------

  /** The position push: the three coordinates of the vertex at (y, x). */
  function PositionEmitter(vertexAt: (nat, nat) -> Vec3): (nat, nat) -> seq<real>
  {
    (y: nat, x: nat) => var v := vertexAt(y, x); [v.x, v.y, v.z]
  }

  /** The texture-coordinate push: u = x / X, v = y / Y. */
  function TexCoordEmitter(ySegments: nat, xSegments: nat): (nat, nat) -> seq<real>
    requires ySegments >= 1 && xSegments >= 1
  {
    (y: nat, x: nat) => [x as real / xSegments as real, y as real / ySegments as real]
  }

  /** The six index pushes, with the row stride Y + 1 that the code uses. */
  function IndexEmitter(ySegments: nat): (nat, nat) -> seq<int>
  {
    (y: nat, x: nat) =>
      [y * (ySegments + 1) + x, (y + 1) * (ySegments + 1) + x, y * (ySegments + 1) + (x + 1),
       y * (ySegments + 1) + (x + 1), (y + 1) * (ySegments + 1) + x, (y + 1) * (ySegments + 1) + (x + 1)]
  }

  /** The two triangles a, a+s, a+1 and a+1, a+s, a+s+1 with stride s and corner a. */
  function Quad(a: int, s: int): (q: seq<int>)
    ensures |q| == 6
  {
    [a, a + s, a + 1, a + 1, a + s, a + s + 1]
  }

  /** The whole result of `generateSphere(ySegments, xSegments)`. */
  function SphereSpec(ySegments: nat, xSegments: nat, vertexAt: (nat, nat) -> Vec3): SphereData
    requires ySegments >= 1 && xSegments >= 1
  {
    SphereData(
      Grid(PositionEmitter(vertexAt), xSegments + 1, ySegments + 1),
      Grid(TexCoordEmitter(ySegments, xSegments), xSegments + 1, ySegments + 1),
      Grid(IndexEmitter(ySegments), xSegments + 1, ySegments + 1))
  }

  /** Number of grid vertices, (Y + 1) * (X + 1). */
  function VertexCount(ySegments: nat, xSegments: nat): nat
  {
    (ySegments + 1) * (xSegments + 1)
  }

  // ---------------------------------------------------------------------------
  // The builder
  // ---------------------------------------------------------------------------

  /**
   * generateSphere: for y in 0..=Y, for x in 0..=X, push the position, the
   * texture coordinate and six indices. The result is the row-major grid of
   * those chunks, with (Y+1)*(X+1) grid points.
   */
  method GenerateSphere(ySegments: nat, xSegments: nat, vertexAt: (nat, nat) -> Vec3) returns (sphere: SphereData)
    requires ySegments >= 1 && xSegments >= 1
    ensures sphere == SphereSpec(ySegments, xSegments, vertexAt)
    ensures |sphere.positions| == 3 * VertexCount(ySegments, xSegments)
    ensures |sphere.textureCoords| == 2 * VertexCount(ySegments, xSegments)
    ensures |sphere.indices| == 6 * VertexCount(ySegments, xSegments)
  {
    ghost var pe, te, ie := PositionEmitter(vertexAt), TexCoordEmitter(ySegments, xSegments), IndexEmitter(ySegments);
    var cols := xSegments + 1;
    var positions: seq<real> := [];
    var textureCoords: seq<real> := [];
    var indices: seq<int> := [];
    var y := 0;
    while y <= ySegments
      invariant y <= ySegments + 1
      invariant positions == Grid(pe, cols, y)
      invariant textureCoords == Grid(te, cols, y)
      invariant indices == Grid(ie, cols, y)
    {
      var x := 0;
      while x <= xSegments
        invariant x <= cols
        invariant positions == Grid(pe, cols, y) + Row(pe, y, x)
        invariant textureCoords == Grid(te, cols, y) + Row(te, y, x)
        invariant indices == Grid(ie, cols, y) + Row(ie, y, x)
      {
        var v := vertexAt(y, x);
        positions := positions + [v.x, v.y, v.z];
        textureCoords := textureCoords + [x as real / xSegments as real, y as real / ySegments as real];
        indices := indices + [y * (ySegments + 1) + x, (y + 1) * (ySegments + 1) + x, y * (ySegments + 1) + (x + 1)];
        indices := indices + [y * (ySegments + 1) + (x + 1), (y + 1) * (ySegments + 1) + x, (y + 1) * (ySegments + 1) + (x + 1)];
        x := x + 1;
      }
      y := y + 1;
    }
    sphere := SphereData(positions, textureCoords, indices);
    SphereLengths(ySegments, xSegments, vertexAt);
  }

  // ---------------------------------------------------------------------------
  // Properties of the builder's result
  // ---------------------------------------------------------------------------

  /** 3, 2 and 6 entries per grid point, for every grid point including the last row and column. */
  lemma SphereLengths(ySegments: nat, xSegments: nat, vertexAt: (nat, nat) -> Vec3)
    requires ySegments >= 1 && xSegments >= 1
    ensures |SphereSpec(ySegments, xSegments, vertexAt).positions| == 3 * VertexCount(ySegments, xSegments)
    ensures |SphereSpec(ySegments, xSegments, vertexAt).textureCoords| == 2 * VertexCount(ySegments, xSegments)
    ensures |SphereSpec(ySegments, xSegments, vertexAt).indices| == 6 * VertexCount(ySegments, xSegments)
  {
    var cols, rows := xSegments + 1, ySegments + 1;
    GridLength(PositionEmitter(vertexAt), 3, cols, rows);
    GridLength(TexCoordEmitter(ySegments, xSegments), 2, cols, rows);
    GridLength(IndexEmitter(ySegments), 6, cols, rows);
  }

  /** Vertex k = y*(X+1)+x holds vertexAt(y, x): positions are in row-major (y, x) order. */
  lemma PositionAt(ySegments: nat, xSegments: nat, vertexAt: (nat, nat) -> Vec3, y: nat, x: nat)
    requires ySegments >= 1 && xSegments >= 1
    requires y <= ySegments && x <= xSegments
    ensures var k := Offset(xSegments + 1, y, x);
            var positions := SphereSpec(ySegments, xSegments, vertexAt).positions;
            3 * k + 2 < |positions| &&
            positions[3 * k] == vertexAt(y, x).x &&
            positions[3 * k + 1] == vertexAt(y, x).y &&
            positions[3 * k + 2] == vertexAt(y, x).z
  {
    var pe := PositionEmitter(vertexAt);
    GridAt(pe, 3, xSegments + 1, ySegments + 1, y, x, 0);
    GridAt(pe, 3, xSegments + 1, ySegments + 1, y, x, 1);
    GridAt(pe, 3, xSegments + 1, ySegments + 1, y, x, 2);
  }

  /**
   * Texture coordinate pair k = y*(X+1)+x is (x/X, y/Y); both lie in [0, 1], and
   * u runs from 0 at x = 0 to 1 at x = X.
   */
  lemma TexCoordAt(ySegments: nat, xSegments: nat, vertexAt: (nat, nat) -> Vec3, y: nat, x: nat)
    requires ySegments >= 1 && xSegments >= 1
    requires y <= ySegments && x <= xSegments
    ensures var k := Offset(xSegments + 1, y, x);
            var uv := SphereSpec(ySegments, xSegments, vertexAt).textureCoords;
            2 * k + 1 < |uv| &&
            uv[2 * k] == x as real / xSegments as real &&
            uv[2 * k + 1] == y as real / ySegments as real &&
            0.0 <= uv[2 * k] <= 1.0 && 0.0 <= uv[2 * k + 1] <= 1.0 &&
            (x == 0 ==> uv[2 * k] == 0.0) && (x == xSegments ==> uv[2 * k] == 1.0)
  {
    var te := TexCoordEmitter(ySegments, xSegments);
    GridAt(te, 2, xSegments + 1, ySegments + 1, y, x, 0);
    GridAt(te, 2, xSegments + 1, ySegments + 1, y, x, 1);
    FractionInUnit(x, xSegments);
    FractionInUnit(y, ySegments);
  }

  lemma FractionInUnit(i: nat, n: nat)
    requires 1 <= n && i <= n
    ensures 0.0 <= i as real / n as real <= 1.0
    ensures i == 0 ==> i as real / n as real == 0.0
    ensures i == n ==> i as real / n as real == 1.0
  {
    assert i as real <= n as real;
  }

  /**
   * The seam is not merged: in every row the first and the last vertex are
   * distinct entries, with u = 0 and u = 1.
   */
  lemma SeamNotMerged(ySegments: nat, xSegments: nat, vertexAt: (nat, nat) -> Vec3, y: nat)
    requires ySegments >= 1 && xSegments >= 1
    requires y <= ySegments
    ensures var uv := SphereSpec(ySegments, xSegments, vertexAt).textureCoords;
            var first, last := Offset(xSegments + 1, y, 0), Offset(xSegments + 1, y, xSegments);
            first < last && 2 * last < |uv| && uv[2 * first] == 0.0 && uv[2 * last] == 1.0
  {
    TexCoordAt(ySegments, xSegments, vertexAt, y, 0);
    TexCoordAt(ySegments, xSegments, vertexAt, y, xSegments);
  }

  /**
   * The six indices of iteration (y, x) are a, a+s, a+1, a+1, a+s, a+s+1 with
   * s = Y + 1 (not X + 1) and a = y*s + x, for every iteration including x = X and y = Y.
   */
  lemma IndicesAt(ySegments: nat, xSegments: nat, vertexAt: (nat, nat) -> Vec3, y: nat, x: nat, j: nat)
    requires ySegments >= 1 && xSegments >= 1
    requires y <= ySegments && x <= xSegments && j < 6
    ensures var k := Offset(xSegments + 1, y, x);
            var indices := SphereSpec(ySegments, xSegments, vertexAt).indices;
            6 * k + j < |indices| &&
            indices[6 * k + j] == Quad(y * (ySegments + 1) + x, ySegments + 1)[j]
  {
    GridAt(IndexEmitter(ySegments), 6, xSegments + 1, ySegments + 1, y, x, j);
    QuadPattern(ySegments, y, x);
  }

  lemma QuadPattern(ySegments: nat, y: nat, x: nat)
    ensures IndexEmitter(ySegments)(y, x) == Quad(y * (ySegments + 1) + x, ySegments + 1)
  {
    assert (y + 1) * (ySegments + 1) == y * (ySegments + 1) + (ySegments + 1);
  }

  /** All entries of `s` are valid vertex numbers below `bound`. */
  predicate AllBelow(s: seq<int>, bound: int)
  {
    forall i :: 0 <= i < |s| ==> 0 <= s[i] < bound
  }

  /**
   * For a square grid (X == Y, as at the only call site), iteration (y, x)
   * references only existing vertices exactly when it is not in the last row
   * and is not the last point of the second-to-last row.
   */
  lemma {:induction false} SquareIterationInRange(n: nat, y: nat, x: nat)
    requires n >= 1 && y <= n && x <= n
    ensures AllBelow(IndexEmitter(n)(y, x), VertexCount(n, n)) <==> y < n && !(y == n - 1 && x == n)
  {
    QuadPattern(n, y, x);
    QuadBelow(y * (n + 1) + x, n + 1, VertexCount(n, n));
    SquareCorner(n, y, x);
  }

  /** The smallest entry of a quad is its corner a, the largest a + s + 1. */
  lemma QuadBelow(a: int, s: int, bound: int)
    requires a >= 0 && s >= 0
    ensures AllBelow(Quad(a, s), bound) <==> a + s + 1 < bound
  {
    var q := Quad(a, s);
    if a + s + 1 < bound {
      assert forall i :: 0 <= i < 6 ==> 0 <= q[i] <= a + s + 1;
    } else {
      assert q[5] == a + s + 1;
    }
  }

  /** The arithmetic of the square case: where a + s + 1 passes (n + 1)^2. */
  lemma SquareCorner(n: nat, y: nat, x: nat)
    requires n >= 1 && y <= n && x <= n
    ensures var s := n + 1;
            y * s + x + s + 1 < VertexCount(n, n) <==> y < n && !(y == n - 1 && x == n)
  {
    var s := n + 1;
    assert VertexCount(n, n) == n * s + s;
    assert y * s + s == (y + 1) * s;
    if y == n {
    } else if y == n - 1 {
      assert (y + 1) * s == n * s;
    } else {
      MulMonotone(s, y + 1, n - 1);
      assert (n - 1) * s + s == n * s;
    }
  }

  /**
   * The mesh as built refers past its last vertex: for X == Y, the last index
   * pushed at iteration (Y-1, X) equals the vertex count (Y+1)*(X+1).
   */
  lemma SquareMeshIndexOutOfRange(n: nat, vertexAt: (nat, nat) -> Vec3)
    requires n >= 1
    ensures var indices := SphereSpec(n, n, vertexAt).indices;
            var i := 6 * Offset(n + 1, n - 1, n) + 5;
            i < |indices| && indices[i] == VertexCount(n, n)
  {
    IndicesAt(n, n, vertexAt, n - 1, n, 5);
    assert (n - 1) * (n + 1) + n + (n + 1) + 1 == (n + 1) * (n + 1);
  }

  /**
   * With the row stride Y+1 in place of X+1, every non-square grid connects the
   * wrong vertices: the second index of the first triangle is Y+1, not the
   * vertex (1, 0) below the corner; when Y < X it is the vertex (0, Y+1) of the
   * first row.
   */
  lemma StrideMismatch(ySegments: nat, xSegments: nat, vertexAt: (nat, nat) -> Vec3)
    requires ySegments >= 1 && xSegments >= 1 && ySegments != xSegments
    ensures var indices := SphereSpec(ySegments, xSegments, vertexAt).indices;
            1 < |indices| && indices[1] == ySegments + 1 &&
            indices[1] != Offset(xSegments + 1, 1, 0) &&
            (ySegments < xSegments ==> indices[1] == Offset(xSegments + 1, 0, ySegments + 1))
  {
    IndicesAt(ySegments, xSegments, vertexAt, 0, 0, 1);
  }

  /**
   * Every index pushed is non-negative and at most (Y+1)*(Y+1) + X + 1, the last
   * index of the last iteration.
   */
  lemma IndexBound(ySegments: nat, xSegments: nat, vertexAt: (nat, nat) -> Vec3)
    requires ySegments >= 1 && xSegments >= 1
    ensures forall e :: e in SphereSpec(ySegments, xSegments, vertexAt).indices ==>
              0 <= e <= VertexCount(ySegments, ySegments) + xSegments + 1
  {
    var s := ySegments + 1;
    var top := VertexCount(ySegments, ySegments) + xSegments + 1;
    forall y: nat, x: nat, e | y < ySegments + 1 && x < xSegments + 1 && e in IndexEmitter(ySegments)(y, x)
      ensures 0 <= e <= top
    {
      QuadPattern(ySegments, y, x);
      QuadBounds(y * s + x, s);
      MulMonotone(s, y, ySegments);
      assert ySegments * s + s == VertexCount(ySegments, ySegments);
    }
    GridAll(IndexEmitter(ySegments), xSegments + 1, ySegments + 1, (e: int) => 0 <= e <= top);
  }

  /** Every entry of a quad lies between its corner a and a + s + 1. */
  lemma QuadBounds(a: int, s: int)
    requires s >= 0
    ensures forall e :: e in Quad(a, s) ==> a <= e <= a + s + 1
  {
  }

  /**
   * At the call site generateSphere(60, 60) every index is below 65536, so the
   * Uint16Array built from the indices does not truncate any of them.
   */
  lemma CallSiteIndicesFitUint16(vertexAt: (nat, nat) -> Vec3)
    ensures forall e :: e in SphereSpec(60, 60, vertexAt).indices ==> 0 <= e < 65536
  {
    IndexBound(60, 60, vertexAt);
  }

  // ---------------------------------------------------------------------------
  // The triangulation the mesh is meant to have
  // ---------------------------------------------------------------------------

  /** Two triangles for the cell whose top-left corner is grid point (y, x), row stride X + 1. */
  function CellEmitter(xSegments: nat): (nat, nat) -> seq<int>
  {
    (y: nat, x: nat) => Quad(y * (xSegments + 1) + x, xSegments + 1)
  }

  /**
   * Triangle indices for the cells only (y < Y, x < X), with row stride X + 1:
   * 6*Y*X indices, every one of them a vertex of the (Y+1)*(X+1) grid.
   */
  method TriangulateCells(ySegments: nat, xSegments: nat) returns (indices: seq<int>)
    requires ySegments >= 1 && xSegments >= 1
    ensures indices == Grid(CellEmitter(xSegments), xSegments, ySegments)
    ensures |indices| == 6 * ySegments * xSegments
    ensures AllBelow(indices, VertexCount(ySegments, xSegments))
  {
    ghost var ce := CellEmitter(xSegments);
    var s := xSegments + 1;
    indices := [];
    var y := 0;
    while y < ySegments
      invariant y <= ySegments
      invariant indices == Grid(ce, xSegments, y)
    {
      var x := 0;
      while x < xSegments
        invariant x <= xSegments
        invariant indices == Grid(ce, xSegments, y) + Row(ce, y, x)
      {
        var a := y * s + x;
        assert ce(y, x) == Quad(a, s);
        indices := indices + [a, a + s, a + 1, a + 1, a + s, a + s + 1];
        x := x + 1;
      }
      y := y + 1;
    }
    forall y': nat, x': nat
      ensures |ce(y', x')| == 6
    {
      assert ce(y', x') == Quad(y' * s + x', s);
    }
    GridLength(ce, 6, xSegments, ySegments);
    CellsInRange(ySegments, xSegments);
  }

  lemma CellsInRange(ySegments: nat, xSegments: nat)
    requires ySegments >= 1 && xSegments >= 1
    ensures AllBelow(Grid(CellEmitter(xSegments), xSegments, ySegments), VertexCount(ySegments, xSegments))
  {
    var count := VertexCount(ySegments, xSegments);
    var inRange := (e: int) => 0 <= e < count;
    forall y: nat, x: nat, e | y < ySegments && x < xSegments && e in CellEmitter(xSegments)(y, x)
      ensures inRange(e)
    {
      CellInRange(ySegments, xSegments, y, x);
    }
    var g := Grid(CellEmitter(xSegments), xSegments, ySegments);
    GridAll(CellEmitter(xSegments), xSegments, ySegments, inRange);
    assert forall i :: 0 <= i < |g| ==> g[i] in g;
  }

  /** Every corner of cell (y, x) with y < Y and x < X is a vertex of the grid. */
  lemma CellInRange(ySegments: nat, xSegments: nat, y: nat, x: nat)
    requires y < ySegments && x < xSegments
    ensures AllBelow(CellEmitter(xSegments)(y, x), VertexCount(ySegments, xSegments))
  {
    var s := xSegments + 1;
    assert CellEmitter(xSegments)(y, x) == Quad(y * s + x, s);
    MulMonotone(s, y + 1, ySegments);
    assert (y + 1) * s == y * s + s;
    assert ySegments * s + s == VertexCount(ySegments, xSegments);
    QuadBelow(y * s + x, s, VertexCount(ySegments, xSegments));
  }
}
