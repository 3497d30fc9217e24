/** TubeMeshGenerator: a tube of RadialSegments vertices around every point
    of a rope's path, stitched into quads between consecutive rings. */
module TubeMesh {
  import opened Vectors

  /** UnityEngine.Mesh, reduced to the four buffers the generator fills;
      vertexCount is the number of vertices. */
  class Mesh {
    var vertices: seq<Vec3>
    var triangles: seq<int>
    var uv: seq<Vec2>
    var normals: seq<Vec3>

    constructor ()
      ensures vertices == [] && triangles == [] && uv == [] && normals == []
    {
      vertices, triangles, uv, normals := [], [], [], [];
    }
  }

  // ---------- The cross-section frame of one ring ----------

  /** The path direction at point index: towards the next point at the start,
      from the previous point at the end, the normalised mean of both in
      between, and the z axis when that is (nearly) zero. */
  function ForwardVector(m: MathOracle, path: seq<Vec3>, index: int): (r: Vec3)
    requires |path| >= 2 && 0 <= index < |path|
    ensures SqrMagnitude3(r) >= 0.001
  {
    var forward :=
      if index == 0 then Normalized3(m, Sub3(path[1], path[0]))
      else if index == |path| - 1 then Normalized3(m, Sub3(path[index], path[index - 1]))
      else
        var toNext := Normalized3(m, Sub3(path[index + 1], path[index]));
        var fromPrev := Normalized3(m, Sub3(path[index], path[index - 1]));
        Normalized3(m, Scale3(Add3(toNext, fromPrev), 0.5));
    if SqrMagnitude3(forward) < 0.001 then Forward3 else forward
  }

  /** A direction across forward: forward x right, or forward x up when
      forward is (nearly) parallel to the x axis; then normalised. */
  function UpVector(m: MathOracle, forward: Vec3): Vec3 {
    var up := Cross3(forward, Right3);
    Normalized3(m, if SqrMagnitude3(up) < 0.001 then Cross3(forward, Up3) else up)
  }

  datatype Frame = Frame(right: Vec3, up: Vec3)

  function RingFrame(m: MathOracle, path: seq<Vec3>, i: int): Frame
    requires |path| >= 2 && 0 <= i < |path|
  {
    var forward := ForwardVector(m, path, i);
    var up := UpVector(m, forward);
    Frame(Normalized3(m, Cross3(forward, up)), up)
  }

  /** The offset of vertex j of a ring: radius * (cos a * right + sin a * up)
      with a = (j / radialSegments) * 2 pi. */
  function CrossSectionOffset(m: MathOracle, f: Frame, j: int, radialSegments: int, radius: real): Vec3
    requires radialSegments != 0
  {
    var angle := (j as real / radialSegments as real) * Pi * 2.0;
    Scale3(Add3(Scale3(f.right, m.cos(angle)), Scale3(f.up, m.sin(angle))), radius)
  }

  // ---------- The buffers, ring by ring ----------

  function RingVertices(m: MathOracle, path: seq<Vec3>, i: int, radialSegments: int, radius: real): (r: seq<Vec3>)
    requires |path| >= 2 && 0 <= i < |path|
    ensures |r| == MaxInt(radialSegments, 0)
  {
    var f := RingFrame(m, path, i);
    seq(MaxInt(radialSegments, 0), j requires 0 <= j < MaxInt(radialSegments, 0) =>
      Add3(path[i], CrossSectionOffset(m, f, j, radialSegments, radius)))
  }

  /** Each vertex's normal is its normalised offset from the path point. */
  function RingNormals(m: MathOracle, path: seq<Vec3>, i: int, radialSegments: int, radius: real): (r: seq<Vec3>)
    requires |path| >= 2 && 0 <= i < |path|
    ensures |r| == MaxInt(radialSegments, 0)
  {
    var f := RingFrame(m, path, i);
    seq(MaxInt(radialSegments, 0), j requires 0 <= j < MaxInt(radialSegments, 0) =>
      Normalized3(m, CrossSectionOffset(m, f, j, radialSegments, radius)))
  }

  /** The total path length, never below 0.001 (so that it can divide). */
  function TotalLength(m: MathOracle, path: seq<Vec3>): real {
    Max(PolylineLength(m, path), 0.001)
  }

  /** The V coordinate of ring i: the length of the path up to point i,
      divided by the total length, times the tile scale and the total length. */
  function RingV(m: MathOracle, path: seq<Vec3>, i: int, uvTileScale: real): real
    requires 0 <= i < |path|
  {
    var total := TotalLength(m, path);
    (PolylineLength(m, path[..i + 1]) / total) * uvTileScale * total
  }

  /** U runs round the ring as j / radialSegments. */
  function RingUVs(m: MathOracle, path: seq<Vec3>, i: int, radialSegments: int, uvTileScale: real): (r: seq<Vec2>)
    requires 0 <= i < |path|
    ensures |r| == MaxInt(radialSegments, 0)
  {
    var v := RingV(m, path, i, uvTileScale);
    seq(MaxInt(radialSegments, 0), j requires 0 <= j < MaxInt(radialSegments, 0) =>
      Vec2(j as real / radialSegments as real, v))
  }

  /** The vertex buffer of the first count rings. */
  function TubeVertices(m: MathOracle, path: seq<Vec3>, radialSegments: int, radius: real, count: int): seq<Vec3>
    requires |path| >= 2 && 0 <= count <= |path|
  {
    if count == 0 then []
    else TubeVertices(m, path, radialSegments, radius, count - 1) + RingVertices(m, path, count - 1, radialSegments, radius)
  }

  function TubeNormals(m: MathOracle, path: seq<Vec3>, radialSegments: int, radius: real, count: int): seq<Vec3>
    requires |path| >= 2 && 0 <= count <= |path|
  {
    if count == 0 then []
    else TubeNormals(m, path, radialSegments, radius, count - 1) + RingNormals(m, path, count - 1, radialSegments, radius)
  }

  function TubeUVs(m: MathOracle, path: seq<Vec3>, radialSegments: int, uvTileScale: real, count: int): seq<Vec2>
    requires 0 <= count <= |path|
  {
    if count == 0 then []
    else TubeUVs(m, path, radialSegments, uvTileScale, count - 1) + RingUVs(m, path, count - 1, radialSegments, uvTileScale)
  }

  /** Vertex, UV and normal j of ring i. */
  lemma RingAt(m: MathOracle, path: seq<Vec3>, i: int, radialSegments: int, radius: real, uvTileScale: real, j: int)
    requires |path| >= 2 && 0 <= i < |path| && 0 <= j < radialSegments
    ensures RingVertices(m, path, i, radialSegments, radius)[j]
            == Add3(path[i], CrossSectionOffset(m, RingFrame(m, path, i), j, radialSegments, radius))
    ensures RingUVs(m, path, i, radialSegments, uvTileScale)[j]
            == Vec2(j as real / radialSegments as real, RingV(m, path, i, uvTileScale))
    ensures RingNormals(m, path, i, radialSegments, radius)[j]
            == Normalized3(m, CrossSectionOffset(m, RingFrame(m, path, i), j, radialSegments, radius))
  {
  }

  /** The buffers of count + 1 rings extend those of count rings by ring count. */
  lemma TubeStep(m: MathOracle, path: seq<Vec3>, radialSegments: int, radius: real, uvTileScale: real, count: int)
    requires |path| >= 2 && 0 <= count < |path|
    ensures TubeVertices(m, path, radialSegments, radius, count + 1)
            == TubeVertices(m, path, radialSegments, radius, count) + RingVertices(m, path, count, radialSegments, radius)
    ensures TubeUVs(m, path, radialSegments, uvTileScale, count + 1)
            == TubeUVs(m, path, radialSegments, uvTileScale, count) + RingUVs(m, path, count, radialSegments, uvTileScale)
    ensures TubeNormals(m, path, radialSegments, radius, count + 1)
            == TubeNormals(m, path, radialSegments, radius, count) + RingNormals(m, path, count, radialSegments, radius)
  {
  }

  lemma TubeNone(m: MathOracle, path: seq<Vec3>, radialSegments: int, radius: real, uvTileScale: real)
    requires |path| >= 2
    ensures TubeVertices(m, path, radialSegments, radius, 0) == []
    ensures TubeUVs(m, path, radialSegments, uvTileScale, 0) == []
    ensures TubeNormals(m, path, radialSegments, radius, 0) == []
  {
  }

  /** Every ring contributes radialSegments vertices, UVs and normals (none
      when radialSegments is not positive). */
  lemma {:induction false} BufferSizes(m: MathOracle, path: seq<Vec3>, radialSegments: int, radius: real,
                                       uvTileScale: real, count: int)
    requires |path| >= 2 && 0 <= count <= |path|
    ensures |TubeVertices(m, path, radialSegments, radius, count)| == count * MaxInt(radialSegments, 0)
    ensures |TubeUVs(m, path, radialSegments, uvTileScale, count)| == count * MaxInt(radialSegments, 0)
    ensures |TubeNormals(m, path, radialSegments, radius, count)| == count * MaxInt(radialSegments, 0)
  {
    if count > 0 {
      BufferSizes(m, path, radialSegments, radius, uvTileScale, count - 1);
      assert count * MaxInt(radialSegments, 0) == (count - 1) * MaxInt(radialSegments, 0) + MaxInt(radialSegments, 0);
    }
  }

  // ---------- Triangle indices ----------

  /** The two triangles joining vertex j of ring i to vertex j of ring i + 1
      and to the following vertex (j + 1, wrapping round) of both rings. */
  function Quad(i: int, j: int, radialSegments: int): (r: seq<int>)
    requires radialSegments > 0
    ensures |r| == 6
  {
    var current := i * radialSegments + j;
    var next := current + radialSegments;
    var nextJ := (j + 1) % radialSegments;
    [current, next, i * radialSegments + nextJ, i * radialSegments + nextJ, next, next + nextJ - j]
  }

  /** The quads of ring i for j = 0 .. count - 1. */
  function RowQuads(i: int, radialSegments: int, count: int): (r: seq<int>)
    requires 0 <= count <= MaxInt(radialSegments, 0)
    ensures |r| == 6 * count
  {
    if count == 0 then [] else RowQuads(i, radialSegments, count - 1) + Quad(i, count - 1, radialSegments)
  }

  /** The index buffer of a tube over rows + 1 rings. */
  function TriangleIndices(radialSegments: int, rows: int): seq<int> {
    if rows <= 0 then []
    else TriangleIndices(radialSegments, rows - 1) + RowQuads(rows - 1, radialSegments, MaxInt(radialSegments, 0))
  }

  lemma RowQuadsStep(i: int, radialSegments: int, count: int)
    requires 0 <= count <= MaxInt(radialSegments, 0)
    ensures RowQuads(i, radialSegments, 0) == []
    ensures count < radialSegments ==> RowQuads(i, radialSegments, count + 1) == RowQuads(i, radialSegments, count) + Quad(i, count, radialSegments)
  {
  }

  lemma TriangleIndicesStep(radialSegments: int, rows: int)
    ensures rows <= 0 ==> TriangleIndices(radialSegments, rows) == []
    ensures rows >= 0 ==> (TriangleIndices(radialSegments, rows + 1)
            == TriangleIndices(radialSegments, rows) + RowQuads(rows, radialSegments, MaxInt(radialSegments, 0)))
  {
  }

  /** Vertex v belongs to ring `ring`. */
  predicate InRing(v: int, ring: int, radialSegments: int) {
    ring * radialSegments <= v < (ring + 1) * radialSegments
  }

  /** A quad's first triangle uses two vertices of ring i and one of ring
      i + 1, its second one vertex of ring i and two of ring i + 1. */
  lemma QuadSpansAdjacentRings(i: int, j: int, radialSegments: int)
    requires 0 <= j < radialSegments
    ensures var q := Quad(i, j, radialSegments);
            InRing(q[0], i, radialSegments) && InRing(q[1], i + 1, radialSegments) &&
            InRing(q[2], i, radialSegments) && InRing(q[3], i, radialSegments) &&
            InRing(q[4], i + 1, radialSegments) && InRing(q[5], i + 1, radialSegments)
  {
    var nextJ := (j + 1) % radialSegments;
    assert 0 <= nextJ < radialSegments;
    assert (i + 1) * radialSegments == i * radialSegments + radialSegments;
    assert (i + 2) * radialSegments == i * radialSegments + 2 * radialSegments;
  }

  lemma {:induction false} TriangleCount(radialSegments: int, rows: int)
    requires rows >= 0
    ensures |TriangleIndices(radialSegments, rows)| == 6 * rows * MaxInt(radialSegments, 0)
  {
    if rows > 0 {
      TriangleCount(radialSegments, rows - 1);
      assert 6 * rows * MaxInt(radialSegments, 0) == 6 * (rows - 1) * MaxInt(radialSegments, 0) + 6 * MaxInt(radialSegments, 0);
    }
  }

  /** Every entry of RowQuads(i, ...) is a vertex of ring i or ring i + 1. */
  lemma {:induction false} RowQuadsInRings(i: int, radialSegments: int, count: int)
    requires 0 <= count <= radialSegments
    ensures forall e :: 0 <= e < |RowQuads(i, radialSegments, count)| ==>
              i * radialSegments <= RowQuads(i, radialSegments, count)[e] < (i + 2) * radialSegments
  {
    if count > 0 {
      RowQuadsInRings(i, radialSegments, count - 1);
      QuadSpansAdjacentRings(i, count - 1, radialSegments);
      assert (i + 1) * radialSegments + radialSegments == (i + 2) * radialSegments;
    }
  }

  /** For radialSegments >= 1 every index names a vertex of the rows + 1 rings. */
  lemma {:induction false} TrianglesInRange(radialSegments: int, rows: int)
    requires radialSegments >= 1 && rows >= 0
    ensures forall e :: 0 <= e < |TriangleIndices(radialSegments, rows)| ==>
              0 <= TriangleIndices(radialSegments, rows)[e] < (rows + 1) * radialSegments
  {
    if rows > 0 {
      TrianglesInRange(radialSegments, rows - 1);
      RowQuadsInRings(rows - 1, radialSegments, radialSegments);
      assert 0 <= (rows - 1) * radialSegments;
      assert (rows - 1 + 2) * radialSegments == (rows + 1) * radialSegments;
      assert rows * radialSegments <= (rows + 1) * radialSegments;
    }
  }

  /** Quad j of row i sits at offset 6 * j of the row. */
  lemma {:induction false} RowQuadsAt(i: int, radialSegments: int, count: int, j: int)
    requires 0 <= j < count <= radialSegments
    ensures RowQuads(i, radialSegments, count)[6 * j .. 6 * j + 6] == Quad(i, j, radialSegments)
  {
    if j < count - 1 {
      RowQuadsAt(i, radialSegments, count - 1, j);
    }
  }

  lemma SliceOfConcat<T>(a: seq<T>, b: seq<T>, lo: int, hi: int)
    requires 0 <= lo <= hi <= |a| + |b|
    ensures hi <= |a| ==> (a + b)[lo .. hi] == a[lo .. hi]
    ensures |a| <= lo ==> (a + b)[lo .. hi] == b[lo - |a| .. hi - |a|]
  {
  }

  /** The quads of rows earlier than the last one end before the last row. */
  lemma QuadBeforeLastRow(i: int, j: int, rows: int, radialSegments: int)
    requires 0 <= i < rows - 1 && 0 <= j < radialSegments
    ensures 6 * (i * radialSegments + j) + 6 <= 6 * ((rows - 1) * radialSegments)
  {
    assert (i + 1) * radialSegments <= (rows - 1) * radialSegments;
    assert (i + 1) * radialSegments == i * radialSegments + radialSegments;
  }

  /** The rows before the last one hold 6 R indices each. */
  lemma PrefixLength(radialSegments: int, rows: int)
    requires rows >= 1 && radialSegments >= 1
    ensures |TriangleIndices(radialSegments, rows - 1)| == 6 * ((rows - 1) * radialSegments)
  {
    TriangleCount(radialSegments, rows - 1);
    assert 6 * (rows - 1) * radialSegments == 6 * ((rows - 1) * radialSegments);
  }

  /** The quad of ring i and vertex j occupies indices 6 (i R + j) .. 6 (i R + j) + 5. */
  lemma {:induction false} TriangleQuadAt(radialSegments: int, rows: int, i: int, j: int)
    requires 0 <= i < rows && 0 <= j < radialSegments
    ensures 6 * (i * radialSegments + j) + 6 <= |TriangleIndices(radialSegments, rows)|
    ensures TriangleIndices(radialSegments, rows)[6 * (i * radialSegments + j) .. 6 * (i * radialSegments + j) + 6]
            == Quad(i, j, radialSegments)
  {
    hide TriangleIndices, RowQuads, Quad;
    TriangleIndicesStep(radialSegments, rows - 1);
    PrefixLength(radialSegments, rows);
    var prefix := TriangleIndices(radialSegments, rows - 1);
    var row := RowQuads(rows - 1, radialSegments, radialSegments);
    var at := 6 * (i * radialSegments + j);
    if i < rows - 1 {
      TriangleQuadAt(radialSegments, rows - 1, i, j);
      QuadBeforeLastRow(i, j, rows, radialSegments);
      SliceOfConcat(prefix, row, at, at + 6);
    } else {
      RowQuadsAt(i, radialSegments, radialSegments, j);
      SliceOfConcat(prefix, row, at, at + 6);
    }
  }

  // ---------- The generator ----------

  class TubeMeshGenerator {
    var tubeRadius: real
    var radialSegments: int
    var uvTileScale: real

    /** The cached buffers, cleared and refilled by every generation. */
    var vertices: seq<Vec3>
    var triangles: seq<int>
    var uvs: seq<Vec2>
    var normals: seq<Vec3>

    constructor ()
      ensures tubeRadius == 0.1 && radialSegments == 8 && uvTileScale == 1.0
      ensures vertices == [] && triangles == [] && uvs == [] && normals == []
    {
      tubeRadius, radialSegments, uvTileScale := 0.1, 8, 1.0;
      vertices, triangles, uvs, normals := [], [], [], [];
    }

    /** Builds a tube around the path; no mesh for fewer than two points. */
    method GenerateMesh(m: MathOracle, path: seq<Vec3>) returns (mesh: Mesh?)
      modifies this`vertices, this`triangles, this`uvs, this`normals
      ensures |path| < 2 ==> mesh == null
      ensures |path| < 2 ==> vertices == old(vertices) && triangles == old(triangles)
                             && uvs == old(uvs) && normals == old(normals)
      ensures |path| >= 2 ==> mesh != null && fresh(mesh)
      ensures |path| >= 2 ==> vertices == TubeVertices(m, path, radialSegments, tubeRadius, |path|)
      ensures |path| >= 2 ==> uvs == TubeUVs(m, path, radialSegments, uvTileScale, |path|)
      ensures |path| >= 2 ==> normals == TubeNormals(m, path, radialSegments, tubeRadius, |path|)
      ensures |path| >= 2 ==> triangles == TriangleIndices(radialSegments, |path| - 1)
      ensures mesh != null ==> mesh.vertices == vertices && mesh.triangles == triangles
                               && mesh.uv == uvs && mesh.normals == normals
    {
      hide TubeVertices, TubeUVs, TubeNormals, RingVertices, RingUVs, RingNormals, CrossSectionOffset, RingFrame,
           TriangleIndices;
      if |path| < 2 {
        return null;
      }
      vertices, triangles, uvs, normals := [], [], [], [];
      TubeNone(m, path, radialSegments, tubeRadius, uvTileScale);
      var totalLength := CalculateTotalLength(m, path);
      var currentLength := 0.0;
      var i := 0;
      while i < |path|
        invariant 0 <= i <= |path|
        invariant vertices == TubeVertices(m, path, radialSegments, tubeRadius, i)
        invariant uvs == TubeUVs(m, path, radialSegments, uvTileScale, i)
        invariant normals == TubeNormals(m, path, radialSegments, tubeRadius, i)
        invariant triangles == []
        invariant i < |path| ==> currentLength == PolylineLength(m, path[..i + 1])
      {
        TubeStep(m, path, radialSegments, tubeRadius, uvTileScale, i);
        var v := (currentLength / totalLength) * uvTileScale * totalLength;
        assert v == RingV(m, path, i, uvTileScale);
        AppendRing(m, path, i, v);
        if i < |path| - 1 {
          assert path[..i + 2][..i + 1] == path[..i + 1];
          currentLength := currentLength + Distance3(m, path[i], path[i + 1]);
        }
        i := i + 1;
      }
      GenerateTriangles(|path|);
      mesh := new Mesh();
      mesh.vertices := vertices;
      mesh.triangles := triangles;
      mesh.uv := uvs;
      mesh.normals := normals;
    }

    /** One ring of GenerateMesh: radialSegments vertices round path[i], their
        UVs (with the ring's V coordinate v) and their normals. */
    method AppendRing(m: MathOracle, path: seq<Vec3>, i: int, v: real)
      requires |path| >= 2 && 0 <= i < |path|
      requires v == RingV(m, path, i, uvTileScale)
      modifies this`vertices, this`uvs, this`normals
      ensures vertices == old(vertices) + RingVertices(m, path, i, radialSegments, tubeRadius)
      ensures uvs == old(uvs) + RingUVs(m, path, i, radialSegments, uvTileScale)
      ensures normals == old(normals) + RingNormals(m, path, i, radialSegments, tubeRadius)
    {
      hide RingVertices, RingUVs, RingNormals, CrossSectionOffset, RingFrame, RingV;
      var frame := RingFrame(m, path, i);
      ghost var ringV, ringUV, ringN := RingVertices(m, path, i, radialSegments, tubeRadius),
                                        RingUVs(m, path, i, radialSegments, uvTileScale),
                                        RingNormals(m, path, i, radialSegments, tubeRadius);
      var j := 0;
      while j < radialSegments
        invariant 0 <= j <= MaxInt(radialSegments, 0)
        invariant vertices == old(vertices) + ringV[..j]
        invariant uvs == old(uvs) + ringUV[..j]
        invariant normals == old(normals) + ringN[..j]
      {
        RingAt(m, path, i, radialSegments, tubeRadius, uvTileScale, j);
        var offset := CrossSectionOffset(m, frame, j, radialSegments, tubeRadius);
        vertices := vertices + [Add3(path[i], offset)];
        var u := j as real / radialSegments as real;
        uvs := uvs + [Vec2(u, v)];
        normals := normals + [Normalized3(m, offset)];
        j := j + 1;
      }
      assert ringV[..j] == ringV && ringUV[..j] == ringUV && ringN[..j] == ringN;
    }

    /** Caps are not built: the same mesh as GenerateMesh. */
    method GenerateMeshWithCaps(m: MathOracle, path: seq<Vec3>) returns (mesh: Mesh?)
      modifies this`vertices, this`triangles, this`uvs, this`normals
      ensures |path| < 2 ==> mesh == null
      ensures |path| >= 2 ==> mesh != null && fresh(mesh)
      ensures |path| >= 2 ==> vertices == TubeVertices(m, path, radialSegments, tubeRadius, |path|)
      ensures |path| >= 2 ==> uvs == TubeUVs(m, path, radialSegments, uvTileScale, |path|)
      ensures |path| >= 2 ==> normals == TubeNormals(m, path, radialSegments, tubeRadius, |path|)
      ensures |path| >= 2 ==> triangles == TriangleIndices(radialSegments, |path| - 1)
      ensures mesh != null ==> mesh.vertices == vertices && mesh.triangles == triangles
                               && mesh.uv == uvs && mesh.normals == normals
    {
      var tubeMesh := GenerateMesh(m, path);
      if tubeMesh == null {
        return null;
      }
      return tubeMesh;
    }

    /** The path length, kept at least 0.001. */
    static method CalculateTotalLength(m: MathOracle, path: seq<Vec3>) returns (length: real)
      ensures length == Max(PolylineLength(m, path), 0.001)
      ensures length >= 0.001
    {
      length := 0.0;
      var i := 0;
      while i < |path| - 1
        invariant 0 <= i <= MaxInt(|path| - 1, 0)
        invariant length == PolylineLength(m, path[..MinInt(i + 1, |path|)])
      {
        assert path[..i + 2][..i + 1] == path[..i + 1];
        length := length + Distance3(m, path[i], path[i + 1]);
        i := i + 1;
      }
      assert path[..MinInt(i + 1, |path|)] == path;
      length := Max(length, 0.001);
    }

    /** Appends the quads between every pair of consecutive rings. */
    method GenerateTriangles(pathCount: int)
      modifies this`triangles
      ensures triangles == old(triangles) + TriangleIndices(radialSegments, pathCount - 1)
    {
      hide Quad, RowQuads, TriangleIndices;
      ghost var start := triangles;
      TriangleIndicesStep(radialSegments, 0);
      var i := 0;
      while i < pathCount - 1
        invariant 0 <= i <= MaxInt(pathCount - 1, 0)
        invariant triangles == start + TriangleIndices(radialSegments, i)
      {
        ghost var rowStart := triangles;
        TriangleIndicesStep(radialSegments, i);
        RowQuadsStep(i, radialSegments, 0);
        var j := 0;
        while j < radialSegments
          invariant 0 <= j <= MaxInt(radialSegments, 0)
          invariant triangles == rowStart + RowQuads(i, radialSegments, j)
        {
          AppendQuad(i, j);
          RowQuadsStep(i, radialSegments, j);
          j := j + 1;
        }
        i := i + 1;
      }
      TriangleIndicesStep(radialSegments, pathCount - 1);
    }

    /** The two triangles of the quad at ring i, vertex j (the body of
        GenerateTriangles' inner loop). */
    method AppendQuad(i: int, j: int)
      requires 0 <= j < radialSegments
      modifies this`triangles
      ensures triangles == old(triangles) + Quad(i, j, radialSegments)
    {
      var current := i * radialSegments + j;
      var next := current + radialSegments;
      var nextJ := (j + 1) % radialSegments;
      triangles := triangles + [current, next, i * radialSegments + nextJ];
      triangles := triangles + [i * radialSegments + nextJ, next, next + nextJ - j];
    }

    /** Refreshes a mesh for a new path: nothing without a mesh or with fewer
        than two points; a full rebuild when the vertex count no longer
        matches path.Count * RadialSegments; otherwise only the vertices. */
    method UpdateMesh(m: MathOracle, mesh: Mesh?, path: seq<Vec3>)
      modifies this`vertices, this`triangles, this`uvs, this`normals, mesh
      ensures mesh == null || |path| < 2 ==>
                vertices == old(vertices) && triangles == old(triangles) && uvs == old(uvs) && normals == old(normals)
      ensures mesh != null && |path| < 2 ==>
                mesh.vertices == old(mesh.vertices) && mesh.triangles == old(mesh.triangles)
                && mesh.uv == old(mesh.uv) && mesh.normals == old(mesh.normals)
      ensures mesh != null && |path| >= 2 && old(|mesh.vertices|) != |path| * radialSegments ==>
                vertices == TubeVertices(m, path, radialSegments, tubeRadius, |path|)
                && uvs == TubeUVs(m, path, radialSegments, uvTileScale, |path|)
                && normals == TubeNormals(m, path, radialSegments, tubeRadius, |path|)
                && triangles == TriangleIndices(radialSegments, |path| - 1)
                && mesh.vertices == vertices && mesh.triangles == triangles
                && mesh.uv == uvs && mesh.normals == normals
      ensures mesh != null && |path| >= 2 && old(|mesh.vertices|) == |path| * radialSegments ==>
                vertices == TubeVertices(m, path, radialSegments, tubeRadius, |path|)
                && mesh.vertices == vertices
                && triangles == old(triangles) && uvs == old(uvs) && normals == old(normals)
                && mesh.triangles == old(mesh.triangles) && mesh.uv == old(mesh.uv)
                && mesh.normals == old(mesh.normals)
    {
      hide TubeVertices, TubeUVs, TubeNormals, RingVertices, RingUVs, RingNormals, CrossSectionOffset, RingFrame,
           TriangleIndices;
      if mesh == null || |path| < 2 {
        return;
      }
      var expectedVertexCount := |path| * radialSegments;
      if |mesh.vertices| != expectedVertexCount {
        var newMesh := GenerateMesh(m, path);
        if newMesh != null {
          mesh.vertices := newMesh.vertices;
          mesh.triangles := newMesh.triangles;
          mesh.uv := newMesh.uv;
          mesh.normals := newMesh.normals;
        }
        return;
      }
      vertices := [];
      TubeNone(m, path, radialSegments, tubeRadius, uvTileScale);
      var i := 0;
      while i < |path|
        invariant 0 <= i <= |path|
        invariant vertices == TubeVertices(m, path, radialSegments, tubeRadius, i)
        invariant triangles == old(triangles) && uvs == old(uvs) && normals == old(normals)
        invariant mesh.vertices == old(mesh.vertices) && mesh.triangles == old(mesh.triangles)
        invariant mesh.uv == old(mesh.uv) && mesh.normals == old(mesh.normals)
      {
        TubeStep(m, path, radialSegments, tubeRadius, uvTileScale, i);
        var frame := RingFrame(m, path, i);
        ghost var ringV := RingVertices(m, path, i, radialSegments, tubeRadius);
        ghost var v0 := vertices;
        var j := 0;
        while j < radialSegments
          invariant 0 <= j <= MaxInt(radialSegments, 0)
          invariant vertices == v0 + ringV[..j]
          invariant triangles == old(triangles) && uvs == old(uvs) && normals == old(normals)
          invariant mesh.vertices == old(mesh.vertices) && mesh.triangles == old(mesh.triangles)
          invariant mesh.uv == old(mesh.uv) && mesh.normals == old(mesh.normals)
        {
          RingAt(m, path, i, radialSegments, tubeRadius, uvTileScale, j);
          var offset := CrossSectionOffset(m, frame, j, radialSegments, tubeRadius);
          vertices := vertices + [Add3(path[i], offset)];
          j := j + 1;
        }
        assert ringV[..j] == ringV;
        i := i + 1;
      }
      mesh.vertices := vertices;
    }
  }

  /** The index buffer of a path names only vertices of that path's tube, and
      it depends only on the number of points, so the triangles a mesh keeps
      when UpdateMesh replaces its vertices stay valid. */
  lemma MeshIndicesValid(m: MathOracle, path: seq<Vec3>, radialSegments: int, radius: real, rows: int)
    requires |path| >= 2 && rows == |path| - 1 && radialSegments >= 1
    ensures forall e :: 0 <= e < |TriangleIndices(radialSegments, rows)| ==>
              0 <= TriangleIndices(radialSegments, rows)[e] < |TubeVertices(m, path, radialSegments, radius, |path|)|
  {
    hide TriangleIndices, TubeVertices, TubeUVs, TubeNormals;
    BufferSizes(m, path, radialSegments, radius, 1.0, |path|);
    TrianglesInRange(radialSegments, rows);
  }
}
