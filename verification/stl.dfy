/** Turning the index buffers into the flat triangle list a triangulated
    surface file stores: each face becomes the three points it indexes. */
module Stl {
  import opened Wrappers
  import opened Loft

  /** One facet of the surface file: three points, in the face's winding order. */
  datatype Triangle = Triangle(p0: Point, p1: Point, p2: Point) {

    /** The j-th point of the triangle. */
    function Vertex(j: nat): Point
      requires j < 3
    {
      if j == 0 then p0 else if j == 1 then p1 else p2
    }
  }

  /** All three indices of `f` name a vertex of a buffer of `n` vertices. */
  predicate InRange(f: Face, n: nat) {
    f.a < n && f.b < n && f.c < n
  }

  /** One triangle per face, in face order, each point looked up in the vertex
      buffer; None when some face indexes past the end of the buffer (the
      lookup would fail). */
  function Expand(vertices: seq<Point>, faces: seq<Face>): (r: Option<seq<Triangle>>)
    ensures r.Some? <==> forall t :: 0 <= t < |faces| ==> InRange(faces[t], |vertices|)
    ensures r.Some? ==> |r.value| == |faces|
    ensures r.Some? ==> forall t, j :: 0 <= t < |faces| && 0 <= j < 3 ==>
      faces[t].Index(j) < |vertices| && r.value[t].Vertex(j) == vertices[faces[t].Index(j)]
    decreases |faces|
  {
    if |faces| == 0 then Some([])
    else
      var f := faces[0];
      if !InRange(f, |vertices|) then None
      else match Expand(vertices, faces[1..])
        case None => None
        case Some(rest) =>
          Some([Triangle(vertices[f.a], vertices[f.b], vertices[f.c])] + rest)
  }

  /** Expanding a loft never fails: it gives exactly one triangle per face,
      8 per segment. */
  lemma ExpandBuildTotal(ps: seq<Profile>)
    ensures Expand(Build(ps).vertices, Build(ps).faces).Some?
    ensures |Expand(Build(ps).vertices, Build(ps).faces).value| == 8 * SegmentCount(|ps|)
  {
    var m := Build(ps);
    forall t | 0 <= t < |m.faces|
      ensures InRange(m.faces[t], |m.vertices|)
    {
      FaceInBlock(ps, t);
    }
  }

  /** The surface of a loft in terms of the profiles alone: triangles 8i+2k
      and 8i+2k+1 are the two triangles of side wall k between profiles i
      and i+1, i.e. near corner k, near corner k+1 and far corner k+1, then
      near corner k, far corner k+1 and far corner k. */
  lemma ExpandBuildWall(ps: seq<Profile>, i: nat, k: nat)
    requires i + 1 < |ps| && k < 4
    ensures Expand(Build(ps).vertices, Build(ps).faces).Some?
    ensures 8 * i + 2 * k + 1 < |Expand(Build(ps).vertices, Build(ps).faces).value|
    ensures var r := Expand(Build(ps).vertices, Build(ps).faces).value;
      var near, far, k1 := Corners(ps[i]), Corners(ps[i + 1]), Next(k);
      && r[8 * i + 2 * k] == Triangle(near[k], near[k1], far[k1])
      && r[8 * i + 2 * k + 1] == Triangle(near[k], far[k1], far[k])
  {
    ExpandBuildNearHalf(ps, i, k);
    ExpandBuildFarHalf(ps, i, k);
    VertexPlacement(ps, i, k);
    VertexPlacement(ps, i, Next(k));
  }

  /** Triangle 8i+2k of the expanded loft joins vertices 8i+k, 8i+k+1 and
      8i+4+k+1 (corner indices taken mod 4). */
  lemma ExpandBuildNearHalf(ps: seq<Profile>, i: nat, k: nat)
    requires i + 1 < |ps| && k < 4
    ensures Expand(Build(ps).vertices, Build(ps).faces).Some?
    ensures 8 * i + 2 * k < |Expand(Build(ps).vertices, Build(ps).faces).value|
    ensures 8 * i + 4 + Next(k) < |Build(ps).vertices|
    ensures var v := Build(ps).vertices;
      Expand(v, Build(ps).faces).value[8 * i + 2 * k]
      == Triangle(v[8 * i + k], v[8 * i + Next(k)], v[8 * i + 4 + Next(k)])
  {
    ExpandBuildTotal(ps);
    WallFaceIndices(ps, i, k);
    ExpandFaceAt(Build(ps).vertices, Build(ps).faces, 8 * i + 2 * k,
                 Face(8 * i + k, 8 * i + Next(k), 8 * i + 4 + Next(k)));
  }

  /** Triangle 8i+2k+1 of the expanded loft joins vertices 8i+k, 8i+4+k+1
      and 8i+4+k (corner indices taken mod 4). */
  lemma ExpandBuildFarHalf(ps: seq<Profile>, i: nat, k: nat)
    requires i + 1 < |ps| && k < 4
    ensures Expand(Build(ps).vertices, Build(ps).faces).Some?
    ensures 8 * i + 2 * k + 1 < |Expand(Build(ps).vertices, Build(ps).faces).value|
    ensures 8 * i + 4 + k < |Build(ps).vertices| && 8 * i + 4 + Next(k) < |Build(ps).vertices|
    ensures var v := Build(ps).vertices;
      Expand(v, Build(ps).faces).value[8 * i + 2 * k + 1]
      == Triangle(v[8 * i + k], v[8 * i + 4 + Next(k)], v[8 * i + 4 + k])
  {
    ExpandBuildTotal(ps);
    WallFaceIndices(ps, i, k);
    ExpandFaceAt(Build(ps).vertices, Build(ps).faces, 8 * i + 2 * k + 1,
                 Face(8 * i + k, 8 * i + 4 + Next(k), 8 * i + 4 + k));
  }

  /** A face known by its indices expands to the points at those indices. */
  lemma ExpandFaceAt(vertices: seq<Point>, faces: seq<Face>, t: nat, f: Face)
    requires Expand(vertices, faces).Some? && t < |faces| && faces[t] == f
    ensures f.a < |vertices| && f.b < |vertices| && f.c < |vertices|
    ensures t < |Expand(vertices, faces).value|
    ensures Expand(vertices, faces).value[t] == Triangle(vertices[f.a], vertices[f.b], vertices[f.c])
  {
    ExpandAt(vertices, faces, t);
  }

  /** Triangle t of a successful expansion holds the three points face t indexes. */
  lemma ExpandAt(vertices: seq<Point>, faces: seq<Face>, t: nat)
    requires Expand(vertices, faces).Some? && t < |faces|
    ensures InRange(faces[t], |vertices|)
    ensures t < |Expand(vertices, faces).value|
    ensures Expand(vertices, faces).value[t]
      == Triangle(vertices[faces[t].a], vertices[faces[t].b], vertices[faces[t].c])
  {
    var r := Expand(vertices, faces).value;
    var f := faces[t];
    assert r[t].Vertex(0) == vertices[f.Index(0)];
    assert r[t].Vertex(1) == vertices[f.Index(1)];
    assert r[t].Vertex(2) == vertices[f.Index(2)];
  }
}
