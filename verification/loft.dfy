/** The loft builder of horn_model2.py: an ordered sequence of rectangular
    cross-sections becomes a vertex buffer and a triangle index buffer that
    skin the side walls between each pair of consecutive cross-sections. */
module Loft {

  /** One station of the horn: its position along the axis and the half-extents
      of its rectangular cross-section. */
  datatype Profile = Profile(length: real, heightHalf: real, widthHalf: real)

  /** A point of the output mesh: x along the axis, y across the width, z across the height. */
  datatype Point = Point(x: real, y: real, z: real)

  /** A triangle given by three indices into the vertex buffer. */
  datatype Face = Face(a: nat, b: nat, c: nat) {

    /** The j-th index of the triangle, as `face[j]` reads it. */
    function Index(j: nat): nat
      requires j < 3
    {
      if j == 0 then a else if j == 1 then b else c
    }

    /** All three indices lie in the block [lo, lo + 8). */
    predicate InBlock(lo: nat) {
      lo <= a < lo + 8 && lo <= b < lo + 8 && lo <= c < lo + 8
    }

    /** The three indices are pairwise distinct. */
    predicate Distinct() {
      a != b && b != c && a != c
    }
  }

  /** The vertex buffer and the face buffer, as the builder hands them on. */
  datatype Mesh = Mesh(vertices: seq<Point>, faces: seq<Face>)

  /** The four corners of a profile's rectangle, every dimension scaled by
      the unit conversion factor 10 (centimetres to millimetres), in the order top right,
      top left, bottom left, bottom right. Walking the corners, each step
      flips the sign of exactly one of y and z, so consecutive corners share
      an edge of the rectangle. */
  function Corners(p: Profile): (q: seq<Point>)
    ensures |q| == 4
    ensures forall k :: 0 <= k < 4 ==> q[k].x == 10.0 * p.length
    ensures q[0].y == 10.0 * p.widthHalf && q[0].z == 10.0 * p.heightHalf
    ensures q[1] == q[0].(y := -q[0].y)
    ensures q[2] == q[1].(z := -q[1].z)
    ensures q[3] == q[2].(y := -q[2].y)
    ensures q[0] == q[3].(z := -q[3].z)
  {
    var x, y, z := 10.0 * p.length, 10.0 * p.widthHalf, 10.0 * p.heightHalf;
    [Point(x, y, z), Point(x, -y, z), Point(x, -y, -z), Point(x, y, -z)]
  }

  /** The corner after corner k going round a quad, (k + 1) mod 4: the last
      side wall closes the quad by joining corner 3 back to corner 0. */
  function Next(k: nat): (n: nat)
    requires k < 4
    ensures n < 4 && n != k
    ensures n == (k + 1) % 4
  {
    if k == 3 then 0 else k + 1
  }

  /** The general rule for side wall k (joining corner k and corner Next(k)
      of the near quad, at offset .. offset+3, to the same corners of the far
      quad, at offset+4 .. offset+7): the first or the second of its two
      triangles. */
  function WallTriangle(offset: nat, k: nat, second: bool): (f: Face)
    requires k < 4
    ensures f.InBlock(offset) && f.Distinct()
    ensures f.a == offset + k
    ensures f.b == if second then offset + 4 + Next(k) else offset + Next(k)
    ensures f.c == if second then offset + 4 + k else offset + 4 + Next(k)
  {
    var k1 := Next(k);
    if !second then Face(offset + k, offset + k1, offset + 4 + k1)
    else Face(offset + k, offset + 4 + k1, offset + 4 + k)
  }

  /** The eight faces of the segment whose vertices start at `offset`,
      written out as the builder lists them: faces 2k and 2k+1 are the two
      triangles of side wall k. */
  function SegmentFaces(offset: nat): (fs: seq<Face>)
    ensures |fs| == 8
    ensures forall k :: 0 <= k < 4 ==>
      fs[2 * k] == WallTriangle(offset, k, false) && fs[2 * k + 1] == WallTriangle(offset, k, true)
  {
    [ Face(offset,     offset + 1, offset + 5),
      Face(offset,     offset + 5, offset + 4),
      Face(offset + 1, offset + 2, offset + 6),
      Face(offset + 1, offset + 6, offset + 5),
      Face(offset + 2, offset + 3, offset + 7),
      Face(offset + 2, offset + 7, offset + 6),
      Face(offset + 3, offset,     offset + 4),
      Face(offset + 3, offset + 4, offset + 7) ]
  }

  /** Number of loop steps for n profiles: one per adjacent pair. */
  function SegmentCount(n: nat): nat {
    if n < 2 then 0 else n - 1
  }

  /** The mesh the builder's loop has produced once it has handled every
      adjacent pair of `ps`. */
  function Build(ps: seq<Profile>): (m: Mesh)
    ensures |m.vertices| == 8 * SegmentCount(|ps|)
    ensures |m.faces| == 8 * SegmentCount(|ps|)
  {
    Steps(ps, SegmentCount(|ps|))
  }

  /** The mesh after the first n steps of the builder's loop: step i appends
      the corners of profiles i and i+1 and the eight faces at offset 8i. */
  function Steps(ps: seq<Profile>, n: nat): (m: Mesh)
    requires n <= SegmentCount(|ps|)
    ensures |m.vertices| == 8 * n && |m.faces| == 8 * n
  {
    if n == 0 then Mesh([], [])
    else
      var prev, i := Steps(ps, n - 1), n - 1;
      Mesh(prev.vertices + Corners(ps[i]) + Corners(ps[i + 1]),
           prev.faces + SegmentFaces(8 * i))
  }

  /** The builder's loop as written: for each adjacent pair it appends the
      eight corners and the eight faces of that segment. */
  method BuildMesh(ps: seq<Profile>) returns (vertices: seq<Point>, faces: seq<Face>)
    ensures Mesh(vertices, faces) == Build(ps)
    ensures |vertices| == |faces| == 8 * SegmentCount(|ps|)
  {
    vertices, faces := [], [];
    var numSteps := |ps|;
    var i := 0;
    while i < numSteps - 1
      invariant i <= SegmentCount(|ps|)
      invariant Mesh(vertices, faces) == Steps(ps, i)
    {
      var offset := i * 8;
      vertices := vertices + Corners(ps[i]) + Corners(ps[i + 1]);
      faces := faces + SegmentFaces(offset);
      i := i + 1;
    }
  }

  /** Segment i of the mesh occupies the block [8i, 8i+8) of both buffers:
      its vertices are the corners of profiles i and i+1, its faces the
      fixed pattern at offset 8i. Later segments never rewrite it. */
  lemma BuildSegment(ps: seq<Profile>, i: nat)
    requires i + 1 < |ps|
    ensures 8 * i + 8 <= |Build(ps).vertices| && 8 * i + 8 <= |Build(ps).faces|
    ensures Build(ps).vertices[8 * i .. 8 * i + 8] == Corners(ps[i]) + Corners(ps[i + 1])
    ensures Build(ps).faces[8 * i .. 8 * i + 8] == SegmentFaces(8 * i)
  {
    StepsSegmentVertices(ps, SegmentCount(|ps|), i);
    StepsSegmentFaces(ps, SegmentCount(|ps|), i);
  }

  /** The vertex half of BuildSegment, for any number of steps past i. */
  lemma {:induction false} StepsSegmentVertices(ps: seq<Profile>, n: nat, i: nat)
    requires i < n <= SegmentCount(|ps|)
    ensures Steps(ps, n).vertices[8 * i .. 8 * i + 8] == Corners(ps[i]) + Corners(ps[i + 1])
  {
    var prev := Steps(ps, n - 1).vertices;
    var quads := Corners(ps[n - 1]) + Corners(ps[n]);
    assert Steps(ps, n).vertices == prev + quads;
    if i + 1 < n {
      StepsSegmentVertices(ps, n - 1, i);
      SliceOfExtension(prev, quads, 8 * i, 8 * i + 8);
    } else {
      SliceOfAppended(prev, quads);
    }
  }

  /** The face half of BuildSegment, for any number of steps past i. */
  lemma {:induction false} StepsSegmentFaces(ps: seq<Profile>, n: nat, i: nat)
    requires i < n <= SegmentCount(|ps|)
    ensures Steps(ps, n).faces[8 * i .. 8 * i + 8] == SegmentFaces(8 * i)
  {
    var prev := Steps(ps, n - 1).faces;
    var block := SegmentFaces(8 * (n - 1));
    assert Steps(ps, n).faces == prev + block;
    if i + 1 < n {
      StepsSegmentFaces(ps, n - 1, i);
      SliceOfExtension(prev, block, 8 * i, 8 * i + 8);
    } else {
      SliceOfAppended(prev, block);
    }
  }

  /** Appending leaves a slice of the original sequence as it was. */
  lemma SliceOfExtension<T>(a: seq<T>, b: seq<T>, lo: nat, hi: nat)
    requires lo <= hi <= |a|
    ensures (a + b)[lo .. hi] == a[lo .. hi]
  {
  }

  /** The appended part is the slice that follows the original sequence. */
  lemma SliceOfAppended<T>(a: seq<T>, b: seq<T>)
    ensures (a + b)[|a| .. |a| + |b|] == b
  {
  }

  /** Each step only appends: the mesh after j steps is a prefix of the mesh
      after any later number of steps. */
  lemma {:induction false} StepsPrefix(ps: seq<Profile>, j: nat, n: nat)
    requires j <= n <= SegmentCount(|ps|)
    ensures Steps(ps, j).vertices <= Steps(ps, n).vertices
    ensures Steps(ps, j).faces <= Steps(ps, n).faces
  {
    if j < n {
      StepsPrefix(ps, j, n - 1);
    }
  }

  /** The first n steps read only the first n + 1 profiles: profiles added
      after them leave those steps unchanged. */
  lemma {:induction false} StepsOfPrefix(ps: seq<Profile>, m: nat, n: nat)
    requires m <= |ps| && n <= SegmentCount(m)
    ensures Steps(ps[..m], n) == Steps(ps, n)
  {
    if n > 0 {
      StepsOfPrefix(ps, m, n - 1);
      assert ps[..m][n - 1] == ps[n - 1] && ps[..m][n] == ps[n];
    }
  }

  /** Building a prefix of the profiles yields a prefix of the mesh: a
      segment's vertices and faces are never changed once it is complete. */
  lemma BuildPrefix(ps: seq<Profile>, j: nat)
    requires j <= |ps|
    ensures Build(ps[..j]).vertices <= Build(ps).vertices
    ensures Build(ps[..j]).faces <= Build(ps).faces
  {
    StepsOfPrefix(ps, j, SegmentCount(j));
    StepsPrefix(ps, SegmentCount(j), SegmentCount(|ps|));
  }

  /** Vertex 8i+k is corner k of profile i, and vertex 8i+4+k is corner k
      of profile i+1. */
  lemma VertexPlacement(ps: seq<Profile>, i: nat, k: nat)
    requires i + 1 < |ps| && k < 4
    ensures 8 * i + 4 + k < |Build(ps).vertices|
    ensures Build(ps).vertices[8 * i + k] == Corners(ps[i])[k]
    ensures Build(ps).vertices[8 * i + 4 + k] == Corners(ps[i + 1])[k]
  {
    BuildSegment(ps, i);
    var v := Build(ps).vertices;
    assert v[8 * i + k] == v[8 * i .. 8 * i + 8][k];
    assert v[8 * i + 4 + k] == v[8 * i .. 8 * i + 8][4 + k];
  }

  /** Boundary quads are duplicated, not welded: the far quad of segment i
      and the near quad of segment i+1 are equal points at different indices. */
  lemma BoundaryDuplicated(ps: seq<Profile>, i: nat, k: nat)
    requires i + 2 < |ps| && k < 4
    ensures 8 * (i + 1) + k < |Build(ps).vertices|
    ensures Build(ps).vertices[8 * i + 4 + k] == Build(ps).vertices[8 * (i + 1) + k]
  {
    VertexPlacement(ps, i, k);
    VertexPlacement(ps, i + 1, k);
  }

  /** Face 8i+s of a loft is triangle s % 2 of side wall s / 2 at offset 8i. */
  lemma BuildFaceAt(ps: seq<Profile>, i: nat, s: nat)
    requires i + 1 < |ps| && s < 8
    ensures 8 * i + s < |Build(ps).faces|
    ensures Build(ps).faces[8 * i + s] == WallTriangle(8 * i, s / 2, s % 2 == 1)
  {
    BuildSegment(ps, i);
    var f := Build(ps).faces;
    var block := f[8 * i .. 8 * i + 8];
    assert block == SegmentFaces(8 * i);
    assert f[8 * i + s] == block[s];
    var k := s / 2;
    assert s == 2 * k || s == 2 * k + 1;
    assert block[2 * k] == WallTriangle(8 * i, k, false);
  }

  /** Every face t belongs to segment t / 8: it is triangle (t % 8) % 2 of
      side wall (t % 8) / 2 at offset 8 * (t / 8), its three indices are
      distinct, lie in its own block of eight, and so are valid vertex indices. */
  lemma FaceInBlock(ps: seq<Profile>, t: nat)
    requires t < |Build(ps).faces|
    ensures Build(ps).faces[t] == WallTriangle(8 * (t / 8), (t % 8) / 2, (t % 8) % 2 == 1)
    ensures Build(ps).faces[t].InBlock(8 * (t / 8))
    ensures Build(ps).faces[t].Distinct()
    ensures 8 * (t / 8) + 8 <= |Build(ps).vertices|
  {
    var i, s := t / 8, t % 8;
    assert t == 8 * i + s;
    assert i + 1 < |ps|;
    BuildFaceAt(ps, i, s);
  }

  /** Faces 8i+2k and 8i+2k+1 of a loft are the two triangles of side wall k
      at offset 8i. */
  lemma WallFaces(ps: seq<Profile>, i: nat, k: nat)
    requires i + 1 < |ps| && k < 4
    ensures 8 * i + 2 * k + 1 < |Build(ps).faces|
    ensures Build(ps).faces[8 * i + 2 * k] == WallTriangle(8 * i, k, false)
    ensures Build(ps).faces[8 * i + 2 * k + 1] == WallTriangle(8 * i, k, true)
  {
    BuildSegment(ps, i);
    var f := Build(ps).faces;
    var block := f[8 * i .. 8 * i + 8];
    assert block == SegmentFaces(8 * i);
    assert f[8 * i + 2 * k] == block[2 * k] && f[8 * i + 2 * k + 1] == block[2 * k + 1];
  }

  /** The vertex indices of faces 8i+2k and 8i+2k+1, written out. */
  lemma WallFaceIndices(ps: seq<Profile>, i: nat, k: nat)
    requires i + 1 < |ps| && k < 4
    ensures 8 * i + 2 * k + 1 < |Build(ps).faces|
    ensures Build(ps).faces[8 * i + 2 * k] == Face(8 * i + k, 8 * i + Next(k), 8 * i + 4 + Next(k))
    ensures Build(ps).faces[8 * i + 2 * k + 1] == Face(8 * i + k, 8 * i + 4 + Next(k), 8 * i + 4 + k)
  {
    WallFaces(ps, i, k);
  }

  /** Each side wall is exactly two triangles that share the diagonal from
      near corner k to far corner k+1, and together they use the four
      corners of the wall's quad. */
  lemma WallSharesDiagonal(offset: nat, k: nat)
    requires k < 4
    ensures var f0, f1 := WallTriangle(offset, k, false), WallTriangle(offset, k, true);
      && f0.a == f1.a == offset + k
      && f0.c == f1.b == offset + 4 + Next(k)
      && {f0.a, f0.b, f0.c, f1.a, f1.b, f1.c}
         == {offset + k, offset + Next(k), offset + 4 + k, offset + 4 + Next(k)}
  {
  }

  /** Every coordinate of every vertex is plus or minus ten times a field of
      the profile it came from: slot r of segment i (vertex 8i+r) comes from
      profile i for the near quad (r < 4) and profile i+1 for the far quad. */
  lemma ScalingLaw(ps: seq<Profile>, i: nat, r: nat)
    requires i + 1 < |ps| && r < 8
    ensures 8 * i + r < |Build(ps).vertices|
    ensures var p := ps[i + r / 4];
      var q := Build(ps).vertices[8 * i + r];
      && q.x == 10.0 * p.length
      && (q.y == 10.0 * p.widthHalf || q.y == -(10.0 * p.widthHalf))
      && (q.z == 10.0 * p.heightHalf || q.z == -(10.0 * p.heightHalf))
  {
    var v := Build(ps).vertices;
    if r < 4 {
      assert i + r / 4 == i;
      VertexPlacement(ps, i, r);
      CornerSigns(ps[i], r);
      assert v[8 * i + r] == Corners(ps[i])[r];
    } else {
      var k := r - 4;
      assert i + r / 4 == i + 1 && 8 * i + r == 8 * i + 4 + k;
      VertexPlacement(ps, i, k);
      CornerSigns(ps[i + 1], k);
      assert v[8 * i + r] == Corners(ps[i + 1])[k];
    }
  }

  /** Each corner's y and z are ten times the half-extents, up to sign. */
  lemma CornerSigns(p: Profile, k: nat)
    requires k < 4
    ensures Corners(p)[k].x == 10.0 * p.length
    ensures Corners(p)[k].y == 10.0 * p.widthHalf || Corners(p)[k].y == -(10.0 * p.widthHalf)
    ensures Corners(p)[k].z == 10.0 * p.heightHalf || Corners(p)[k].z == -(10.0 * p.heightHalf)
  {
  }

  /** An example: two profiles (0, 1, 1) and (5, 2, 2) give vertex 0
      at (0, 10, 10) and vertex 4 at (50, 20, 20), eight of each buffer. */
  lemma TwoProfileExample()
    ensures var m := Build([Profile(0.0, 1.0, 1.0), Profile(5.0, 2.0, 2.0)]);
      && |m.vertices| == 8 && |m.faces| == 8
      && m.vertices[0] == Point(0.0, 10.0, 10.0)
      && m.vertices[4] == Point(50.0, 20.0, 20.0)
  {
    var ps := [Profile(0.0, 1.0, 1.0), Profile(5.0, 2.0, 2.0)];
    VertexPlacement(ps, 0, 0);
  }
}
