# Horn loft converter — Dafny model

The converter in `horn_model2.py` turns a table of horn cross-sections into a
triangulated surface file. Each row of the table is a station along the horn:
a length position, a half-height and a half-width, in centimetres. The
converter does four things:

1. It picks the three columns from the header names.
2. It drops rows where one of the three values is not a number.
3. It lofts the stations. Each adjacent pair of rectangles is joined by four
   side walls of two triangles each, and every coordinate is scaled by 10.
4. It expands each face into three points for the mesh file.

This project models those four steps as pure functions over `seq`s and
proves what the code promises about them:

- counts, and the vertex and face layout of every segment;
- index ranges, and that boundary quads are duplicated;
- the scaling law;
- that expansion follows the indices;
- the last-match rule and test precedence of the column matcher;
- that row filtering keeps exactly the complete rows, in order.

Coordinates are `real`, so the ×10 scaling is exact.

Modules:

- `Wrappers`: `Option`.
- `Loft`: profiles, points, faces and the loft builder. It has a functional
  `Build`, defined through `Steps` (the mesh after the loop's first n
  steps), and the loop as written (`BuildMesh`).
- `Stl`: face to triangle expansion.
- `ColumnMatch`: header-name normalization and the column-mapping loop.
- `Rows`: the missing-row filter.
- `Horn`: the steps composed.

Two behaviours of the code are easy to misread. The model follows the code
as written:

- **Column matching.** The matching loop does not stop at the first match.
  Each matching column overwrites the previous choice, so the LAST matching
  column wins.
- **Too few rows.** The code does not reject an input with no usable rows.
  With fewer than two stations the loop does not run, and an empty mesh is
  written. `Build` returns empty buffers for `n <= 1`, and `Export` still
  succeeds in that case.

## Model

| member | source | states |
|---|---|---|
| Loft.Corners | horn_model2.py:88-94 | four corners, all at x = 10·length; corner 0 is (10·width/2, 10·height/2); walking the corners flips y, then z, then y, then z, so consecutive corners share a rectangle edge |
| Loft.Next | horn_model2.py:137-138 | the corner after k is (k+1) mod 4, never k itself: the last wall closes the quad by joining corner 3 back to corner 0 |
| Loft.WallTriangle | horn_model2.py:131-138 | the side-wall rule: both triangles of wall k start at near corner k; the first goes to near k+1 then far k+1, the second to far k+1 then far k; indices are distinct and stay inside the segment's block of eight |
| Loft.SegmentFaces | horn_model2.py:127-139 | the eight listed faces are exactly the general side-wall rule: face t is triangle t%2 of wall t/2, joining corner k and k+1 (mod 4) of the near and far quads |
| Loft.Build | horn_model2.py:96-139 | for n profiles the builder yields exactly 8·(n−1) vertices and 8·(n−1) faces, and none for n ≤ 1 |
| Loft.Steps | horn_model2.py:100-139 | after n loop steps each buffer holds exactly 8·n entries |
| Loft.BuildMesh | horn_model2.py:96-139 | the loop as written (offset = i·8, extend by both corner sets, then by the 8 faces) produces the same buffers as Build, with 8·(n−1) of each |
| Loft.BuildSegment | horn_model2.py:116-139 | segment i owns block [8i, 8i+8) of both buffers: corners of profile i then profile i+1, and the face pattern at offset 8i |
| Loft.BuildPrefix | horn_model2.py:119-139 | building from a prefix of the profiles gives a prefix of both buffers: a finished segment is never rewritten |
| Loft.StepsPrefix | horn_model2.py:119-139 | the buffers after j steps are a prefix of the buffers after any later step: extend only appends |
| Loft.StepsOfPrefix | horn_model2.py:100-109 | the first n steps read only profiles 0..n, so adding profiles after them changes none of those steps |
| Loft.VertexPlacement | horn_model2.py:116-121 | vertex 8i+k is corner k of profile i, and vertex 8i+4+k is corner k of profile i+1 |
| Loft.BoundaryDuplicated | horn_model2.py:116-121 | vertex 8i+4+k equals vertex 8(i+1)+k: shared boundary quads are duplicated, not welded |
| Loft.BuildFaceAt | horn_model2.py:127-139 | face 8i+s is triangle s%2 of side wall s/2 at offset 8i |
| Loft.FaceInBlock | horn_model2.py:127-139 | every face t is the wall triangle of segment t/8, its three indices are pairwise distinct and lie in [8(t/8), 8(t/8)+8), which is within the vertex buffer |
| Loft.WallFaces | horn_model2.py:130-139 | faces 8i+2k and 8i+2k+1 are the two triangles of side wall k at offset 8i |
| Loft.WallFaceIndices | horn_model2.py:130-138 | faces 8i+2k and 8i+2k+1 are (8i+k, 8i+k+1, 8i+4+k+1) and (8i+k, 8i+4+k+1, 8i+4+k), with corner indices taken mod 4 |
| Loft.WallSharesDiagonal | horn_model2.py:131-138 | the two triangles of a wall share the diagonal (off+k, off+4+(k+1)%4) and together use exactly the wall's four corners |
| Loft.ScalingLaw | horn_model2.py:88-121 | every coordinate of vertex 8i+r is ±10 times a field of profile i (r < 4) or i+1 (r ≥ 4); x is exactly 10·length |
| Loft.TwoProfileExample | horn_model2.py:88-121 | profiles (0,1,1) and (5,2,2) give 8 vertices and 8 faces, vertex 0 = (0,10,10), vertex 4 = (50,20,20) |
| Stl.Expand | horn_model2.py:146-149 | one triangle per face, point j of triangle t is vertices[faces[t][j]]; fails exactly when some face indexes past the vertex buffer |
| Stl.ExpandBuildTotal | horn_model2.py:146-149 | expanding a loft never fails and gives 8·(n−1) triangles |
| Stl.ExpandAt | horn_model2.py:147-149 | triangle t of a successful expansion holds the three points face t indexes, all within the vertex buffer |
| Stl.ExpandFaceAt | horn_model2.py:147-149 | a face known by its three indices expands to the points at those indices |
| Stl.ExpandBuildWall | horn_model2.py:130-149 | triangle 8i+2k is (near k, near k+1, far k+1) and triangle 8i+2k+1 is (near k, far k+1, far k), with near/far the corners of profiles i and i+1 |
| Stl.ExpandBuildNearHalf | horn_model2.py:130-149 | triangle 8i+2k of an expanded loft holds vertices 8i+k, 8i+k+1 and 8i+4+k+1 (mod 4 within each quad) |
| Stl.ExpandBuildFarHalf | horn_model2.py:130-149 | triangle 8i+2k+1 of an expanded loft holds vertices 8i+k, 8i+4+k+1 and 8i+4+k (mod 4 within each quad) |
| ColumnMatch.Lower | horn_model2.py:56 | lower-casing keeps the length, leaves no upper-case ASCII letter, and changes a character only by shifting an upper-case letter to its lower-case form |
| ColumnMatch.StripLeft | horn_model2.py:56 | the result is a suffix of the input, everything removed is white space, and it does not start with white space |
| ColumnMatch.StripRight | horn_model2.py:56 | the result is a prefix of the input, everything removed is white space, and it does not end with white space |
| ColumnMatch.Normalize | horn_model2.py:56 | `lower().strip()` is the lower-cased name with white space cut away at its two ends only: the result is the piece of `Lower(name)` starting after the leading white space, everything before and after that piece is white space, the piece neither starts nor ends with white space, and it holds no upper-case ASCII letter |
| ColumnMatch.ClassifyNormalized | horn_model2.py:57-62 | a name is taken for some key exactly when it contains "length", or "/2" with "height" or "width"; it is the length key exactly when it contains "length"; the elif order keeps "length" names out of the half-height and half-width, and "height" names out of the half-width |
| ColumnMatch.Classify | horn_model2.py:56-62 | the key a header name is taken for does not depend on the strip: it equals the key of the merely lower-cased name, because no key word contains white space |
| ColumnMatch.ScanChoosesLastMatchAll | horn_model2.py:55-62 | the loop over the header (Scan) leaves every key unset exactly when no column classifies as it, and otherwise set to the last column that does |
| ColumnMatch.ScanChoosesLastMatch | horn_model2.py:55-62 | after the loop a key is unset exactly when no column classifies as it, and otherwise holds the last column that does |
| ColumnMatch.MatchColumns | horn_model2.py:55-68 | the mapping succeeds exactly when every key has a matching column, and then maps each key to the last column whose lower-cased, stripped name classifies as that key |
| ColumnMatch.MatchWith | horn_model2.py:55-68 | for any classification rule, the loop plus the `None in values()` abort succeeds exactly when every key has a matching column, and then maps each key to its last match |
| ColumnMatch.MatchPrecedence | horn_model2.py:57-62 | the chosen height column never contains "length"; the chosen width column contains neither "length" nor both "height" and "/2" |
| Rows.KeepComplete | horn_model2.py:82-85 | the three filtered columns have the same length, no longer than the input |
| Rows.Unwrap | horn_model2.py:80 | when no cell is missing the columns are read as they are: same count, and row i is exactly the three values at position i |
| Rows.DropMissing | horn_model2.py:80-85 | the three columns stay aligned and no longer than the input; when nothing is missing, they are the input values unchanged |
| Rows.KeptIndicesSelects | horn_model2.py:82 | the kept positions are strictly increasing and are exactly the rows with all three values present |
| Rows.KeptIndices | horn_model2.py:82 | the `valid_rows` positions are within the table, strictly increasing, and each names a row with all three values present |
| Rows.KeepCompleteReads | horn_model2.py:83-85 | entry j of each filtered column is the value of the j-th complete row |
| Rows.KeepCompleteNoMissing | horn_model2.py:80-85 | with no missing value, filtering keeps every row, so both branches of the cleaning step agree |
| Rows.DropMissingSelects | horn_model2.py:80-85 | the cleaning step equals the filter and keeps exactly the complete rows, in order, with their values |
| Horn.Export | horn_model2.py:55-149 | the run gives up exactly when column matching fails; otherwise it yields 8·(m−1) triangles, where m is the number of complete rows (none if m ≤ 1) |
| Horn.Profiles | horn_model2.py:102-109 | station i reads entry i of each cleaned column, one station per entry, and nothing is lost: the columns can be read back from the stations |
| Horn.ExportIsLoft | horn_model2.py:80-149 | once the header matches, the run is exactly the expansion of the loft built from the complete rows |
| Horn.ProfilesAreCompleteRows | horn_model2.py:83-109 | station j of the loft is the j-th complete row of the table |
| Horn.ExportWall | horn_model2.py:80-149 | end to end, wall k of segment j joins the j-th and (j+1)-th complete rows; incomplete rows between them are skipped |

## Left out

- Folder creation, directory listing and the interactive file prompt (horn_model2.py:7-41) are file-system and console I/O.
- CSV parsing and numeric coercion (horn_model2.py:35, 71-77) are library parsing. Their result is a parameter: the header names, and a `Row` of three `Option<real>` cells per table row (None for a cell that did not parse). In `Horn.Export` these rows are taken to be the cells of the matched columns.
- The `KeyError` branch (horn_model2.py:75-77) cannot be reached, because the chosen names come from the table's own header. It is not modelled.
- All diagnostic printing (horn_model2.py:44-45, 66-67, 81, 111-124, 154) is left out.
- Building the mesh object and saving it (horn_model2.py:146, 152) call a foreign library and write a file. Only the index-to-coordinate expansion is modelled.
- Floating-point rounding is not modelled. Coordinates are exact reals.
- Loft.Corners: multiplies unbounded reals. When every cell of a column parses as an integer, pandas keeps the column as 64-bit integers, so `length * 10` and `-width_half * 10` (horn_model2.py:90-93) would wrap past 2^63. No table of horn dimensions comes near that, so the wrap-around is not modelled.
- Lower-casing of header names covers ASCII letters only. Python's Unicode `lower()` is not modelled. Stripping uses Python's full white-space set, although it cannot affect the result (Classify).
- Geometric properties the code never checks are not stated: outward normals, and degenerate or zero-area triangles.
- Running the build twice gives identical buffers. This holds by construction, because Build is a function, so no separate lemma states it.
