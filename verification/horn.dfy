/** The converter end to end, with its input/output left out: a header and
    the coerced rows in, the triangle list of the surface file out. */
module Horn {
  import opened Wrappers
  import opened Loft
  import opened Stl
  import opened Rows
  import opened ColumnMatch

  /** The three columns read back from a sequence of profiles. */
  function ColumnsOf(ps: seq<Profile>): Columns {
    Columns(seq(|ps|, i requires 0 <= i < |ps| => ps[i].length),
            seq(|ps|, i requires 0 <= i < |ps| => ps[i].heightHalf),
            seq(|ps|, i requires 0 <= i < |ps| => ps[i].widthHalf))
  }

  /** Station i of the horn reads entry i of each cleaned column; nothing is
      lost, since the columns can be read back from the stations. */
  function Profiles(c: Columns): (ps: seq<Profile>)
    requires c.Aligned()
    ensures |ps| == c.Count()
    ensures ColumnsOf(ps) == c
  {
    seq(c.Count(), i requires 0 <= i < c.Count() =>
      Profile(c.lengths[i], c.heightHalves[i], c.widthHalves[i]))
  }

  /** The profile a complete row describes. */
  function RowProfile(r: Row): Profile
    requires Complete(r)
  {
    Profile(r.length.value, r.heightHalf.value, r.widthHalf.value)
  }

  /** The run: give up when the header lacks a column for some dimension;
      otherwise drop incomplete rows, loft the remaining stations and expand
      the faces into triangles. `rows` are the cells of the matched columns
      after numeric coercion. */
  function Export(header: seq<string>, rows: seq<Row>): (r: Option<seq<Triangle>>)
    ensures r.Some? <==> MatchColumns(header).Some?
    ensures r.Some? ==> |r.value| == 8 * SegmentCount(|KeptIndices(rows)|)
  {
    if MatchColumns(header).None? then None
    else
      var ps := Profiles(DropMissing(rows));
      DropMissingSelects(rows);
      ExpandBuildTotal(ps);
      Expand(Build(ps).vertices, Build(ps).faces)
  }

  /** The stations lofted are the complete rows, in table order. */
  lemma ProfilesAreCompleteRows(rows: seq<Row>, j: nat)
    requires j < |KeptIndices(rows)|
    ensures |Profiles(DropMissing(rows))| == |KeptIndices(rows)|
    ensures KeptIndices(rows)[j] < |rows| && Complete(rows[KeptIndices(rows)[j]])
    ensures Profiles(DropMissing(rows))[j] == RowProfile(rows[KeptIndices(rows)[j]])
  {
    DropMissingSelects(rows);
  }

  /** End to end: side wall k of segment j joins the j-th and (j+1)-th
      complete rows of the table; incomplete rows in between are skipped. */
  lemma ExportWall(header: seq<string>, rows: seq<Row>, j: nat, k: nat)
    requires MatchColumns(header).Some?
    requires j + 1 < |KeptIndices(rows)| && k < 4
    ensures Export(header, rows).Some?
    ensures 8 * j + 2 * k + 1 < |Export(header, rows).value|
    ensures KeptIndices(rows)[j] < |rows| && KeptIndices(rows)[j + 1] < |rows|
    ensures Complete(rows[KeptIndices(rows)[j]]) && Complete(rows[KeptIndices(rows)[j + 1]])
    ensures var near := Corners(RowProfile(rows[KeptIndices(rows)[j]]));
      var far := Corners(RowProfile(rows[KeptIndices(rows)[j + 1]]));
      var t, k1 := Export(header, rows).value, Next(k);
      && t[8 * j + 2 * k] == Triangle(near[k], near[k1], far[k1])
      && t[8 * j + 2 * k + 1] == Triangle(near[k], far[k1], far[k])
  {
    var ps := Profiles(DropMissing(rows));
    ExportIsLoft(header, rows);
    ExpandBuildWall(ps, j, k);
    ProfilesAreCompleteRows(rows, j);
    ProfilesAreCompleteRows(rows, j + 1);
  }

  /** Once the header matches, the run is the expansion of the loft of the
      complete rows. */
  lemma ExportIsLoft(header: seq<string>, rows: seq<Row>)
    requires MatchColumns(header).Some?
    ensures DropMissing(rows).Aligned()
    ensures var ps := Profiles(DropMissing(rows));
      Export(header, rows) == Expand(Build(ps).vertices, Build(ps).faces)
  {
    DropMissingSelects(rows);
  }
}
