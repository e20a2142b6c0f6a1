/** Dropping the table rows in which any of the three dimensions failed to
    parse as a number. A cell that did not parse is None. */
module Rows {
  import opened Wrappers

  /** One table row after numeric coercion of the three matched columns. */
  datatype Row = Row(length: Option<real>, heightHalf: Option<real>, widthHalf: Option<real>)

  /** The three cleaned columns, each renumbered from 0. */
  datatype Columns = Columns(lengths: seq<real>, heightHalves: seq<real>, widthHalves: seq<real>) {

    /** All three columns have the same number of entries. */
    predicate Aligned() {
      |lengths| == |heightHalves| == |widthHalves|
    }

    /** Number of entries in each column. */
    function Count(): nat {
      |lengths|
    }
  }

  /** All three dimensions of the row are present. */
  predicate Complete(r: Row) {
    r.length.Some? && r.heightHalf.Some? && r.widthHalf.Some?
  }

  /** Some row has a missing dimension. */
  predicate AnyMissing(rows: seq<Row>) {
    exists i :: 0 <= i < |rows| && !Complete(rows[i])
  }

  /** The column values of the complete rows, in table order. */
  function KeepComplete(rows: seq<Row>): (c: Columns)
    ensures c.Aligned()
    ensures c.Count() <= |rows|
    decreases |rows|
  {
    if |rows| == 0 then Columns([], [], [])
    else
      var c := KeepComplete(rows[..|rows| - 1]);
      var r := rows[|rows| - 1];
      if Complete(r) then
        Columns(c.lengths + [r.length.value], c.heightHalves + [r.heightHalf.value],
                c.widthHalves + [r.widthHalf.value])
      else c
  }

  /** The columns read as they are, when no cell is missing. */
  function Unwrap(rows: seq<Row>): (c: Columns)
    requires !AnyMissing(rows)
    ensures c.Aligned() && c.Count() == |rows|
    ensures forall i :: 0 <= i < |rows| ==>
      rows[i] == Row(Some(c.lengths[i]), Some(c.heightHalves[i]), Some(c.widthHalves[i]))
  {
    Columns(seq(|rows|, i requires 0 <= i < |rows| => rows[i].length.value),
            seq(|rows|, i requires 0 <= i < |rows| => rows[i].heightHalf.value),
            seq(|rows|, i requires 0 <= i < |rows| => rows[i].widthHalf.value))
  }

  /** The cleaning step as written: when some row has a missing dimension,
      keep only the complete rows and renumber; otherwise keep the columns
      as they are. */
  function DropMissing(rows: seq<Row>): (c: Columns)
    ensures c.Aligned()
    ensures c.Count() <= |rows|
    ensures !AnyMissing(rows) ==> c.Count() == |rows|
    ensures !AnyMissing(rows) ==> forall i :: 0 <= i < |rows| ==>
      rows[i] == Row(Some(c.lengths[i]), Some(c.heightHalves[i]), Some(c.widthHalves[i]))
  {
    if AnyMissing(rows) then KeepComplete(rows) else Unwrap(rows)
  }

  /** Positions of the complete rows, in increasing order. */
  function KeptIndices(rows: seq<Row>): (idx: seq<nat>)
    ensures |idx| <= |rows|
    ensures forall j :: 0 <= j < |idx| ==> idx[j] < |rows| && Complete(rows[idx[j]])
    ensures forall j1, j2 :: 0 <= j1 < j2 < |idx| ==> idx[j1] < idx[j2]
    decreases |rows|
  {
    if |rows| == 0 then []
    else KeptIndices(rows[..|rows| - 1]) + (if Complete(rows[|rows| - 1]) then [|rows| - 1] else [])
  }

  /** `idx` lists, in strictly increasing order, exactly the positions of
      the complete rows. */
  ghost predicate SelectsComplete(rows: seq<Row>, idx: seq<nat>) {
    && (forall j :: 0 <= j < |idx| ==> idx[j] < |rows| && Complete(rows[idx[j]]))
    && (forall j1, j2 :: 0 <= j1 < j2 < |idx| ==> idx[j1] < idx[j2])
    && (forall i :: 0 <= i < |rows| && Complete(rows[i]) ==> i in idx)
  }

  /** Entry j of each column is the value of row idx[j]. */
  ghost predicate ReadsRows(c: Columns, rows: seq<Row>, idx: seq<nat>) {
    && c.Aligned() && c.Count() == |idx|
    && forall j :: 0 <= j < |idx| ==>
         idx[j] < |rows| && rows[idx[j]] == Row(Some(c.lengths[j]), Some(c.heightHalves[j]), Some(c.widthHalves[j]))
  }

  /** The kept positions are exactly the complete rows, in increasing order. */
  lemma {:induction false} KeptIndicesSelects(rows: seq<Row>)
    ensures SelectsComplete(rows, KeptIndices(rows))
    decreases |rows|
  {
    if |rows| > 0 {
      var n := |rows| - 1;
      var init := rows[..n];
      KeptIndicesSelects(init);
      var idx0 := KeptIndices(init);
      var idx := KeptIndices(rows);
      assert forall j :: 0 <= j < |idx0| ==> idx0[j] < n && init[idx0[j]] == rows[idx0[j]];
      forall i | 0 <= i < |rows| && Complete(rows[i])
        ensures i in idx
      {
        if i < n {
          assert init[i] == rows[i];
          assert i in idx0;
        } else {
          assert idx == idx0 + [n];
        }
      }
    }
  }

  /** Keeping the complete rows reads, at entry j of each column, the values
      of the j-th complete row. */
  lemma {:induction false} KeepCompleteReads(rows: seq<Row>)
    ensures ReadsRows(KeepComplete(rows), rows, KeptIndices(rows))
    decreases |rows|
  {
    if |rows| > 0 {
      var n := |rows| - 1;
      var init := rows[..n];
      KeepCompleteReads(init);
      var idx0 := KeptIndices(init);
      assert forall j :: 0 <= j < |idx0| ==> idx0[j] < n && init[idx0[j]] == rows[idx0[j]];
    }
  }

  /** When no row has a missing dimension, filtering keeps every row, so
      both branches of the cleaning step agree. */
  lemma {:induction false} KeepCompleteNoMissing(rows: seq<Row>)
    requires !AnyMissing(rows)
    ensures KeepComplete(rows) == Unwrap(rows)
    decreases |rows|
  {
    if |rows| > 0 {
      var init := rows[..|rows| - 1];
      assert !AnyMissing(init) by {
        forall i | 0 <= i < |init| ensures Complete(init[i]) {
          assert init[i] == rows[i];
        }
      }
      KeepCompleteNoMissing(init);
      assert Complete(rows[|rows| - 1]);
    }
  }

  /** The cleaning step keeps exactly the complete rows, in order, whichever
      branch it takes. */
  lemma DropMissingSelects(rows: seq<Row>)
    ensures DropMissing(rows) == KeepComplete(rows)
    ensures SelectsComplete(rows, KeptIndices(rows))
    ensures ReadsRows(DropMissing(rows), rows, KeptIndices(rows))
  {
    if !AnyMissing(rows) {
      KeepCompleteNoMissing(rows);
    }
    KeptIndicesSelects(rows);
    KeepCompleteReads(rows);
  }
}
