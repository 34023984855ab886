/** Projection of dictionary rows onto the first row's columns (`ClickHouseClient.insert_rows`). */
module ClickHouse {
  import opened Wrappers

  /** A cell value; `Null` is Python's None. */
  datatype Field = Null | Value(id: int)

  /** A dictionary with its key order. */
  datatype Row = Row(keys: seq<string>, cells: map<string, Field>)

  ghost predicate ValidRow(r: Row) {
    && (forall i, j :: 0 <= i < j < |r.keys| ==> r.keys[i] != r.keys[j])
    && (forall k :: k in r.keys <==> k in r.cells)
  }

  /** `r.get(col)`. */
  function Get(r: Row, col: string): Field {
    if col in r.cells then r.cells[col] else Null
  }

  /** `tuple(r.get(col) for col in columns)`. */
  function Project(r: Row, columns: seq<string>): seq<Field> {
    seq(|columns|, i requires 0 <= i < |columns| => Get(r, columns[i]))
  }

  /** The statement sent to the driver; nothing is sent for no rows. */
  datatype Statement = Statement(columns: seq<string>, data: seq<seq<Field>>)

  function InsertStatement(rows: seq<Row>): Option<Statement> {
    if rows == [] then None
    else
      var columns := rows[0].keys;
      Some(Statement(columns, seq(|rows|, i requires 0 <= i < |rows| => Project(rows[i], columns))))
  }

  /** What a reader of the table gets back for one tuple: `dict(zip(columns, tuple))`. */
  function Zip(columns: seq<string>, tuple: seq<Field>): map<string, Field>
    requires |columns| == |tuple|
  {
    if columns == [] then map[]
    else Zip(columns[..|columns| - 1], tuple[..|tuple| - 1])[columns[|columns| - 1] := tuple[|tuple| - 1]]
  }

  /** Zipping a projection keeps exactly the listed columns, with None for those the row lacks. */
  lemma {:induction false} ZipOfProject(r: Row, columns: seq<string>)
    ensures Zip(columns, Project(r, columns)).Keys == set k | k in columns
    ensures forall k :: k in columns ==>
      Zip(columns, Project(r, columns))[k] == if k in r.cells then r.cells[k] else Null
    decreases |columns|
  {
    if columns != [] {
      var init := columns[..|columns| - 1];
      assert Project(r, columns)[..|columns| - 1] == Project(r, init);
      ZipOfProject(r, init);
      assert columns == init + [columns[|columns| - 1]];
    }
  }

  /** One row survives the round trip exactly if it has the first row's columns. */
  lemma RowRoundTrip(first: Row, r: Row)
    requires ValidRow(first)
    ensures Zip(first.keys, Project(r, first.keys)) == r.cells <==> r.cells.Keys == first.cells.Keys
  {
    ZipOfProject(r, first.keys);
    var back := Zip(first.keys, Project(r, first.keys));
    assert back.Keys == first.cells.Keys;
    if r.cells.Keys == first.cells.Keys {
      assert forall k :: k in back ==> back[k] == r.cells[k];
    }
  }

  /**
   Row count and order are kept; all rows are reconstructed exactly if and only if they all share the
   first row's key set.
   */
  lemma InsertKeepsRows(rows: seq<Row>)
    requires rows != [] && ValidRow(rows[0])
    ensures InsertStatement(rows).Some?
    ensures var s := InsertStatement(rows).value;
      && s.columns == rows[0].keys
      && |s.data| == |rows| && (forall i :: 0 <= i < |rows| ==> |s.data[i]| == |s.columns|)
      && (forall i, j :: 0 <= i < |rows| && 0 <= j < |s.columns| ==>
            s.data[i][j] == if s.columns[j] in rows[i].cells then rows[i].cells[s.columns[j]] else Null)
      && ((forall i :: 0 <= i < |rows| ==> Zip(s.columns, s.data[i]) == rows[i].cells)
          <==> forall i :: 0 <= i < |rows| ==> rows[i].cells.Keys == rows[0].cells.Keys)
  {
    hide Zip;
    var s := InsertStatement(rows).value;
    forall i | 0 <= i < |rows|
      ensures Zip(s.columns, s.data[i]) == rows[i].cells <==> rows[i].cells.Keys == rows[0].cells.Keys
    {
      RowRoundTrip(rows[0], rows[i]);
    }
  }

  /** Nothing is sent exactly if there are no rows. */
  lemma NothingSentForNoRows(rows: seq<Row>)
    ensures InsertStatement(rows).None? <==> rows == []
  {
  }
}
