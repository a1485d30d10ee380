/**
 * The facility table (a pandas DataFrame in mmp.py) as a value: a set of
 * column names and an ordered sequence of rows.
 *
 * Text cells are modelled after `astype(str)`, so a cell that pandas reads as
 * missing (NaN) is the string "nan". The two coordinate columns `Latitud` and
 * `Longitud` are kept apart from the text cells as optional values: `None`
 * stands for NaN.
 */
module Frames {
  import opened Wrappers

  /** A latitude or a longitude; the program does no arithmetic on it. */
  type Coordinate = real

  datatype Row = Row(cells: map<string, string>, latitude: Option<Coordinate>, longitude: Option<Coordinate>)

  datatype Table = Table(columns: set<string>, rows: seq<Row>)

  /** A table is rectangular: every row has a cell for exactly the table's columns. */
  predicate WellFormed(t: Table) {
    forall i :: 0 <= i < |t.rows| ==> t.rows[i].cells.Keys == t.columns
  }

  /** `df[name]`: the values of one column, in row order. */
  function Column(t: Table, name: string): (values: seq<string>)
    requires WellFormed(t) && name in t.columns
    ensures |values| == |t.rows|
    ensures forall i :: 0 <= i < |t.rows| ==> values[i] == t.rows[i].cells[name]
  {
    seq(|t.rows|, i requires 0 <= i < |t.rows| => t.rows[i].cells[name])
  }

  /**
   * `df[name] = values`: the column is created when missing and overwritten
   * when present; row i receives values[i]; nothing else changes.
   */
  function WithColumn(t: Table, name: string, values: seq<string>): (u: Table)
    requires WellFormed(t) && |values| == |t.rows|
    ensures WellFormed(u) && u.columns == t.columns + {name} && |u.rows| == |t.rows|
    ensures forall i :: 0 <= i < |u.rows| ==> u.rows[i].cells[name] == values[i]
    ensures forall i, c :: 0 <= i < |u.rows| && c in t.columns && c != name ==>
              u.rows[i].cells[c] == t.rows[i].cells[c]
    ensures forall i :: 0 <= i < |u.rows| ==>
              u.rows[i].latitude == t.rows[i].latitude && u.rows[i].longitude == t.rows[i].longitude
  {
    Table(t.columns + {name},
          seq(|t.rows|, i requires 0 <= i < |t.rows| => t.rows[i].(cells := t.rows[i].cells[name := values[i]])))
  }

  /** `df["Latitud"] = latitudes; df["Longitud"] = longitudes`: text cells are untouched. */
  function WithCoordinates(t: Table, latitudes: seq<Option<Coordinate>>, longitudes: seq<Option<Coordinate>>): (u: Table)
    requires WellFormed(t) && |latitudes| == |t.rows| && |longitudes| == |t.rows|
    ensures WellFormed(u) && u.columns == t.columns && |u.rows| == |t.rows|
    ensures forall i :: 0 <= i < |u.rows| ==>
              u.rows[i].cells == t.rows[i].cells &&
              u.rows[i].latitude == latitudes[i] && u.rows[i].longitude == longitudes[i]
  {
    Table(t.columns,
          seq(|t.rows|, i requires 0 <= i < |t.rows| => t.rows[i].(latitude := latitudes[i], longitude := longitudes[i])))
  }

  /** Writing a column back with its own values leaves the table as it was. */
  lemma WithColumnOfOwnValues(t: Table, name: string)
    requires WellFormed(t) && name in t.columns
    ensures WithColumn(t, name, Column(t, name)) == t
  {
    var u := WithColumn(t, name, Column(t, name));
    forall i | 0 <= i < |t.rows|
      ensures u.rows[i] == t.rows[i]
    {
      assert u.rows[i].cells == t.rows[i].cells;
    }
    assert u.columns == t.columns;
  }
}
