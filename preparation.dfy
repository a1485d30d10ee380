/**
 * Data preparation and the file fallback of `cargar_y_geocodificar_datos`
 * (mmp.py:21-65), as functions on table values with their properties.
 */
module Preparation {
  import opened Wrappers
  import opened Frames
  import opened Geocoding

  /** The sentinel written for missing text. */
  const Unavailable := "No disponible"

  /** The six text columns the map and the detail panel rely on. */
  const RequiredColumns := ["Nombre", "Empresa", "Región", "Mineral principal", "Tipo de yacimiento", "Link"]

  // ----- dropna(subset=['Latitud', 'Longitud']) -----

  /** `dropna(subset=['Latitud', 'Longitud'])` drops a row when either coordinate is missing. */
  predicate HasCoordinates(r: Row): (located: bool)
    ensures !located <==> r.latitude == None || r.longitude == None
  {
    r.latitude.Some? && r.longitude.Some?
  }

  /** The rows that keep both coordinates, in their original order. */
  function KeepLocated(rows: seq<Row>): (kept: seq<Row>)
    ensures |kept| <= |rows|
    ensures forall k :: 0 <= k < |kept| ==> HasCoordinates(kept[k])
  {
    if rows == [] then []
    else if HasCoordinates(rows[0]) then [rows[0]] + KeepLocated(rows[1..])
    else KeepLocated(rows[1..])
  }

  /** `kept` is the sequence rows[idx[0]], rows[idx[1]], ... with strictly increasing positions. */
  ghost predicate SelectsInOrder(kept: seq<Row>, rows: seq<Row>, idx: seq<int>) {
    |idx| == |kept| &&
    (forall k :: 0 <= k < |idx| ==> 0 <= idx[k] < |rows| && kept[k] == rows[idx[k]]) &&
    (forall k, l :: 0 <= k < l < |idx| ==> idx[k] < idx[l])
  }

  /** Every position in `idx`, plus one. */
  ghost function Shifted(idx: seq<int>): (r: seq<int>)
    ensures |r| == |idx|
    ensures forall k :: 0 <= k < |idx| ==> r[k] == idx[k] + 1
  {
    seq(|idx|, k requires 0 <= k < |idx| => idx[k] + 1)
  }

  /** The positions of the rows that have both coordinates, ascending. */
  ghost function LocatedPositions(rows: seq<Row>): seq<int>
  {
    if rows == [] then []
    else if HasCoordinates(rows[0]) then [0] + Shifted(LocatedPositions(rows[1..]))
    else Shifted(LocatedPositions(rows[1..]))
  }

  /**
   * Dropping rows without coordinates keeps the input read at the located
   * positions, in their original order.
   */
  lemma {:induction false} KeepLocatedSelectsLocated(rows: seq<Row>)
    ensures SelectsInOrder(KeepLocated(rows), rows, LocatedPositions(rows))
  {
    if rows != [] {
      KeepLocatedSelectsLocated(rows[1..]);
      var rest := LocatedPositions(rows[1..]);
      var kept := KeepLocated(rows[1..]);
      assert SelectsInOrder(kept, rows[1..], rest);
      var shifted := Shifted(rest);
      assert SelectsInOrder(kept, rows, shifted) by {
        forall k | 0 <= k < |shifted|
          ensures 0 <= shifted[k] < |rows| && kept[k] == rows[shifted[k]]
        {
          assert kept[k] == rows[1..][rest[k]];
        }
      }
      if HasCoordinates(rows[0]) {
        var idx := [0] + shifted;
        assert KeepLocated(rows) == [rows[0]] + kept;
        forall k | 0 < k < |idx|
          ensures idx[k] == shifted[k - 1] && idx[k] > 0
        {
        }
      }
    }
  }

  /** A position is located iff its row has both coordinates: no such row is dropped. */
  lemma {:induction false} LocatedPositionsExact(rows: seq<Row>)
    ensures forall j :: 0 <= j < |rows| ==> (j in LocatedPositions(rows) <==> HasCoordinates(rows[j]))
  {
    if rows != [] {
      LocatedPositionsExact(rows[1..]);
      var rest := LocatedPositions(rows[1..]);
      var shifted := Shifted(rest);
      forall j | 0 < j < |rows|
        ensures j in shifted <==> HasCoordinates(rows[j])
      {
        assert rows[1..][j - 1] == rows[j];
        if j - 1 in rest {
          var k :| 0 <= k < |rest| && rest[k] == j - 1;
          assert shifted[k] == j;
        }
      }
      assert 0 !in shifted by {
        KeepLocatedSelectsLocated(rows[1..]);
      }
    }
  }

  /** No row with both coordinates is dropped: it occurs as often after the drop as before. */
  lemma {:induction false} KeepLocatedKeepsLocatedRows(rows: seq<Row>, r: Row)
    requires HasCoordinates(r)
    ensures multiset(KeepLocated(rows))[r] == multiset(rows)[r]
  {
    if rows != [] {
      KeepLocatedKeepsLocatedRows(rows[1..], r);
      assert rows == [rows[0]] + rows[1..];
    }
  }

  /** A table whose rows all have coordinates is left alone by the drop. */
  lemma {:induction false} KeepLocatedOfLocated(rows: seq<Row>)
    requires forall k :: 0 <= k < |rows| ==> HasCoordinates(rows[k])
    ensures KeepLocated(rows) == rows
  {
    if rows != [] {
      KeepLocatedOfLocated(rows[1..]);
      assert rows == [rows[0]] + rows[1..];
    }
  }

  function DropMissingCoordinates(t: Table): (u: Table)
    requires WellFormed(t)
    ensures WellFormed(u) && u.columns == t.columns
  {
    KeepLocatedIsSubset(t.rows);
    Table(t.columns, KeepLocated(t.rows))
  }

  /** Every kept row is one of the input rows. */
  lemma {:induction false} KeepLocatedIsSubset(rows: seq<Row>)
    ensures forall k :: 0 <= k < |KeepLocated(rows)| ==> KeepLocated(rows)[k] in rows
  {
    if rows != [] {
      KeepLocatedIsSubset(rows[1..]);
    }
  }

  // ----- normalisation of the required columns -----

  /** `replace('nan', 'No disponible')` on one cell: whole-cell match only. */
  function Clean(cell: string): (r: string)
    ensures r != "nan"
    ensures cell != "nan" ==> r == cell
    ensures cell == "nan" ==> r == Unavailable
  {
    if cell == "nan" then Unavailable else cell
  }

  function CleanAll(values: seq<string>): (r: seq<string>)
    ensures |r| == |values|
    ensures forall i :: 0 <= i < |values| ==> r[i] == Clean(values[i])
  {
    seq(|values|, i requires 0 <= i < |values| => Clean(values[i]))
  }

  /**
   * One pass of the normalisation loop, for column `name`: an existing column
   * has its "nan" cells replaced, a missing one is created as "No disponible"
   * throughout; the other columns and the coordinates are unchanged.
   */
  function NormalizeColumn(t: Table, name: string): (u: Table)
    requires WellFormed(t)
    ensures WellFormed(u) && u.columns == t.columns + {name} && |u.rows| == |t.rows|
    ensures forall i :: 0 <= i < |u.rows| ==>
              u.rows[i].cells[name] == if name in t.columns then Clean(t.rows[i].cells[name]) else Unavailable
    ensures forall i, c :: 0 <= i < |u.rows| && c in t.columns && c != name ==>
              u.rows[i].cells[c] == t.rows[i].cells[c]
    ensures forall i :: 0 <= i < |u.rows| ==>
              u.rows[i].latitude == t.rows[i].latitude && u.rows[i].longitude == t.rows[i].longitude
  {
    if name in t.columns then WithColumn(t, name, CleanAll(Column(t, name)))
    else WithColumn(t, name, seq(|t.rows|, _ => Unavailable))
  }

  /** A pass over an existing column that holds no "nan" cell changes nothing. */
  lemma NormalizeCleanColumn(t: Table, name: string)
    requires WellFormed(t) && name in t.columns
    requires forall i :: 0 <= i < |t.rows| ==> t.rows[i].cells[name] != "nan"
    ensures NormalizeColumn(t, name) == t
  {
    assert CleanAll(Column(t, name)) == Column(t, name);
    WithColumnOfOwnValues(t, name);
  }

  /** The normalisation loop over `names`, taken in order. */
  function NormalizeAll(t: Table, names: seq<string>): (u: Table)
    requires WellFormed(t)
    ensures WellFormed(u) && u.columns == t.columns + (set n | n in names) && |u.rows| == |t.rows|
  {
    if names == [] then t
    else NormalizeColumn(NormalizeAll(t, names[..|names| - 1]), names[|names| - 1])
  }

  /** What a cell is after normalising `names`, stated from the table before it. */
  function ExpectedCell(t: Table, names: seq<string>, i: int, c: string): string
    requires WellFormed(t) && 0 <= i < |t.rows| && (c in t.columns || c in names)
  {
    if c !in names then t.rows[i].cells[c]
    else if c in t.columns then Clean(t.rows[i].cells[c])
    else Unavailable
  }

  /** `u` is `t` after normalising `names`, cell by cell, with the same coordinates. */
  ghost predicate NormalizedFrom(t: Table, names: seq<string>, u: Table)
    requires WellFormed(t) && WellFormed(u)
    requires u.columns == t.columns + (set n | n in names) && |u.rows| == |t.rows|
  {
    (forall i, c :: 0 <= i < |u.rows| && c in u.columns ==> u.rows[i].cells[c] == ExpectedCell(t, names, i, c)) &&
    (forall i :: 0 <= i < |u.rows| ==>
       u.rows[i].latitude == t.rows[i].latitude && u.rows[i].longitude == t.rows[i].longitude)
  }

  /** One more pass of the loop keeps the cell-by-cell description. */
  lemma NormalizeStep(t: Table, names: seq<string>, last: string, v: Table)
    requires WellFormed(t) && WellFormed(v)
    requires v.columns == t.columns + (set n | n in names) && |v.rows| == |t.rows|
    requires NormalizedFrom(t, names, v)
    ensures var u := NormalizeColumn(v, last);
      u.columns == t.columns + (set n | n in names + [last]) && NormalizedFrom(t, names + [last], u)
  {
    var u := NormalizeColumn(v, last);
    var all := names + [last];
    assert forall c :: c in all <==> c in names || c == last;
    forall i, c | 0 <= i < |u.rows| && c in u.columns
      ensures u.rows[i].cells[c] == ExpectedCell(t, all, i, c)
    {
      if c == last {
        if c in v.columns {
          assert v.rows[i].cells[c] == ExpectedCell(t, names, i, c);
        }
      } else {
        assert u.rows[i].cells[c] == v.rows[i].cells[c] == ExpectedCell(t, names, i, c);
      }
    }
  }

  /**
   * After normalisation every listed column exists; in a column that existed,
   * a "nan" cell became "No disponible" and every other cell is unchanged; a
   * column that did not exist is "No disponible" in every row; the other
   * columns, the coordinates and the number of rows are unchanged.
   */
  lemma {:induction false} NormalizeAllCells(t: Table, names: seq<string>)
    requires WellFormed(t)
    ensures NormalizedFrom(t, names, NormalizeAll(t, names))
  {
    if names != [] {
      var init := names[..|names| - 1];
      var last := names[|names| - 1];
      NormalizeAllCells(t, init);
      NormalizeStep(t, init, last, NormalizeAll(t, init));
      assert init + [last] == names;
    }
  }

  /** Normalising twice changes nothing more than normalising once. */
  lemma NormalizeIdempotent(t: Table, names: seq<string>)
    requires WellFormed(t)
    ensures NormalizeAll(NormalizeAll(t, names), names) == NormalizeAll(t, names)
  {
    var u := NormalizeAll(t, names);
    var v := NormalizeAll(u, names);
    NormalizeAllCells(t, names);
    NormalizeAllCells(u, names);
    assert v.columns == u.columns;
    forall i | 0 <= i < |u.rows|
      ensures v.rows[i] == u.rows[i]
    {
      forall c | c in u.columns
        ensures v.rows[i].cells[c] == u.rows[i].cells[c]
      {
        assert v.rows[i].cells[c] == ExpectedCell(u, names, i, c);
        if c in names {
          assert u.rows[i].cells[c] == ExpectedCell(t, names, i, c);
        }
      }
      assert v.rows[i].cells == u.rows[i].cells;
    }
  }

  // ----- the whole preparation and the file fallback -----

  /** What happens after either load path: dropna, then the normalisation loop. */
  function Prepare(t: Table): (u: Table)
    requires WellFormed(t)
    ensures WellFormed(u) && |u.rows| <= |t.rows|
    ensures forall c :: c in RequiredColumns ==> c in u.columns
  {
    NormalizeAll(DropMissingCoordinates(t), RequiredColumns)
  }

  datatype LoadError =
    | BaseFileMissing          // neither spreadsheet exists: the function returns None
    | KeyError(column: string) // the raw sheet lacks a column the query needs: uncaught exception

  /**
   * `cargar_y_geocodificar_datos`: the geocoded file when it exists, else the
   * raw file enriched by the geocoder, else no table. A file is `None` when
   * absent and otherwise the table it holds.
   */
  function Load(geocodedFile: Option<Table>, rawFile: Option<Table>, geocode: string -> GeocodeOutcome): (r: Result<Table, LoadError>)
    requires geocodedFile.Some? ==> WellFormed(geocodedFile.value)
    requires rawFile.Some? ==> WellFormed(rawFile.value)
    ensures r == Failure(BaseFileMissing) <==> geocodedFile.None? && rawFile.None?
    ensures r.Success? ==> WellFormed(r.value) && forall c :: c in RequiredColumns ==> c in r.value.columns
  {
    if geocodedFile.Some? then Success(Prepare(geocodedFile.value))
    else if rawFile.None? then Failure(BaseFileMissing)
    else if NameColumn !in rawFile.value.columns then Failure(KeyError(NameColumn))
    else if RegionColumn !in rawFile.value.columns then Failure(KeyError(RegionColumn))
    else Success(Prepare(Enrich(rawFile.value, geocode)))
  }

  /** The table written to the geocoded file on the raw path; nothing is written otherwise. */
  function Persisted(geocodedFile: Option<Table>, rawFile: Option<Table>, geocode: string -> GeocodeOutcome): (w: Option<Table>)
    requires rawFile.Some? ==> WellFormed(rawFile.value)
    ensures w.Some? <==>
              geocodedFile.None? && rawFile.Some? &&
              NameColumn in rawFile.value.columns && RegionColumn in rawFile.value.columns
    ensures w.Some? ==> w.value == Enrich(rawFile.value, geocode)
  {
    if geocodedFile.None? && rawFile.Some? && NameColumn in rawFile.value.columns && RegionColumn in rawFile.value.columns
    then Some(Enrich(rawFile.value, geocode))
    else None
  }

  /**
   * The loader fails only on the raw path: when the raw file is absent too,
   * or when the raw sheet lacks a column the query is built from.
   */
  lemma LoadFailureCases(geocodedFile: Option<Table>, rawFile: Option<Table>, geocode: string -> GeocodeOutcome)
    requires geocodedFile.Some? ==> WellFormed(geocodedFile.value)
    requires rawFile.Some? ==> WellFormed(rawFile.value)
    ensures Load(geocodedFile, rawFile, geocode).Failure? <==>
              geocodedFile.None? &&
              (rawFile.None? || NameColumn !in rawFile.value.columns || RegionColumn !in rawFile.value.columns)
  {
  }

  /** When the geocoded file exists, neither the raw file nor the geocoder affects the result. */
  lemma CachedFileSkipsGeocoder(cached: Table, raw1: Option<Table>, raw2: Option<Table>,
                                g1: string -> GeocodeOutcome, g2: string -> GeocodeOutcome)
    requires WellFormed(cached)
    requires raw1.Some? ==> WellFormed(raw1.value)
    requires raw2.Some? ==> WellFormed(raw2.value)
    ensures Load(Some(cached), raw1, g1) == Load(Some(cached), raw2, g2)
    ensures Persisted(Some(cached), raw1, g1).None?
  {
  }

  /**
   * A later run that finds the file written by the first run loads the same
   * table as the first run. This rests on the spreadsheet round trip being
   * lossless: the file read back is the very table that was written, which
   * leaves out pandas' type inference on reading.
   */
  lemma CacheReproducesFirstRun(raw: Table, geocode: string -> GeocodeOutcome, later: string -> GeocodeOutcome)
    requires WellFormed(raw) && NameColumn in raw.columns && RegionColumn in raw.columns
    ensures Persisted(None, Some(raw), geocode).Some?
    ensures Load(Persisted(None, Some(raw), geocode), None, later) == Load(None, Some(raw), geocode)
  {
  }

  /** A row as the map and the panel need it: located, with every required cell present and not "nan". */
  ghost predicate RowIsClean(r: Row) {
    HasCoordinates(r) &&
    forall c :: c in RequiredColumns ==> c in r.cells && r.cells[c] != "nan"
  }

  /**
   * A prepared table is rectangular, all six required columns exist, every
   * row has both coordinates and none of its required cells is "nan".
   */
  lemma {:induction false} PreparedTableIsClean(t: Table)
    requires WellFormed(t)
    ensures forall k :: 0 <= k < |Prepare(t).rows| ==> RowIsClean(Prepare(t).rows[k])
  {
    var d := DropMissingCoordinates(t);
    var u := Prepare(t);
    NormalizeAllCells(d, RequiredColumns);
    forall k | 0 <= k < |u.rows|
      ensures RowIsClean(u.rows[k])
    {
      assert HasCoordinates(d.rows[k]);
      forall c | c in RequiredColumns
        ensures c in u.rows[k].cells && u.rows[k].cells[c] != "nan"
      {
        assert u.rows[k].cells[c] == ExpectedCell(d, RequiredColumns, k, c);
      }
    }
  }

  /** Preparing a prepared table changes nothing. */
  lemma PrepareIdempotent(t: Table)
    requires WellFormed(t)
    ensures Prepare(Prepare(t)) == Prepare(t)
  {
    var u := Prepare(t);
    PreparedTableIsClean(t);
    assert forall k :: 0 <= k < |u.rows| ==> HasCoordinates(u.rows[k]) by {
      forall k | 0 <= k < |u.rows| ensures HasCoordinates(u.rows[k]) {
        assert RowIsClean(u.rows[k]);
      }
    }
    KeepLocatedOfLocated(u.rows);
    assert DropMissingCoordinates(u) == u;
    NormalizeIdempotent(DropMissingCoordinates(t), RequiredColumns);
  }
}
