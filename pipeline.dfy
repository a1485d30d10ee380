/**
 * `cargar_y_geocodificar_datos` (mmp.py:21-65) in the source's own shape: a
 * data frame object updated in place, the geocoding loop, `dropna(...,
 * inplace=True)` and the `for col in cols_necesarias` loop. Each step is
 * proved against the table functions of Frames, Geocoding and Preparation.
 */
module Pipeline {
  import opened Wrappers
  import opened Frames
  import opened Geocoding
  import opened Preparation

  class DataFrame {
    var columns: set<string>
    var rows: seq<Row>

    /** The table this frame currently holds. */
    function Value(): Table
      reads this
    {
      Table(columns, rows)
    }

    ghost predicate Valid()
      reads this
    {
      WellFormed(Value())
    }

    /** `pd.read_excel`: a frame holding the table stored in the file. */
    constructor ReadExcel(t: Table)
      requires WellFormed(t)
      ensures Valid() && Value() == t
    {
      columns, rows := t.columns, t.rows;
    }

    /** `df[name] = values`. */
    method SetColumn(name: string, values: seq<string>)
      requires Valid() && |values| == |rows|
      modifies this
      ensures Valid() && Value() == WithColumn(old(Value()), name, values)
    {
      var u := WithColumn(Value(), name, values);
      columns, rows := u.columns, u.rows;
    }

    /** `df["Latitud"] = latitudes; df["Longitud"] = longitudes`. */
    method SetCoordinates(latitudes: seq<Option<Coordinate>>, longitudes: seq<Option<Coordinate>>)
      requires Valid() && |latitudes| == |rows| && |longitudes| == |rows|
      modifies this
      ensures Valid() && Value() == WithCoordinates(old(Value()), latitudes, longitudes)
    {
      var u := WithCoordinates(Value(), latitudes, longitudes);
      rows := u.rows;
    }

    /** `df.dropna(subset=['Latitud', 'Longitud'], inplace=True)`. */
    method DropNa()
      requires Valid()
      modifies this
      ensures Valid() && Value() == DropMissingCoordinates(old(Value()))
      ensures forall k :: 0 <= k < |rows| ==> HasCoordinates(rows[k])
    {
      var u := DropMissingCoordinates(Value());
      rows := u.rows;
    }

    /** The `for col in cols_necesarias` loop, one column at a time, in place. */
    method NormalizeRequiredColumns()
      requires Valid()
      modifies this
      ensures Valid() && Value() == NormalizeAll(old(Value()), RequiredColumns)
    {
      ghost var start := Value();
      for k := 0 to |RequiredColumns|
        invariant Valid() && Value() == NormalizeAll(start, RequiredColumns[..k])
      {
        var col := RequiredColumns[k];
        assert RequiredColumns[..k + 1][..k] == RequiredColumns[..k];
        if col in columns {
          SetColumn(col, CleanAll(Column(Value(), col)));
        } else {
          SetColumn(col, seq(|rows|, _ => Unavailable));
        }
      }
      assert RequiredColumns[..|RequiredColumns|] == RequiredColumns;
    }
  }

  /**
   * The loader: read the geocoded file if it exists; otherwise read the raw
   * file, build the `Ubicación` column, geocode every row and write the
   * enriched table back (`written`); without either file there is no table.
   * Both paths then drop rows lacking coordinates and normalise the required
   * columns.
   */
  method LoadAndGeocode(geocodedFile: Option<Table>, rawFile: Option<Table>, geocode: string -> GeocodeOutcome)
    returns (result: Result<DataFrame, LoadError>, written: Option<Table>)
    requires geocodedFile.Some? ==> WellFormed(geocodedFile.value)
    requires rawFile.Some? ==> WellFormed(rawFile.value)
    ensures result.Failure? ==> Load(geocodedFile, rawFile, geocode) == Failure(result.error)
    ensures result.Success? ==>
              fresh(result.value) && result.value.Valid() &&
              Load(geocodedFile, rawFile, geocode) == Success(result.value.Value())
    ensures written == Persisted(geocodedFile, rawFile, geocode)
  {
    written := None;
    var df: DataFrame;
    if geocodedFile.Some? {
      df := new DataFrame.ReadExcel(geocodedFile.value);
    } else {
      if rawFile.None? {
        return Failure(BaseFileMissing), None;
      }
      df := new DataFrame.ReadExcel(rawFile.value);
      if NameColumn !in df.columns {
        return Failure(KeyError(NameColumn)), None;
      }
      if RegionColumn !in df.columns {
        return Failure(KeyError(RegionColumn)), None;
      }
      var queries := Queries(df.Value());
      df.SetColumn(LocationColumn, queries);
      var latitudes, longitudes := GeocodeAll(queries, geocode);
      df.SetCoordinates(latitudes, longitudes);
      assert df.Value() == Enrich(rawFile.value, geocode);
      written := Some(df.Value());
    }
    df.DropNa();
    df.NormalizeRequiredColumns();
    result := Success(df);
  }
}
