# Peruvian mining-facility map: data preparation and click handling

A Dafny model of the data pipeline in `mmp.py`, the Dash application that
shows Peruvian mining facilities on a map. The model covers:

- the loader `cargar_y_geocodificar_datos`: the geocoded spreadsheet if it
  exists, otherwise the raw spreadsheet enriched by geocoding each row's
  `Nombre, Región, Perú` query, otherwise no table;
- the enrichment loop that appends one latitude and one longitude per row;
- `dropna` on the two coordinate columns;
- the normalisation loop over the six required text columns (`"nan"` becomes
  `"No disponible"`, a missing column is created as `"No disponible"`);
- the click callback's decisions: the placeholder panel on no click, the
  first row whose `Nombre` equals the clicked name, and whether the `Link`
  is shown as a hyperlink.

Modules: `Wrappers` (Option, Result), `Frames` (the table as a value: a set
of column names and an ordered sequence of rows; `df[col] = values`),
`Geocoding` (query string, geocoder outcome, the enrichment loop),
`Preparation` (dropna, normalisation, the loader as a function and its
properties), `Pipeline` (the same loader in the source's in-place form: a
`DataFrame` class whose methods update its rows and columns, with the two
loops), `Display` (lookup, link rendering, click handling) and `Scenarios`
(a worked three-row case).

Text cells are modelled after pandas' `astype(str)`: a cell that is missing
in the spreadsheet is the string `"nan"`. Latitude and longitude are kept
beside the text cells as `Option<real>`; `None` stands for NaN. The
Nominatim geocoder behind its rate limiter is a parameter: a total function
from a query to `Found(location)`, `NoMatch` (the call returned None) or
`Raised` (the call threw). Each spreadsheet is an `Option<Table>`
parameter: `None` when the file does not exist.

Behaviour of the code worth knowing, all of it modelled as written:

- The code calls the geocoder once per row, in row order, with no per-query
  cache; repeated queries are sent again. The only cache is the whole
  geocoded spreadsheet.
- The code replaces only cells whose text is exactly `"nan"`; other blank
  values (an empty string) are kept.
- A click on a name with no matching row raises `IndexError` in the code
  (`.iloc[0]` on an empty selection); the model returns `Failure(IndexError)`.
- A missing base file makes the loader return `None`; the model returns
  `Failure(BaseFileMissing)`. A raw sheet without `Nombre` or `Región` makes
  the code raise `KeyError`; the model returns `Failure(KeyError(column))`.
- The hyperlink test is a plain prefix test on `"http"`, not a URL check.
- The written geocoded spreadsheet holds the `Ubicación` query column as well
  as the coordinates.
- The map shows every loaded row; the code has no filtering.

## Model

| member | source | states |
|---|---|---|
| Frames.Column | mmp.py:61 | `df[name]` reads one value per row, in row order, each the row's own cell |
| Frames.WithColumn | mmp.py:61-63 | `df[col] = values` creates or overwrites the column with one value per row, in row order; other columns, coordinates and the row count are unchanged |
| Frames.WithCoordinates | mmp.py:50-51 | assigning the latitude and longitude lists sets row i's coordinates to element i and leaves the text cells unchanged |
| Geocoding.LocationQuery | mmp.py:35 | the query splits back into the name, `", "`, the region and `", Perú"` |
| Geocoding.Queries | mmp.py:35 | the `Ubicación` column has one query per row, built from that row's `Nombre` and `Región` |
| Geocoding.LatitudeOf | mmp.py:42-48 | a latitude is recorded iff the geocoder found a location; no match and an exception both record NaN |
| Geocoding.LongitudeOf | mmp.py:42-48 | a longitude is recorded iff the geocoder found a location; no match and an exception both record NaN |
| Geocoding.GeocodeAll | mmp.py:39-49 | the loop yields exactly one latitude and one longitude per query, in query order; entry i is present iff the geocoder found query i, and the two lists are present at the same positions |
| Geocoding.Enrich | mmp.py:35-51 | each enriched row holds its own query in `Ubicación` and the coordinates the geocoder returned for that query; all other cells and the row count are unchanged |
| Preparation.HasCoordinates | mmp.py:55 | a row lacks coordinates iff its latitude or its longitude is missing: `dropna` over both columns drops on either one (`how='any'`) |
| Preparation.KeepLocated | mmp.py:55 | the rows kept by `dropna` all have both coordinates, and there are no more of them than before |
| Preparation.KeepLocatedSelectsLocated | mmp.py:55 | the kept rows are the input read at strictly increasing positions: order is preserved |
| Preparation.LocatedPositionsExact | mmp.py:55 | a position is kept iff its row has both coordinates: no located row is removed and no unlocated row survives |
| Preparation.KeepLocatedKeepsLocatedRows | mmp.py:55 | every row with both coordinates occurs as often after the drop as before |
| Preparation.KeepLocatedOfLocated | mmp.py:55 | dropping on a table whose rows all have coordinates changes nothing |
| Preparation.KeepLocatedIsSubset | mmp.py:55 | every kept row is a row of the input |
| Preparation.DropMissingCoordinates | mmp.py:55 | the drop keeps the table rectangular with the same columns |
| Preparation.Clean | mmp.py:61 | the replacement turns exactly the cell `"nan"` into `"No disponible"`, leaves every other cell unchanged and never yields `"nan"` |
| Preparation.CleanAll | mmp.py:61 | the replacement applies cell by cell and keeps the column's length |
| Preparation.NormalizeColumn | mmp.py:60-63 | one pass creates the column as `"No disponible"` when missing, otherwise replaces its `"nan"` cells; other columns and coordinates are unchanged |
| Preparation.NormalizeCleanColumn | mmp.py:60-61 | a pass over an existing column with no `"nan"` cell leaves the table as it was |
| Preparation.NormalizeAll | mmp.py:58-63 | after the loop every listed column exists, no other column is added and the row count is unchanged |
| Preparation.NormalizeStep | mmp.py:59-63 | one more pass of the loop keeps the cell-by-cell description of the result |
| Preparation.NormalizeAllCells | mmp.py:58-63 | after the loop a pre-existing listed cell is `"No disponible"` if it was `"nan"` and unchanged otherwise, a created column is `"No disponible"` throughout, unlisted columns and coordinates are unchanged |
| Preparation.NormalizeIdempotent | mmp.py:59-63 | running the normalisation loop a second time changes nothing |
| Preparation.Prepare | mmp.py:55-63 | the prepared table is rectangular, has all six required columns and no more rows than its input |
| Preparation.PreparedTableIsClean | mmp.py:55-63 | every prepared row has both coordinates and every required cell, none of them `"nan"` |
| Preparation.PrepareIdempotent | mmp.py:55-63 | preparing an already prepared table changes nothing |
| Preparation.Load | mmp.py:21-65 | the loader fails with `BaseFileMissing` exactly when both files are absent; a loaded table is rectangular and has all six required columns |
| Preparation.Persisted | mmp.py:52 | a table is written iff the geocoded file is absent and the raw file exists with `Nombre` and `Región`; what is written is the enriched raw table before `dropna`: every raw row, unresolved ones included, with the `Ubicación` column and the geocoded coordinates |
| Preparation.LoadFailureCases | mmp.py:23-35 | the loader fails iff the geocoded file is absent and the raw file is absent or lacks `Nombre` or `Región` |
| Preparation.CachedFileSkipsGeocoder | mmp.py:23-25 | with the geocoded file present, neither the raw file nor the geocoder affects the result, and nothing is written |
| Preparation.CacheReproducesFirstRun | mmp.py:24-52 | a later run that reads the written file loads the same table as the run that wrote it, whatever the geocoder then answers |
| Pipeline.DataFrame.ReadExcel | mmp.py:24-30 | reading a file gives a frame holding the stored table |
| Pipeline.DataFrame.SetColumn | mmp.py:61-63 | the in-place column assignment leaves the frame holding `WithColumn` of its old table |
| Pipeline.DataFrame.SetCoordinates | mmp.py:50-51 | the in-place coordinate assignment leaves the frame holding `WithCoordinates` of its old table |
| Pipeline.DataFrame.DropNa | mmp.py:55 | the in-place drop leaves the frame holding `DropMissingCoordinates` of its old table; every remaining row has both coordinates |
| Pipeline.DataFrame.NormalizeRequiredColumns | mmp.py:58-63 | the in-place loop over the six columns leaves the frame holding `NormalizeAll` of its old table |
| Pipeline.LoadAndGeocode | mmp.py:21-65 | the imperative loader returns exactly what `Load` specifies, in a fresh frame, and writes exactly what `Persisted` specifies |
| Display.FirstMatch | mmp.py:130 | the result is the first position whose `Nombre` equals the name, and None iff no row has that name |
| Display.StartsWith | mmp.py:134 | `str.startswith`: true iff the prefix fits and matches the string character by character, case-sensitively |
| Display.RenderLink | mmp.py:133-137 | a hyperlink to the link iff it is not `"No disponible"` and starts with `"http"`; otherwise the text `"No disponible"` |
| Display.HyperlinkIffHttpPrefix | mmp.py:134 | the sentinel test is redundant: a hyperlink is shown iff the link starts with `"http"` |
| Display.DetailsOf | mmp.py:133-151 | the panel shows the row's own name, company, region, main mineral and deposit type; the link is a hyperlink to the link iff it is not `"No disponible"` and starts with `"http"`, otherwise the text `"No disponible"` |
| Display.DisplayClick | mmp.py:116-137 | no click gives the placeholder panel; a click fails with `IndexError` iff no row has the clicked name; otherwise the panel shows that name |
| Display.ClickShowsFirstNamedRow | mmp.py:127-151 | a click on a name shows the details of the first row in stored order with that name |
| Display.CleanRowPanelHasNoNan | mmp.py:139-151 | the panel of a row without `"nan"` in its required cells shows no `"nan"`, and a link shown as text reads `"No disponible"` |
| Display.PreparedPanelHasNoNan | mmp.py:59-63 | the panel of a prepared row shows no `"nan"`, and a link missing from the sheet is shown as `"No disponible"` |
| Display.LoadedPanelHasNoNan | mmp.py:59-151 | the same for every row of a table the loader returns |
| Scenarios.EnrichedThree | mmp.py:35-51 | with three raw rows and a geocoder that misses the second query, only the first and third rows get coordinates |
| Scenarios.KeepLocatedOfThree | mmp.py:55 | dropping from three rows whose middle one lacks coordinates keeps the outer two in order |
| Scenarios.DroppedThree | mmp.py:55 | in that case the drop leaves the first and third facilities, in order |
| Scenarios.UnresolvedFacilityIsDropped | mmp.py:21-65 | in that case the loader returns the first and third facilities in order, with the missing `Link` column set to `"No disponible"` in both rows |

## Left out

- The Nominatim geocoder, its rate limiter (one-second minimum delay,
  retries) and the network: replaced by the `geocode` parameter. A function
  parameter answers the same query the same way every time, which the real
  service need not do.
- Spreadsheet reading and writing: each file is an `Option<Table>`
  parameter and the written table is an output value. pandas' type inference
  (a numeric name read as a number, then turned into text by `astype(str)`)
  is not modelled: cells are the text `astype(str)` would give.
- Floating point and NaN: coordinates are opaque `real` values in an
  `Option`, with no range checks; the code does none.
- A geocoded spreadsheet without `Latitud` or `Longitud` columns (where
  `dropna` would raise `KeyError`): in the model every row carries both
  coordinate fields.
- Column order and duplicate column names: the model's columns are a set.
- `tqdm` progress output, `print` messages, the Plotly figure and layout, the
  Dash layout and callback registration, the HTML components of the panel,
  `webbrowser.open` and `app.run`.
- The shape of Dash's `clickData` (`points[0].customdata[0]`): a click is
  modelled as the clicked facility's name, or None.
- A failed load at module level (`df_minas` is None, and the figure
  construction then fails): the callback is modelled on a loaded table.
