/** A worked case of the loader on the raw path. */
module Scenarios {
  import opened Wrappers
  import opened Frames
  import opened Geocoding
  import opened Preparation

  function RawRow(name: string, region: string): Row {
    Row(map["Nombre" := name, "Región" := region], None, None)
  }

  /** Three raw facilities, without any of the other required columns. */
  function ThreeFacilities(): (t: Table)
    ensures WellFormed(t)
  {
    Table({"Nombre", "Región"}, [RawRow("A", "Cusco"), RawRow("B", "Lima"), RawRow("C", "Puno")])
  }

  /** A geocoder that resolves every query except that of facility B. */
  function MissesB(here: Location): string -> GeocodeOutcome {
    (q: string) => if q == "B, Lima, Perú" then NoMatch else Found(here)
  }

  lemma EnrichedThree(here: Location)
    ensures var e := Enrich(ThreeFacilities(), MissesB(here));
      |e.rows| == 3 &&
      HasCoordinates(e.rows[0]) && !HasCoordinates(e.rows[1]) && HasCoordinates(e.rows[2]) &&
      e.rows[0].cells["Nombre"] == "A" && e.rows[2].cells["Nombre"] == "C"
  {
    var raw := ThreeFacilities();
    var e := Enrich(raw, MissesB(here));
    assert raw.rows[0].cells["Nombre"] == "A" && raw.rows[0].cells["Región"] == "Cusco";
    assert raw.rows[1].cells["Nombre"] == "B" && raw.rows[1].cells["Región"] == "Lima";
    assert raw.rows[2].cells["Nombre"] == "C" && raw.rows[2].cells["Región"] == "Puno";
    assert LocationQuery("A", "Cusco")[0] == 'A';
    assert LocationQuery("C", "Puno")[0] == 'C';
    assert LocationQuery("B", "Lima") == "B, Lima, Perú";
  }

  lemma KeepLocatedOfThree(a: Row, b: Row, c: Row)
    requires HasCoordinates(a) && !HasCoordinates(b) && HasCoordinates(c)
    ensures KeepLocated([a, b, c]) == [a, c]
  {
    assert [c][1..] == [];
    assert KeepLocated([c]) == [c];
    assert [b, c][1..] == [c];
    assert KeepLocated([b, c]) == [c];
    assert [a, b, c][1..] == [b, c];
    assert KeepLocated([a, b, c]) == [a] + [c];
  }

  lemma DroppedThree(here: Location)
    ensures var e := Enrich(ThreeFacilities(), MissesB(here));
      var d := DropMissingCoordinates(e);
      |d.rows| == 2 && d.rows[0].cells["Nombre"] == "A" && d.rows[1].cells["Nombre"] == "C" &&
      "Link" !in d.columns
  {
    var e := Enrich(ThreeFacilities(), MissesB(here));
    EnrichedThree(here);
    assert e.rows == [e.rows[0], e.rows[1], e.rows[2]];
    KeepLocatedOfThree(e.rows[0], e.rows[1], e.rows[2]);
  }

  /**
   * Three raw facilities, the second of which the geocoder cannot resolve:
   * the loaded table holds the other two, in order, with the missing
   * required columns filled with "No disponible".
   */
  lemma UnresolvedFacilityIsDropped(here: Location)
    ensures var r := Load(None, Some(ThreeFacilities()), MissesB(here));
      r.Success? && |r.value.rows| == 2 &&
      r.value.rows[0].cells["Nombre"] == "A" && r.value.rows[1].cells["Nombre"] == "C" &&
      r.value.rows[0].cells["Link"] == Unavailable && r.value.rows[1].cells["Link"] == Unavailable
  {
    var e := Enrich(ThreeFacilities(), MissesB(here));
    var d := DropMissingCoordinates(e);
    DroppedThree(here);
    var u := NormalizeAll(d, RequiredColumns);
    NormalizeAllCells(d, RequiredColumns);
    assert u.rows[0].cells["Nombre"] == ExpectedCell(d, RequiredColumns, 0, "Nombre") == Clean("A");
    assert u.rows[1].cells["Nombre"] == ExpectedCell(d, RequiredColumns, 1, "Nombre") == Clean("C");
    assert u.rows[0].cells["Link"] == ExpectedCell(d, RequiredColumns, 0, "Link");
    assert u.rows[1].cells["Link"] == ExpectedCell(d, RequiredColumns, 1, "Link");
    assert Load(None, Some(ThreeFacilities()), MissesB(here)) == Success(u);
  }
}
