/**
 * The decisions of the click callback `display_click_data` (mmp.py:116-152):
 * placeholder on no click, first-match lookup by name, and whether the link
 * is shown as a hyperlink. The HTML components themselves are not modelled.
 */
module Display {
  import opened Wrappers
  import opened Frames
  import opened Geocoding
  import opened Preparation

  /**
   * `df_minas[df_minas['Nombre'] == name].iloc[0]`, as a position: the first
   * row in stored order whose name is `name`, or None when no row has it
   * (where `.iloc[0]` raises).
   */
  function FirstMatch(rows: seq<Row>, name: string): (r: Option<nat>)
    requires forall k :: 0 <= k < |rows| ==> NameColumn in rows[k].cells
    ensures r.Some? ==>
              r.value < |rows| && rows[r.value].cells[NameColumn] == name &&
              forall j :: 0 <= j < r.value ==> rows[j].cells[NameColumn] != name
    ensures r.None? <==> forall j :: 0 <= j < |rows| ==> rows[j].cells[NameColumn] != name
  {
    if rows == [] then None
    else if rows[0].cells[NameColumn] == name then Some(0)
    else
      match FirstMatch(rows[1..], name)
      case None => None
      case Some(k) => Some(k + 1)
  }

  /** `str.startswith`: a case-sensitive, character-by-character prefix test. */
  function StartsWith(s: string, prefix: string): (b: bool)
    ensures b <==> |prefix| <= |s| && forall i :: 0 <= i < |prefix| ==> s[i] == prefix[i]
  {
    |prefix| <= |s| && s[..|prefix|] == prefix
  }

  datatype LinkView = Hyperlink(href: string) | PlainText(text: string)

  /** The link component: a hyperlink iff the link is not the sentinel and starts with "http". */
  function RenderLink(link: string): (v: LinkView)
    ensures v.Hyperlink? <==> link != Unavailable && StartsWith(link, "http")
    ensures v.Hyperlink? ==> v.href == link
    ensures v.PlainText? ==> v.text == Unavailable
  {
    if link != Unavailable && StartsWith(link, "http") then Hyperlink(link) else PlainText(Unavailable)
  }

  /** The sentinel test is subsumed by the prefix test: "No disponible" does not start with "http". */
  lemma HyperlinkIffHttpPrefix(link: string)
    ensures RenderLink(link).Hyperlink? <==> StartsWith(link, "http")
  {
    if StartsWith(link, "http") {
      assert link[0] == 'h' != Unavailable[0];
    }
  }

  datatype Panel =
    | Placeholder
    | Details(name: string, company: string, region: string, mineral: string, depositType: string, link: LinkView)

  /** `.iloc[0]` on an empty selection. */
  datatype CallbackError = IndexError

  /** The detail panel of one row. */
  function DetailsOf(r: Row): (p: Panel)
    requires forall c :: c in RequiredColumns ==> c in r.cells
    ensures p.Details?
    ensures p.name == r.cells["Nombre"] && p.company == r.cells["Empresa"] && p.region == r.cells["Región"]
    ensures p.mineral == r.cells["Mineral principal"] && p.depositType == r.cells["Tipo de yacimiento"]
    ensures p.link.Hyperlink? <==> r.cells["Link"] != Unavailable && StartsWith(r.cells["Link"], "http")
    ensures p.link.Hyperlink? ==> p.link.href == r.cells["Link"]
    ensures p.link.PlainText? ==> p.link.text == Unavailable
  {
    Details(r.cells["Nombre"], r.cells["Empresa"], r.cells["Región"], r.cells["Mineral principal"],
            r.cells["Tipo de yacimiento"], RenderLink(r.cells["Link"]))
  }

  /** The panel shown for a click on the map; a click carries the name of the clicked facility. */
  function DisplayClick(t: Table, click: Option<string>): (r: Result<Panel, CallbackError>)
    requires WellFormed(t) && forall c :: c in RequiredColumns ==> c in t.columns
    ensures click.None? ==> r == Success(Placeholder)
    ensures click.Some? ==>
              (r.Failure? <==> forall j :: 0 <= j < |t.rows| ==> t.rows[j].cells[NameColumn] != click.value)
    ensures click.Some? && r.Success? ==> r.value.Details? && r.value.name == click.value
  {
    match click
    case None => Success(Placeholder)
    case Some(name) =>
      match FirstMatch(t.rows, name)
      case None => Failure(IndexError)
      case Some(k) => Success(DetailsOf(t.rows[k]))
  }

  /**
   * A click on the name of row `k`, where no earlier row has that name, shows
   * the details of row `k`: with duplicated names the first row wins.
   */
  lemma ClickShowsFirstNamedRow(t: Table, k: nat)
    requires WellFormed(t) && forall c :: c in RequiredColumns ==> c in t.columns
    requires k < |t.rows|
    requires forall j :: 0 <= j < k ==> t.rows[j].cells[NameColumn] != t.rows[k].cells[NameColumn]
    ensures DisplayClick(t, Some(t.rows[k].cells[NameColumn])) == Success(DetailsOf(t.rows[k]))
  {
    var m := FirstMatch(t.rows, t.rows[k].cells[NameColumn]);
    assert m.Some?;
  }

  /** A panel built from a row with no "nan" in its required cells shows no "nan". */
  ghost predicate PanelHasNoNan(p: Panel)
    requires p.Details?
  {
    p.name != "nan" && p.company != "nan" && p.region != "nan" && p.mineral != "nan" &&
    p.depositType != "nan" && (p.link.Hyperlink? ==> p.link.href != "nan") &&
    (p.link.PlainText? ==> p.link.text == Unavailable)
  }

  /**
   * The panel of a clean row never shows "nan": every shown field is a real
   * value or "No disponible", and a link that was missing in the sheet is
   * shown as the plain text "No disponible".
   */
  lemma CleanRowPanelHasNoNan(r: Row)
    requires RowIsClean(r)
    ensures PanelHasNoNan(DetailsOf(r))
  {
    assert r.cells["Nombre"] != "nan" && r.cells["Empresa"] != "nan" && r.cells["Región"] != "nan";
    assert r.cells["Mineral principal"] != "nan" && r.cells["Tipo de yacimiento"] != "nan";
    assert r.cells["Link"] != "nan";
  }

  /** The same for every row of a prepared table. */
  lemma PreparedPanelHasNoNan(t: Table, k: nat)
    requires WellFormed(t)
    requires k < |Prepare(t).rows|
    ensures PanelHasNoNan(DetailsOf(Prepare(t).rows[k]))
  {
    PreparedTableIsClean(t);
    CleanRowPanelHasNoNan(Prepare(t).rows[k]);
  }

  /** The same on whatever table the loader returns. */
  lemma LoadedPanelHasNoNan(geocodedFile: Option<Table>, rawFile: Option<Table>, geocode: string -> GeocodeOutcome, k: nat)
    requires geocodedFile.Some? ==> WellFormed(geocodedFile.value)
    requires rawFile.Some? ==> WellFormed(rawFile.value)
    requires Load(geocodedFile, rawFile, geocode).Success?
    requires k < |Load(geocodedFile, rawFile, geocode).value.rows|
    ensures PanelHasNoNan(DetailsOf(Load(geocodedFile, rawFile, geocode).value.rows[k]))
  {
    if geocodedFile.Some? {
      PreparedPanelHasNoNan(geocodedFile.value, k);
    } else {
      PreparedPanelHasNoNan(Enrich(rawFile.value, geocode), k);
    }
  }
}
