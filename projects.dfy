/**
  Listing records as the API sends them and the formatted projects the
  hooks keep. Only the fields some decision, default or thrown error
  depends on are modelled; the many pass-through fields (`mobile`,
  `promoterName`, ...) are copied unchanged by every formatter and left out.

  A JSON field may be missing: `undefined` when the key is absent, or
  `null`. Reading a property of a missing field (`projectType[0]`,
  `configuration.value`, `totalUnits.toString()`) throws a `TypeError`
  whose message names the kind of missing value and the property; the
  hooks' `catch` stores that message.
 */
module Projects {
  import opened Common
  import opened JsText

  /** The two ways a JSON field can be missing. */
  datatype Absence = Undefined | Null

  /** The start of V8's message for reading a property of a missing value, up to the property's name. */
  function TypeErrorLead(absence: Absence): string
  {
    "Cannot read properties of " + (if absence.Null? then "null" else "undefined") + " (reading '"
  }

  /** V8's message for reading `property` of a missing value. */
  function TypeErrorOf(absence: Absence, property: string): string
  {
    TypeErrorLead(absence) + property + "')"
  }

  /** The message tells which kind of value was missing and which property was read. */
  lemma TypeErrorInjective(a: Absence, p: string, b: Absence, q: string)
    requires TypeErrorOf(a, p) == TypeErrorOf(b, q)
    ensures a == b && p == q
  {
    var s := TypeErrorOf(a, p);
    var n := |"Cannot read properties of "|;
    assert s[n] == TypeErrorLead(a)[n] == (if a.Null? then 'n' else 'u');
    assert s[n] == TypeErrorLead(b)[n] == (if b.Null? then 'n' else 'u');
    var k := |TypeErrorLead(a)|;
    assert s[k..|s| - 2] == p;
    assert s[k..|s| - 2] == q;
  }

  /** A JSON field that should hold an array of strings. */
  datatype JsonList = Array(items: seq<string>) | Missing(absence: Absence)

  /** `list[0] || fallback`: the thrown message when the list is missing. */
  function FirstOr(l: JsonList, fallback: string): (r: Result<string>)
    ensures r.Failure? <==> l.Missing?
    ensures r.Failure? ==> r.error == TypeErrorOf(l.absence, "0")
    ensures r.Success? && r.value != fallback ==> l.items != [] && r.value == l.items[0] && r.value != ""
    ensures l.Array? && l.items != [] && l.items[0] != "" ==> r == Success(l.items[0])
  {
    match l
    case Missing(a) => Failure(TypeErrorOf(a, "0"))
    case Array(xs) => if xs != [] && xs[0] != "" then Success(xs[0]) else Success(fallback)
  }

  /** `Array.isArray(l) ? l : []`. */
  function ArrayOr(l: JsonList): seq<string>
  {
    if l.Array? then l.items else []
  }

  /** `Array.isArray(l) ? l.join(', ') : ''`. */
  function JoinedOr(l: JsonList): string
  {
    if l.Array? then Join(l.items, ", ") else ""
  }

  /** The `configuration` object of a residential record; only its `value` is read. */
  datatype Configuration = Config(value: string) | NoConfig(absence: Absence)

  /** A residential listing record (`ResidentialApiResponse['projects'][0]`). */
  datatype ResidentialRecord = ResidentialRecord(
    name: string,
    rera: string,
    coverPhotoLink: string,
    brochureLink: string,
    coordinates: Option<string>,
    /** The capitalised `Coordinates` some records carry instead. */
    upperCoordinates: Option<string>,
    projectType: JsonList,
    localityNames: JsonList,
    bhk: JsonList,
    configuration: Configuration)

  /** The formatted `ResidentialProject`. */
  datatype ResidentialProject = ResidentialProject(
    name: string,
    locality: string,
    propertyType: string,
    unitSizes: string,
    bhk: seq<string>,
    brochureLink: string,
    rera: string,
    coordinates: Option<string>,
    coverPhotoLink: string,
    localityNames: JsonList,
    projectType: seq<string>,
    configuration: Configuration)

  /**
    The fields both residential formatters compute the same way. The object
    literal reads `projectType[0]` before `configuration.value`, so a record
    missing both reports the first read.
   */
  function FormatResidentialWith(p: ResidentialRecord, coordinates: Option<string>): Result<ResidentialProject>
  {
    match FirstOr(p.projectType, "")
    case Failure(e) => Failure(e)
    case Success(propertyType) =>
      match p.configuration
      case NoConfig(a) => Failure(TypeErrorOf(a, "value"))
      case Config(unitSizes) =>
        Success(ResidentialProject(p.name, JoinedOr(p.localityNames), propertyType, unitSizes,
          ArrayOr(p.bhk), p.brochureLink, p.rera, coordinates, p.coverPhotoLink, p.localityNames,
          ArrayOr(p.projectType), p.configuration))
  }

  /** `formatProject` of the viewport card hook: coordinates fall back to `Coordinates`, then to ''. */
  function FormatResidentialCard(p: ResidentialRecord): Result<ResidentialProject>
  {
    var c := Or(p.coordinates, p.upperCoordinates);
    FormatResidentialWith(p, Some(if Truthy(c) then c.value else ""))
  }

  /** `formatProject` of the plain residential list: coordinates copied as they are. */
  function FormatResidentialListing(p: ResidentialRecord): Result<ResidentialProject>
  {
    FormatResidentialWith(p, p.coordinates)
  }

  /** The record has what both residential formatters read: a `projectType` array and a `configuration`. */
  predicate Formattable(p: ResidentialRecord)
  {
    p.projectType.Array? && p.configuration.Config?
  }

  /**
    The thrown errors of a residential formatter: a missing `projectType`
    reports index '0', and otherwise a missing `configuration` reports
    'value'; each message names `undefined` or `null` as the record has it.
   */
  lemma ResidentialErrors(p: ResidentialRecord)
    ensures FormatResidentialCard(p).Success? <==> Formattable(p)
    ensures FormatResidentialListing(p).Success? <==> Formattable(p)
    ensures p.projectType.Missing? ==>
      FormatResidentialCard(p) == FormatResidentialListing(p) == Failure(TypeErrorOf(p.projectType.absence, "0"))
    ensures p.projectType.Array? && p.configuration.NoConfig? ==>
      FormatResidentialCard(p) == FormatResidentialListing(p) == Failure(TypeErrorOf(p.configuration.absence, "value"))
  {
  }

  /**
    The formatting defaults of a record that formats: the unit sizes are
    the configuration's value; locality, property type, bhk and project
    type fall back to '', '', [] and [] respectively; the card variant's
    coordinates are the first non-empty of `coordinates` and
    `Coordinates`, else ''.
   */
  lemma ResidentialDefaults(p: ResidentialRecord)
    requires Formattable(p)
    ensures var f := FormatResidentialCard(p).value;
      && f.unitSizes == p.configuration.value
      && (p.localityNames.Missing? ==> f.locality == "")
      && (p.localityNames.Array? ==> f.locality == Join(p.localityNames.items, ", "))
      && (p.projectType.items == [] ==> f.propertyType == "" && f.projectType == [])
      && (p.projectType.items != [] ==> f.propertyType == p.projectType.items[0] && f.projectType == p.projectType.items)
      && (p.bhk.Missing? ==> f.bhk == [])
      && f.coordinates.Some?
      && (Truthy(p.coordinates) ==> f.coordinates == p.coordinates)
      && (!Truthy(p.coordinates) && Truthy(p.upperCoordinates) ==> f.coordinates == p.upperCoordinates)
      && (!Truthy(p.coordinates) && !Truthy(p.upperCoordinates) ==> f.coordinates == Some(""))
  {
  }

  /**
    The two residential formatters agree on every field but the
    coordinates, and agree on those too when `coordinates` is non-empty.
   */
  lemma ResidentialFormattersAgree(p: ResidentialRecord)
    requires Formattable(p)
    ensures FormatResidentialCard(p).value.(coordinates := p.coordinates) == FormatResidentialListing(p).value
    ensures Truthy(p.coordinates) ==> FormatResidentialCard(p) == FormatResidentialListing(p)
  {
  }

  /**
    `projects.map(formatProject)`: every record formatted in order, or the
    message of the first record whose formatting throws.
   */
  function FormatAll<R, P>(items: seq<R>, format: R -> Result<P>): (r: Result<seq<P>>)
    ensures r.Failure? <==> exists i :: 0 <= i < |items| && format(items[i]).Failure?
    ensures r.Failure? ==> exists i :: 0 <= i < |items| && format(items[i]) == Failure(r.error) &&
                              forall j :: 0 <= j < i ==> format(items[j]).Success?
    ensures r.Success? ==> |r.value| == |items| && forall i :: 0 <= i < |items| ==> format(items[i]) == Success(r.value[i])
  {
    if items == [] then Success([])
    else
      match format(items[0])
      case Failure(e) => Failure(e)
      case Success(x) =>
        match FormatAll(items[1..], format)
        case Failure(e) =>
          var i :| 0 <= i < |items[1..]| && format(items[1..][i]) == Failure(e) &&
                   forall j :: 0 <= j < i ==> format(items[1..][j]).Success?;
          assert format(items[i + 1]) == Failure(e);
          assert forall j :: 1 <= j < i + 1 ==> items[j] == items[1..][j - 1];
          Failure(e)
        case Success(rest) =>
          assert forall i :: 1 <= i < |items| ==> items[i] == items[1..][i - 1];
          Success([x] + rest)
  }

  /** A JSON scalar read with `.toString()`: present (as the text `toString` gives), or missing. */
  datatype JsonScalar = Present(text: string) | Absent(absence: Absence)

  /** `x.toString()`: the text, or the `TypeError` of a missing value. */
  function ToText(x: JsonScalar): Result<string>
  {
    match x
    case Present(t) => Success(t)
    case Absent(a) => Failure(TypeErrorOf(a, "toString"))
  }

  /** The six numeric fields of a commercial record. */
  datatype Figures = Figures(
    projectLandArea: JsonScalar,
    totalOpenArea: JsonScalar,
    totalCoveredArea: JsonScalar,
    totalUnits: JsonScalar,
    totalUnitsAvailable: JsonScalar,
    numberOfTowers: JsonScalar)

  /** The figures in the order the search formatter reads them. */
  function InReadingOrder(f: Figures): seq<JsonScalar>
  {
    [f.projectLandArea, f.totalOpenArea, f.totalCoveredArea, f.totalUnits, f.totalUnitsAvailable, f.numberOfTowers]
  }

  /** A commercial listing record (`CommercialApiResponse['projects'][0]`). */
  datatype CommercialRecord = CommercialRecord(
    name: string,
    averageCarpetArea: string,
    description: string,
    projectAddress: string,
    brochureLink: string,
    aboutProject: string,
    coverPhotoLink: string,
    rera: string,
    projectType: string,
    figures: Figures,
    /** `Coordinates`, missing on some records. */
    upperCoordinates: Option<string>)

  /** The formatted `CommercialProject`; `possession` (a formatted date) is left out. */
  datatype CommercialProject = CommercialProject(
    name: string,
    sizes: string,
    description: string,
    brochureLink: string,
    about: string,
    coverImage: string,
    rera: string,
    projectType: string,
    figures: Figures,
    coordinates: Option<string>)

  /** `formatProject` of the commercial viewport card hook, which keeps `Coordinates`. */
  function FormatCommercialCard(p: CommercialRecord): CommercialProject
  {
    CommercialProject(p.name, p.averageCarpetArea, p.description, p.brochureLink, p.aboutProject,
      p.coverPhotoLink, p.rera, p.projectType, p.figures, p.upperCoordinates)
  }

  /** The commercial listing's formatter: no coordinates, the figures copied as they are. */
  function FormatCommercialListing(p: CommercialRecord): CommercialProject
  {
    FormatCommercialCard(p).(coordinates := None)
  }

  /**
    The commercial search's formatter: the description is the project's
    address, and each figure goes through `.toString()`, which throws on
    the first missing one.
   */
  function FormatCommercialSearch(p: CommercialRecord): Result<CommercialProject>
  {
    match FormatAll(InReadingOrder(p.figures), ToText)
    case Failure(e) => Failure(e)
    case Success(_) => Success(FormatCommercialListing(p).(description := p.projectAddress))
  }

  /**
    The search formatter throws exactly when one of the six figures is
    missing, with the `TypeError` of the first missing one; a record it
    formats keeps its name, RERA number and figures.
   */
  lemma CommercialSearchErrors(p: CommercialRecord)
    ensures var fs := InReadingOrder(p.figures);
      FormatCommercialSearch(p).Success? <==> forall i :: 0 <= i < |fs| ==> fs[i].Present?
    ensures var fs := InReadingOrder(p.figures);
      FormatCommercialSearch(p).Failure? ==>
        exists i :: 0 <= i < |fs| && fs[i].Absent? &&
          FormatCommercialSearch(p).error == TypeErrorOf(fs[i].absence, "toString") &&
          forall j :: 0 <= j < i ==> fs[j].Present?
    ensures FormatCommercialSearch(p).Success? ==>
      var f := FormatCommercialSearch(p).value;
      f.name == p.name && f.rera == p.rera && f.figures == p.figures && f.description == p.projectAddress
  {
    var fs := InReadingOrder(p.figures);
    var r := FormatAll(fs, ToText);
    if r.Failure? {
      var i :| 0 <= i < |fs| && ToText(fs[i]) == Failure(r.error) && forall j :: 0 <= j < i ==> ToText(fs[j]).Success?;
      assert fs[i].Absent?;
    } else {
      forall i | 0 <= i < |fs|
        ensures fs[i].Present?
      {
        assert ToText(fs[i]).Success?;
      }
    }
  }
}
