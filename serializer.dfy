/**
 * `convert_wind_to_velocity_json`: one wind component of a grid as the
 * velocity document the map client reads, a header record plus the cells
 * flattened row-major with every non-finite value turned into JSON null.
 */
module Serializer {
  import opened Wrappers
  import opened Calendar
  import opened Grid

  datatype Header = Header(
    discipline: int,
    disciplineName: string,
    parameterCategory: int,
    parameterCategoryName: string,
    parameterNumber: int,
    parameterNumberName: string,
    parameterUnit: string,
    forecastTime: int,
    refTime: string,
    surface1Type: int,
    surface1TypeName: string,
    surface1Value: int,
    gridDefinition: string,
    nx: nat,
    ny: nat,
    lo1: real,
    la1: real,
    lo2: real,
    la2: real,
    dx: real,
    dy: real,
    unit: string)

  /** One velocity document; `None` in `data` is JSON null. */
  datatype Doc = Doc(header: Header, data: seq<Option<real>>)

  /** Python's `min` over a non-empty coordinate array. */
  function Min(s: seq<real>): (m: real)
    requires |s| > 0
    ensures m in s && forall x :: x in s ==> m <= x
  {
    if |s| == 1 then s[0]
    else
      var rest := Min(s[1..]);
      assert forall x :: x in s ==> x == s[0] || x in s[1..];
      if s[0] <= rest then s[0] else rest
  }

  /** Python's `max` over a non-empty coordinate array. */
  function Max(s: seq<real>): (m: real)
    requires |s| > 0
    ensures m in s && forall x :: x in s ==> x <= m
  {
    if |s| == 1 then s[0]
    else
      var rest := Max(s[1..]);
      assert forall x :: x in s ==> x == s[0] || x in s[1..];
      if s[0] >= rest then s[0] else rest
  }

  /** Line 351: `U` for the `u` component and `V` for any other, then `-component_of_wind`. */
  function ComponentName(component: string): (name: string)
    ensures name == if component == "u" then "U-component_of_wind" else "V-component_of_wind"
  {
    var letter := if component == "u" then "U" else "V";
    assert letter + "-component_of_wind" == [letter[0]] + "-component_of_wind";
    letter + "-component_of_wind"
  }

  /**
   * The fixed GRIB description of a wind component (lines 346-358 and 367):
   * meteorological momentum on an isobaric surface of a latitude-longitude
   * grid, in metres per second, named after the component.
   */
  predicate WindMetadata(h: Header, component: string) {
    && h.discipline == 0 && h.disciplineName == "Meteorological products"
    && h.parameterCategory == 2 && h.parameterCategoryName == "Momentum"
    && h.parameterNumberName == (if component == "u" then "U-component_of_wind" else "V-component_of_wind")
    && h.parameterUnit == "m.s-1"
    && h.surface1Type == 100 && h.surface1TypeName == "Isobaric surface"
    && h.gridDefinition == "Latitude_Longitude" && h.unit == "m/s"
  }

  /**
   * The header (lines 333-368). `forecastTime` is the whole hours from the
   * run start to the target, the bounding box spans the coordinates the
   * grid actually has, and `u` and `v` differ only in parameter number and name.
   */
  function MakeHeader(component: string, level: int, target: int, init: int,
                      longitude: seq<real>, latitude: seq<real>, lonStep: real, latStep: real): (h: Header)
    requires |longitude| > 0 && |latitude| > 0
    ensures h.parameterNumber == (if component == "u" then 2 else 3)
    ensures h.forecastTime * HOUR <= target - init < (h.forecastTime + 1) * HOUR
    ensures h.refTime == UtcTimestamp(init) && h.surface1Value == level
    ensures h.nx == |longitude| && h.ny == |latitude|
    ensures h.lo1 in longitude && h.lo2 in longitude && h.la1 in latitude && h.la2 in latitude
    ensures forall x :: x in longitude ==> h.lo1 <= x <= h.lo2
    ensures forall y :: y in latitude ==> h.la2 <= y <= h.la1
    ensures h.dx == lonStep && h.dy == latStep
    ensures WindMetadata(h, component)
  {
    Header(
      discipline := 0,
      disciplineName := "Meteorological products",
      parameterCategory := 2,
      parameterCategoryName := "Momentum",
      parameterNumber := if component == "u" then 2 else 3,
      parameterNumberName := ComponentName(component),
      parameterUnit := "m.s-1",
      forecastTime := (target - init) / HOUR,
      refTime := UtcTimestamp(init),
      surface1Type := 100,
      surface1TypeName := "Isobaric surface",
      surface1Value := level,
      gridDefinition := "Latitude_Longitude",
      nx := |longitude|,
      ny := |latitude|,
      lo1 := Min(longitude),
      la1 := Max(latitude),
      lo2 := Max(longitude),
      la2 := Min(latitude),
      dx := lonStep,
      dy := latStep,
      unit := "m/s")
  }

  /** `var.values.flatten(order="C")`: the rows one after another. */
  function Flatten(rows: Field): (cells: seq<Cell>)
    ensures cells == [] <==> forall i :: 0 <= i < |rows| ==> rows[i] == []
    ensures rows != [] ==> |rows[0]| <= |cells| && cells[..|rows[0]|] == rows[0]
  {
    if rows == [] then [] else rows[0] + Flatten(rows[1..])
  }

  /** The flattened grid holds the rows' cells and nothing more. */
  lemma {:induction false} FlattenLength(rows: Field, ny: nat, nx: nat)
    requires Shaped(rows, ny, nx)
    ensures |Flatten(rows)| == ny * nx
  {
    if ny > 0 {
      assert Shaped(rows[1..], ny - 1, nx);
      FlattenLength(rows[1..], ny - 1, nx);
      RowOffset(ny, nx);
    }
  }

  lemma RowOffset(i: int, nx: int)
    ensures i * nx == nx + (i - 1) * nx
  {
  }

  lemma RowBound(i: int, j: int, ny: int, nx: int)
    requires 0 <= i < ny && 0 <= j < nx
    ensures 0 <= i * nx + j < ny * nx
  {
    assert i * nx <= (ny - 1) * nx by {
      assert (ny - 1 - i) * nx >= 0;
      assert (ny - 1) * nx == i * nx + (ny - 1 - i) * nx;
    }
    RowOffset(ny, nx);
  }

  /** Row-major order: cell `(i, j)` of an `ny` by `nx` grid lands at `i * nx + j`. */
  lemma {:induction false} FlattenAt(rows: Field, ny: nat, nx: nat, i: int, j: int)
    requires Shaped(rows, ny, nx)
    requires 0 <= i < ny && 0 <= j < nx
    ensures i * nx + j < |Flatten(rows)|
    ensures Flatten(rows)[i * nx + j] == rows[i][j]
  {
    FlattenLength(rows, ny, nx);
    RowBound(i, j, ny, nx);
    var tail := rows[1..];
    assert Flatten(rows) == rows[0] + Flatten(tail);
    if i > 0 {
      assert Shaped(tail, ny - 1, nx);
      FlattenAt(tail, ny - 1, nx, i - 1, j);
      RowOffset(i, nx);
      assert tail[i - 1] == rows[i];
    }
  }

  /** The JSON value of one cell: NaN and the infinities become null. */
  function JsonValue(c: Cell): (v: Option<real>)
    ensures v.None? <==> !c.Finite?
    ensures c.Finite? ==> v == Some(c.value)
  {
    match c
    case NaN => None
    case PosInf => None
    case NegInf => None
    case Finite(x) => Some(x)
  }

  /** The data array of a document, cell by cell. */
  function Sanitized(cells: seq<Cell>): (r: seq<Option<real>>)
    ensures |r| == |cells|
    ensures forall i :: 0 <= i < |cells| ==> r[i] == JsonValue(cells[i])
    ensures forall i :: 0 <= i < |cells| ==> (r[i] == None <==> !cells[i].Finite?)
    ensures forall i :: 0 <= i < |cells| && cells[i].Finite? ==> r[i] == Some(cells[i].value)
  {
    seq(|cells|, i requires 0 <= i < |cells| => JsonValue(cells[i]))
  }

  /**
   * Lines 331-390: the header, then the cells flattened in row-major order
   * and sanitized.
   */
  method ConvertWindToVelocityJson(values: Field, component: string, level: int, target: int, init: int,
                                   longitude: seq<real>, latitude: seq<real>, lonStep: real, latStep: real)
    returns (doc: Doc)
    requires |longitude| > 0 && |latitude| > 0
    ensures doc.header == MakeHeader(component, level, target, init, longitude, latitude, lonStep, latStep)
    ensures doc.data == Sanitized(Flatten(values))
  {
    var header := MakeHeader(component, level, target, init, longitude, latitude, lonStep, latStep);
    var data := SanitizeCells(Flatten(values));
    doc := Doc(header, data);
  }

  /** Lines 374-385: the cells appended one by one, NaN and the infinities as null. */
  method SanitizeCells(dataArray: seq<Cell>) returns (data: seq<Option<real>>)
    ensures data == Sanitized(dataArray)
  {
    data := [];
    var i := 0;
    while i < |dataArray|
      invariant 0 <= i <= |dataArray|
      invariant |data| == i
      invariant forall k :: 0 <= k < i ==> data[k] == JsonValue(dataArray[k])
    {
      var val := dataArray[i];
      if val.NaN? {
        data := data + [None];
      } else if val.PosInf? || val.NegInf? {
        data := data + [None];
      } else {
        data := data + [Some(val.value)];
      }
      i := i + 1;
    }
  }

  /**
   * A document for a field of `ny` rows and `nx` columns (the header's `ny`
   * and `nx`) holds `nx * ny` values, and value `i * nx + j` is cell `(i, j)`
   * sanitized.
   */
  lemma DocumentLayout(values: Field, ny: nat, nx: nat, i: int, j: int)
    requires Shaped(values, ny, nx)
    requires 0 <= i < ny && 0 <= j < nx
    ensures |Sanitized(Flatten(values))| == ny * nx
    ensures i * nx + j < ny * nx
    ensures Sanitized(Flatten(values))[i * nx + j] == JsonValue(values[i][j])
  {
    FlattenLength(values, ny, nx);
    FlattenAt(values, ny, nx, i, j);
  }
}
