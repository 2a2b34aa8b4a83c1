/** The geographic extent stage of `tosolr`.  A record carries either one
    `mmd:geographic_extent` element, whose rectangle is validated and
    stored, or several, which are flattened into one bounding box.  Either
    way the stage writes the four `geographic_extent_rectangle_*` bounds,
    the `bbox` ENVELOPE string and, where a shape can be drawn, the
    `polygon_rpt` geometry. */
module Extent {
  import opened Documents

  const North := "geographic_extent_rectangle_north"
  const South := "geographic_extent_rectangle_south"
  const East := "geographic_extent_rectangle_east"
  const West := "geographic_extent_rectangle_west"

  datatype Bounds = Bounds(north: real, south: real, east: real, west: real)

  /** A rectangle that is the right way round and lies on the globe. */
  predicate ValidBounds(b: Bounds)
  {
    -90.0 <= b.south <= b.north <= 90.0 && -180.0 <= b.west <= b.east <= 180.0
  }

  /** The four bounds as `tosolr` stores them. */
  function BoundFields(b: Bounds): Doc
  {
    map[North := VNum(b.north), South := VNum(b.south), East := VNum(b.east), West := VNum(b.west)]
  }

  const Inactive: Doc := map["metadata_status" := VStr("Inactive")]

  /** SolR's rectangle syntax, `ENVELOPE(minX, maxX, maxY, minY)`. */
  function Envelope(west: string, east: string, north: string, south: string): string
  {
    "ENVELOPE(" + west + "," + east + "," + north + "," + south + ")"
  }

  /** `polygon_rpt`, when there is a geometry to write. */
  function ShapeFields(shape: Option<Geometry>, fx: Foreign): Doc
  {
    match shape
    case Some(g) => map["polygon_rpt" := VStr(fx.wkt(g))]
    case None => map[]
  }

  /** `float(v[key])`. */
  function FloatAt(v: Value, key: string, fx: Foreign): Result<real>
  {
    var x :- Get(v, key);
    FloatOf(x, fx)
  }

  // ---------------------------------------------------------------------
  // One rectangle

  /** The loop over the rectangle's entries that refuses the record as soon
      as one of them (a bound or the `@srsName` attribute) is empty. */
  method HasMissingBound(rect: Doc) returns (missing: bool)
    ensures missing <==> VNone in rect.Values
  {
    var pending := rect.Keys;
    while pending != {}
      invariant pending <= rect.Keys
      invariant forall k :: k in rect.Keys - pending ==> rect[k] != VNone
      decreases |pending|
    {
      var item :| item in pending;
      if rect[item] == VNone {
        assert rect[item] in rect.Values;
        return true;
      }
      pending := pending - {item};
    }
    return false;
  }

  /** The four bounds read in the order north, south, east, west. */
  function BoundsOf(rect: Doc, fx: Foreign): Result<Bounds>
  {
    var n :- FloatAt(VMap(rect), "mmd:north", fx);
    var s :- FloatAt(VMap(rect), "mmd:south", fx);
    var e :- FloatAt(VMap(rect), "mmd:east", fx);
    var w :- FloatAt(VMap(rect), "mmd:west", fx);
    Success(Bounds(n, s, e, w))
  }

  /** The checks `tosolr` makes on the stored bounds, in its order, with
      the message of the warning each failed check raises. */
  function BoundsViolation(b: Bounds): Option<string>
  {
    if !(b.north >= b.south) then Some("Error in spatial bounds")
    else if !(b.east >= b.west) then Some("Error in spatial bounds")
    else if b.east > 180.0 || b.west > 180.0 || b.east < -180.0 || b.west < -180.0 then
      Some("Error in longitude bounds")
    else if b.north > 90.0 || b.south > 90.0 || b.north < -90.0 || b.south < -90.0 then
      Some("Error in latitude bounds")
    else None
  }

  /** The four checks reject exactly the rectangles that are not valid. */
  lemma ViolationIffInvalid(b: Bounds)
    ensures BoundsViolation(b) == None <==> ValidBounds(b)
    ensures b.north < b.south ==> BoundsViolation(b) == Some("Error in spatial bounds")
    ensures b.north >= b.south && b.east < b.west ==> BoundsViolation(b) == Some("Error in spatial bounds")
  {
  }

  /** A bound concatenated into the ENVELOPE string: only text can be. */
  function RawText(v: Value): Result<string>
  {
    match v
    case VStr(s) => Success(s)
    case _ => Failure(TypeError("can only concatenate str to str"))
  }

  /** The ENVELOPE built from the bounds exactly as they were written. */
  function RawEnvelope(rect: Doc): Result<string>
  {
    var w :- Get(VMap(rect), "mmd:west");
    var w :- RawText(w);
    var e :- Get(VMap(rect), "mmd:east");
    var e :- RawText(e);
    var n :- Get(VMap(rect), "mmd:north");
    var n :- RawText(n);
    var s :- Get(VMap(rect), "mmd:south");
    var s :- RawText(s);
    Success(Envelope(w, e, n, s))
  }

  /** A point when the rectangle has collapsed to one, nothing when it is
      a segment along a parallel (south equals north but east differs from
      west), otherwise the west/south/east/north box drawn clockwise. */
  function RectangleShape(b: Bounds): Option<Geometry>
  {
    if b.south == b.north then
      if b.east == b.west then Some(Point(b.east, b.north)) else None
    else Some(Box(b.west, b.south, b.east, b.north, false))
  }

  /** The `srsName` attribute, kept as the one-element tuple the source's
      trailing comma makes of it. */
  function SrsNameFields(rect: Doc): Doc
  {
    if "@srsName" in rect then map["geographic_extent_rectangle_srsName" := VList([rect["@srsName"]])]
    else map[]
  }

  /** The single-rectangle branch.  Each refusal also marks the record
      `Inactive`; a failing check finds the four bounds already stored. */
  function SingleRectangle(rect: Doc, fx: Foreign): Step
  {
    if VNone in rect.Values then Step(Inactive, Some(Warning("Missing spatial bounds")))
    else
      match BoundsOf(rect, fx)
      case Failure(err) => Step(map[], Some(err))
      case Success(b) =>
        match BoundsViolation(b)
        case Some(msg) => Step(BoundFields(b) + Inactive, Some(Warning(msg)))
        case None =>
          match RawEnvelope(rect)
          case Failure(err) => Step(map[], Some(err))
          case Success(env) => Step(AcceptedFields(rect, b, env, fx), None)
  }

  /** An empty entry refuses the record with the missing-bounds warning and
      marks it inactive. */
  lemma SingleRectangleMissing(rect: Doc, fx: Foreign)
    requires exists k :: k in rect && rect[k] == VNone
    ensures SingleRectangle(rect, fx).raised == Some(Warning("Missing spatial bounds"))
    ensures SingleRectangle(rect, fx).fields == Inactive
  {
    var k :| k in rect && rect[k] == VNone;
    assert rect[k] in rect.Values;
  }

  /** With every entry present and readable as a number, the rectangle is
      refused with a warning, and marked inactive, exactly when the bounds
      are not valid. */
  lemma SingleRectangleRejects(rect: Doc, fx: Foreign, b: Bounds)
    requires VNone !in rect.Values
    requires BoundsOf(rect, fx) == Success(b)
    ensures var st := SingleRectangle(rect, fx);
      (st.raised.Some? && st.raised.value.Warning?) <==> !ValidBounds(b)
    ensures !ValidBounds(b) ==> SingleRectangle(rect, fx).fields["metadata_status"] == VStr("Inactive")
  {
    ViolationIffInvalid(b);
  }

  /** The fields written for an accepted rectangle. */
  function AcceptedFields(rect: Doc, b: Bounds, env: string, fx: Foreign): Doc
  {
    BoundFields(b) + SrsNameFields(rect) + map["bbox" := VStr(env)] + ShapeFields(RectangleShape(b), fx)
  }

  /** A valid rectangle whose bounds are text is accepted: nothing is
      raised, the bounds are stored as given, the record is not marked
      inactive and `bbox` is the ENVELOPE of the bounds as written. */
  lemma SingleRectangleAccepted(rect: Doc, fx: Foreign, b: Bounds, w: string, e: string, n: string, s: string)
    requires VNone !in rect.Values
    requires BoundsOf(rect, fx) == Success(b) && ValidBounds(b)
    requires rect["mmd:west"] == VStr(w) && rect["mmd:east"] == VStr(e)
    requires rect["mmd:north"] == VStr(n) && rect["mmd:south"] == VStr(s)
    ensures SingleRectangle(rect, fx) == Step(AcceptedFields(rect, b, Envelope(w, e, n, s), fx), None)
  {
    ViolationIffInvalid(b);
    assert RawEnvelope(rect) == Success(Envelope(w, e, n, s));
  }

  /** An accepted rectangle's fields hold its bounds as given and its
      ENVELOPE, and do not mark the record inactive. */
  lemma AcceptedBounds(rect: Doc, b: Bounds, env: string, fx: Foreign)
    ensures var f := AcceptedFields(rect, b, env, fx);
      && "metadata_status" !in f
      && f[North] == VNum(b.north) && f[South] == VNum(b.south)
      && f[East] == VNum(b.east) && f[West] == VNum(b.west)
      && f["bbox"] == VStr(env)
  {
    var g := BoundFields(b) + SrsNameFields(rect) + map["bbox" := VStr(env)];
    assert "metadata_status" !in g;
    assert g[North] == VNum(b.north) && g[South] == VNum(b.south);
    assert g[East] == VNum(b.east) && g[West] == VNum(b.west);
    var shape := RectangleShape(b);
    ShapeKeeps(g, shape, fx, North);
    ShapeKeeps(g, shape, fx, South);
    ShapeKeeps(g, shape, fx, East);
    ShapeKeeps(g, shape, fx, West);
    ShapeKeeps(g, shape, fx, "bbox");
    ShapeKeeps(g, shape, fx, "metadata_status");
  }

  /** `polygon_rpt` of an accepted rectangle is the point when the
      rectangle has collapsed, the west/south/east/north box when south
      differs from north, and absent otherwise. */
  lemma AcceptedShape(rect: Doc, b: Bounds, env: string, fx: Foreign)
    ensures var f := AcceptedFields(rect, b, env, fx);
      && (b.south == b.north && b.east == b.west ==>
            f["polygon_rpt"] == VStr(fx.wkt(Point(b.east, b.north))))
      && (b.south == b.north && b.east != b.west ==> "polygon_rpt" !in f)
      && (b.south != b.north ==>
            f["polygon_rpt"] == VStr(fx.wkt(Box(b.west, b.south, b.east, b.north, false))))
  {
  }

  // ---------------------------------------------------------------------
  // Several rectangles

  /** The latitudes and longitudes gathered from the rectangles. */
  datatype Readings = Readings(lats: seq<real>, lons: seq<real>)

  /** `[float(v)]` when `v` is not None, nothing otherwise. */
  function Reading(v: Value, fx: Foreign): Result<seq<real>>
  {
    if v == VNone then Success([])
    else
      var x :- FloatOf(v, fx);
      Success([x])
  }

  /** What one `mmd:geographic_extent` element adds: its north and south
      to the latitudes, its east and west to the longitudes. */
  function ElementReadings(e: Value, fx: Foreign): Result<Readings>
  {
    var rect :- Get(e, "mmd:rectangle");
    var n :- Get(rect, "mmd:north");
    var n :- Reading(n, fx);
    var s :- Get(rect, "mmd:south");
    var s :- Reading(s, fx);
    var east :- Get(rect, "mmd:east");
    var east :- Reading(east, fx);
    var west :- Get(rect, "mmd:west");
    var west :- Reading(west, fx);
    Success(Readings(n + s, east + west))
  }

  /** The readings of all elements, in order; the first element that
      raises decides the exception. */
  function Flattened(items: seq<Value>, fx: Foreign): Result<Readings>
    decreases |items|
  {
    if items == [] then Success(Readings([], []))
    else
      var prev :- Flattened(items[..|items| - 1], fx);
      var last :- ElementReadings(items[|items| - 1], fx);
      Success(Readings(prev.lats + last.lats, prev.lons + last.lons))
  }

  lemma {:induction false} FlattenedPersist(items: seq<Value>, fx: Foreign, k: nat)
    requires k <= |items|
    requires Flattened(items[..k], fx).Failure?
    ensures Flattened(items, fx) == Flattened(items[..k], fx)
    decreases |items|
  {
    if k < |items| {
      var pre := items[..|items| - 1];
      assert pre[..k] == items[..k];
      FlattenedPersist(pre, fx, k);
    } else {
      assert items[..k] == items;
    }
  }

  /** The loop gathering `latvals` and `lonvals`. */
  method FlattenRectangles(items: seq<Value>, fx: Foreign) returns (r: Result<Readings>)
    ensures r == Flattened(items, fx)
  {
    var latvals: seq<real> := [];
    var lonvals: seq<real> := [];
    for k := 0 to |items|
      invariant Flattened(items[..k], fx) == Success(Readings(latvals, lonvals))
    {
      assert items[..k + 1][..k] == items[..k];
      var more := ElementReadings(items[k], fx);
      if more.Failure? {
        FlattenedPersist(items, fx, k + 1);
        return Failure(more.error);
      }
      latvals := latvals + more.value.lats;
      lonvals := lonvals + more.value.lons;
    }
    assert items[..|items|] == items;
    return Success(Readings(latvals, lonvals));
  }

  /** `max(xs)`. */
  function Max(xs: seq<real>): (m: real)
    requires |xs| > 0
    ensures m in xs
    ensures forall i :: 0 <= i < |xs| ==> xs[i] <= m
    decreases |xs|
  {
    if |xs| == 1 then xs[0]
    else
      var rest := Max(xs[1..]);
      if xs[0] >= rest then xs[0] else rest
  }

  /** `min(xs)`. */
  function Min(xs: seq<real>): (m: real)
    requires |xs| > 0
    ensures m in xs
    ensures forall i :: 0 <= i < |xs| ==> m <= xs[i]
    decreases |xs|
  {
    if |xs| == 1 then xs[0]
    else
      var rest := Min(xs[1..]);
      if xs[0] <= rest then xs[0] else rest
  }

  /** The whole globe, written when there is nothing to flatten. */
  const WorldFields: Doc :=
    map[North := VNum(90.0), South := VNum(-90.0), West := VNum(-180.0), East := VNum(180.0)]

  /** The point-or-box choice after the loop.  It reads the rectangle of
      `last`, the element the loop variable was left at, not the flattened
      bounds, so a last element with an empty north or south raises. */
  function LastShape(last: Value, b: Bounds, fx: Foreign): Result<Option<Geometry>>
  {
    var rect :- Get(last, "mmd:rectangle");
    var n :- FloatAt(rect, "mmd:north", fx);
    var s :- FloatAt(rect, "mmd:south", fx);
    if n == s then
      var e :- FloatAt(rect, "mmd:east", fx);
      var w :- FloatAt(rect, "mmd:west", fx);
      if e == w then Success(Some(Point(e, n))) else Success(None)
    else Success(Some(Box(b.west, b.south, b.east, b.north, true)))
  }

  /** The bounds a non-empty set of readings flattens to. */
  function FlatBounds(rd: Readings): Bounds
    requires |rd.lats| > 0 && |rd.lons| > 0
  {
    Bounds(Max(rd.lats), Min(rd.lats), Max(rd.lons), Min(rd.lons))
  }

  /** The several-rectangles branch, given the elements' readings. */
  function FlattenedFields(items: seq<Value>, rd: Readings, fx: Foreign): Step
    requires Flattened(items, fx) == Success(rd)
  {
    if |rd.lats| > 0 && |rd.lons| > 0 then
      assert |items| > 0;
      var b := FlatBounds(rd);
      var f := BoundFields(b)["bbox" := VStr(Envelope(fx.formatFloat(b.west), fx.formatFloat(b.east),
                                                       fx.formatFloat(b.north), fx.formatFloat(b.south)))];
      match LastShape(items[|items| - 1], b, fx)
      case Failure(err) => Step(f, Some(err))
      case Success(shape) => Step(f + ShapeFields(shape, fx), None)
    else
      Step(WorldFields, None)
  }

  function MultiRectangle(items: seq<Value>, fx: Foreign): Step
  {
    match Flattened(items, fx)
    case Failure(err) => Step(map[], Some(err))
    case Success(rd) => FlattenedFields(items, rd, fx)
  }

  /** Flattening covers every latitude and longitude read, and each bound
      is one of the values read: north and east are the largest, south and
      west the smallest. */
  lemma MultiRectangleBounds(items: seq<Value>, fx: Foreign, rd: Readings)
    requires Flattened(items, fx) == Success(rd)
    requires |rd.lats| > 0 && |rd.lons| > 0
    ensures var f := MultiRectangle(items, fx).fields;
      && f[North].VNum? && f[South].VNum? && f[East].VNum? && f[West].VNum?
      && f[North].n in rd.lats && f[South].n in rd.lats
      && f[East].n in rd.lons && f[West].n in rd.lons
      && (forall i :: 0 <= i < |rd.lats| ==> f[South].n <= rd.lats[i] <= f[North].n)
      && (forall i :: 0 <= i < |rd.lons| ==> f[West].n <= rd.lons[i] <= f[East].n)
  {
    FlatBoundsWritten(items, fx, rd);
  }

  /** The bounds written for several rectangles are the flattened ones,
      and `bbox` is their ENVELOPE, whatever becomes of the shape. */
  lemma FlatBoundsWritten(items: seq<Value>, fx: Foreign, rd: Readings)
    requires Flattened(items, fx) == Success(rd)
    requires |rd.lats| > 0 && |rd.lons| > 0
    ensures var f := MultiRectangle(items, fx).fields; var b := FlatBounds(rd);
      && f[North] == VNum(b.north) && f[South] == VNum(b.south)
      && f[East] == VNum(b.east) && f[West] == VNum(b.west)
      && "bbox" in f
      && f["bbox"] == VStr(Envelope(fx.formatFloat(b.west), fx.formatFloat(b.east),
                                    fx.formatFloat(b.north), fx.formatFloat(b.south)))
  {
    var b := FlatBounds(rd);
    var f := BoundFields(b)["bbox" := VStr(Envelope(fx.formatFloat(b.west), fx.formatFloat(b.east),
                                                     fx.formatFloat(b.north), fx.formatFloat(b.south)))];
    assert MultiRectangle(items, fx) == FlattenedFields(items, rd, fx);
    var last := LastShape(items[|items| - 1], b, fx);
    if last.Success? {
      ShapeKeeps(f, last.value, fx, North);
      ShapeKeeps(f, last.value, fx, South);
      ShapeKeeps(f, last.value, fx, East);
      ShapeKeeps(f, last.value, fx, West);
      ShapeKeeps(f, last.value, fx, "bbox");
    }
  }

  /** The shape choice after the loop reads the last element's own
      rectangle: a point there when its north equals its south and its
      east equals its west, no shape when only north equals south, and
      otherwise the counter-clockwise box of the flattened bounds. */
  lemma LastShapeSpec(last: Value, b: Bounds, fx: Foreign)
    ensures LastShape(last, b, fx).Success? ==>
      && last.VMap? && "mmd:rectangle" in last.fields
      && var rect := last.fields["mmd:rectangle"];
         && FloatAt(rect, "mmd:north", fx).Success? && FloatAt(rect, "mmd:south", fx).Success?
         && var n := FloatAt(rect, "mmd:north", fx).value;
            var s := FloatAt(rect, "mmd:south", fx).value;
            && (n != s ==> LastShape(last, b, fx).value == Some(Box(b.west, b.south, b.east, b.north, true)))
            && (n == s ==>
                  && FloatAt(rect, "mmd:east", fx).Success? && FloatAt(rect, "mmd:west", fx).Success?
                  && var e := FloatAt(rect, "mmd:east", fx).value;
                     var w := FloatAt(rect, "mmd:west", fx).value;
                     LastShape(last, b, fx).value == if e == w then Some(Point(e, n)) else None)
  {
  }

  /** With several rectangles the stage raises exactly when the shape
      choice does, and `polygon_rpt` is the WKT text of the chosen shape,
      absent when there is none. */
  lemma MultiRectangleShape(items: seq<Value>, fx: Foreign, rd: Readings)
    requires Flattened(items, fx) == Success(rd)
    requires |rd.lats| > 0 && |rd.lons| > 0
    ensures |items| > 0
    ensures var st := MultiRectangle(items, fx);
      var shape := LastShape(items[|items| - 1], FlatBounds(rd), fx);
      && (st.raised.None? <==> shape.Success?)
      && (shape.Success? ==>
            && ("polygon_rpt" in st.fields <==> shape.value.Some?)
            && (shape.value.Some? ==> st.fields["polygon_rpt"] == VStr(fx.wkt(shape.value.value))))
  {
    assert MultiRectangle(items, fx) == FlattenedFields(items, rd, fx);
  }

  /** Adding the shape changes nothing but `polygon_rpt`. */
  lemma ShapeKeeps(f: Doc, shape: Option<Geometry>, fx: Foreign, k: string)
    requires k != "polygon_rpt"
    ensures k in f + ShapeFields(shape, fx) <==> k in f
    ensures k in f ==> (f + ShapeFields(shape, fx))[k] == f[k]
  {
  }

  /** With no latitude or no longitude to flatten, the whole globe is
      written and nothing is raised. */
  lemma MultiRectangleWorld(items: seq<Value>, fx: Foreign, rd: Readings)
    requires Flattened(items, fx) == Success(rd)
    requires |rd.lats| == 0 || |rd.lons| == 0
    ensures MultiRectangle(items, fx) == Step(WorldFields, None)
  {
  }

  // ---------------------------------------------------------------------
  // The stage

  /** The geographic extent stage: nothing when the element is absent or
      empty, the flattening for a list, the validation otherwise. */
  function ExtentStep(mmd: Doc, fx: Foreign): Step
  {
    if "mmd:geographic_extent" !in mmd || mmd["mmd:geographic_extent"] == VNone then Step(map[], None)
    else
      match mmd["mmd:geographic_extent"]
      case VList(items) => MultiRectangle(items, fx)
      case ge =>
        match Get(ge, "mmd:rectangle")
        case Failure(err) => Step(map[], Some(err))
        case Success(VMap(rect)) => SingleRectangle(rect, fx)
        case Success(_) => Step(map[], Some(TypeError("rectangle is not a dictionary")))
  }

  /** The stage as `tosolr` runs it, with its two loops. */
  method GeographicExtent(mmd: Doc, fx: Foreign) returns (st: Step)
    ensures st == ExtentStep(mmd, fx)
  {
    if "mmd:geographic_extent" !in mmd || mmd["mmd:geographic_extent"] == VNone {
      return Step(map[], None);
    }
    var ge := mmd["mmd:geographic_extent"];
    if ge.VList? {
      var r := FlattenRectangles(ge.items, fx);
      match r {
        case Failure(err) => st := Step(map[], Some(err));
        case Success(rd) => st := FlattenedFields(ge.items, rd, fx);
      }
      return;
    }
    var rect := Get(ge, "mmd:rectangle");
    if rect.Failure? {
      st := Step(map[], Some(rect.error));
    } else if !rect.value.VMap? {
      st := Step(map[], Some(TypeError("rectangle is not a dictionary")));
    } else {
      var missing := HasMissingBound(rect.value.fields);
      if missing {
        st := Step(Inactive, Some(Warning("Missing spatial bounds")));
      } else {
        st := SingleRectangle(rect.value.fields, fx);
      }
    }
  }

  /** The SolR fields the stage may write. */
  const ExtentFieldNames: set<string> :=
    {North, South, East, West, "bbox", "polygon_rpt", "geographic_extent_rectangle_srsName", "metadata_status"}

  lemma SingleRectangleKeys(rect: Doc, fx: Foreign)
    ensures SingleRectangle(rect, fx).fields.Keys <= ExtentFieldNames
  {
    if VNone !in rect.Values && BoundsOf(rect, fx).Success? {
      var b := BoundsOf(rect, fx).value;
      assert (BoundFields(b) + Inactive).Keys <= ExtentFieldNames;
      if RawEnvelope(rect).Success? {
        var env := RawEnvelope(rect).value;
        assert AcceptedFields(rect, b, env, fx).Keys <= ExtentFieldNames;
      }
    }
  }

  lemma MultiRectangleKeys(items: seq<Value>, fx: Foreign)
    ensures MultiRectangle(items, fx).fields.Keys <= ExtentFieldNames
  {
  }

  /** The stage writes only bounds, `bbox`, `polygon_rpt`, the spatial
      reference and, on refusal, `metadata_status`. */
  lemma ExtentKeys(mmd: Doc, fx: Foreign)
    ensures ExtentStep(mmd, fx).fields.Keys <= ExtentFieldNames
  {
    if "mmd:geographic_extent" in mmd && mmd["mmd:geographic_extent"] != VNone {
      var ge := mmd["mmd:geographic_extent"];
      if ge.VList? {
        MultiRectangleKeys(ge.items, fx);
      } else if Get(ge, "mmd:rectangle").Success? && Get(ge, "mmd:rectangle").value.VMap? {
        SingleRectangleKeys(Get(ge, "mmd:rectangle").value.fields, fx);
      }
    }
  }
}
