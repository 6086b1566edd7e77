/** The six GeoJSON geometry shapes the library reads, plus any other kind. */
module Geometries {
  import opened Wrappers
  import Enums

  /**
   * The text JavaScript produces for one coordinate number. How a number is
   * formatted is not modelled; what matters is that the text holds no space.
   */
  type NumText = s: string | ' ' !in s witness ""

  /** One coordinate tuple, as the source's `number[]`; its length is not checked. */
  type Position = seq<NumText>

  /** The six `type` strings the source switches on. */
  const SupportedKinds: set<string> :=
    {"Point", "LineString", "Polygon", "MultiPoint", "MultiLineString", "MultiPolygon"}

  /** A `type` string the source has no branch for. */
  type OtherKind = s: string | s !in SupportedKinds witness ""

  /**
   * A geometry tagged by its `type`. `Unsupported` stands for an object whose
   * `type` is none of the six strings the source switches on.
   */
  datatype Geometry =
    | Point(position: Position)
    | MultiPoint(positions: seq<Position>)
    | LineString(positions: seq<Position>)
    | MultiLineString(lines: seq<seq<Position>>)
    | Polygon(rings: seq<seq<Position>>)
    | MultiPolygon(polygons: seq<seq<seq<Position>>>)
    | Unsupported(kind: OtherKind)

  /** The enum member the geometry's `type` string equals, if any. */
  function Kind(g: Geometry): (k: Option<Enums.GeometryType>)
    ensures k.None? <==> g.Unsupported?
  {
    match g
    case Point(_) => Some(Enums.Point)
    case MultiPoint(_) => Some(Enums.MultiPoint)
    case LineString(_) => Some(Enums.LineString)
    case MultiLineString(_) => Some(Enums.MultiLineString)
    case Polygon(_) => Some(Enums.Polygon)
    case MultiPolygon(_) => Some(Enums.MultiPolygon)
    case Unsupported(_) => None
  }
}
