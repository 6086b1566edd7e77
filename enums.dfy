/**
 * The string enums of the library: the operation a transaction performs, the
 * six geometry kinds, the projection codes and the coordinate dimensions. Each
 * `Value` is the string the enum member stands for.
 */
module Enums {

  /** Operation executed on the feature. */
  datatype Operation = Insert | Update | Delete
  {
    function Value(): string
    {
      match this
      case Insert => "Insert"
      case Update => "Update"
      case Delete => "Delete"
    }
  }

  /** Kind of the geometry of a GeoJSON feature. */
  datatype GeometryType = Point | LineString | Polygon | MultiPoint | MultiLineString | MultiPolygon
  {
    function Value(): string
    {
      match this
      case Point => "Point"
      case LineString => "LineString"
      case Polygon => "Polygon"
      case MultiPoint => "MultiPoint"
      case MultiLineString => "MultiLineString"
      case MultiPolygon => "MultiPolygon"
    }
  }

  /** Projection code of the geometry. */
  datatype SrsName = Epsg4326 | Epsg3857
  {
    function Value(): string
    {
      match this
      case Epsg4326 => "EPSG:4326"
      case Epsg3857 => "EPSG:3857"
    }
  }

  /** Dimension of the coordinates: latitude and longitude, optionally altitude. */
  datatype SrsDimension = TwoDimension | ThreeDimension
  {
    function Value(): string
    {
      match this
      case TwoDimension => "2"
      case ThreeDimension => "3"
    }
  }
}
