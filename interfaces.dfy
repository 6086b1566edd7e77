/** The option and feature records the library is called with. */
module Interfaces {
  import opened Wrappers
  import opened Enums
  import opened Geometries

  /**
   * The options of the library. The three optional fields are `None` when the
   * caller leaves them out; nothing fills them in.
   */
  datatype Options = Options(
    url: string,
    workspace: string,
    geometryName: Option<string>,
    srsName: Option<SrsName>,
    srsDimension: Option<SrsDimension>)

  /**
   * A property value: `undefined`, `null`, or a defined scalar given by the text
   * it is written as (a number, a string, a boolean).
   */
  datatype PropValue = Undefined | Null | Scalar(text: string)

  /** The property map, as its `Object.keys` enumeration: key and value pairs in order. */
  type Properties = seq<(string, PropValue)>

  /** A GeoJSON feature. */
  datatype Feature = Feature(
    featureType: string,
    geometry: Geometry,
    properties: Properties,
    id: Option<string>,
    geometryName: Option<string>)
}
