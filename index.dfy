/**
 * The `Digitization` class: it holds the options, flattens a geometry's
 * coordinates with nested loops, and builds the Insert, Update and Delete
 * transaction trees by appending child elements one by one. Each method is
 * proved to produce the value the specification modules define.
 */
module Index {
  import opened Wrappers
  import Enums
  import opened Geometries
  import opened Interfaces
  import opened Xml
  import opened Coordinates
  import opened Transaction

  /** The options the class field starts with before the constructor runs. */
  const DefaultOptions := Options("", "", Some("geometry"), Some(Enums.Epsg4326), Some(Enums.ThreeDimension))

  lemma {:induction false} FlattenStep<T>(tss: seq<seq<T>>, i: nat)
    requires i < |tss|
    ensures Flatten(tss[..i + 1]) == Flatten(tss[..i]) + tss[i]
  {
    assert tss[..i + 1][..i] == tss[..i];
  }

  lemma TokensStep(ps: seq<Position>, p: Position, dim: Option<Enums.SrsDimension>)
    ensures Tokens(ps + [p], dim) == Tokens(ps, dim) + [TupleToken(p, dim)]
  {
  }

  lemma DefinedStep(ps: Properties, i: nat)
    requires i < |ps|
    ensures Defined(ps[..i + 1]) == Defined(ps[..i]) + (if ps[i].1 == Undefined then [] else [ps[i]])
  {
    assert ps[..i + 1][..i] == ps[..i];
  }

  lemma InsertEntriesStep(ps: Properties, p: (string, PropValue))
    ensures InsertEntries(ps + [p]) == InsertEntries(ps) + [InsertEntry(p)]
  {
    assert (ps + [p])[..|ps|] == ps;
  }

  lemma UpdateEntriesStep(ps: Properties, p: (string, PropValue))
    ensures UpdateEntries(ps + [p]) == UpdateEntries(ps) + [UpdateEntry(p)]
  {
    assert (ps + [p])[..|ps|] == ps;
  }

  class Digitization {
    var options: Options

    /** The given options replace the defaults wholesale; no field is merged. */
    constructor (options: Options)
      ensures this.options == options
    {
      this.options := DefaultOptions;
      this.options := options;
    }

    /** Collects one token per leaf tuple, walking lines, rings and polygons in order, and joins them. */
    method JoinedCoordinates(geometry: Geometry, srsDimension: Option<Enums.SrsDimension>) returns (joined: string)
      ensures joined == Flattened(geometry, srsDimension)
    {
      var coordinates: seq<string> := [];
      match geometry {
        case Point(p) =>
          coordinates := coordinates + [TupleToken(p, srsDimension)];
        case MultiPoint(points) =>
          coordinates := JoinPoints(points, srsDimension);
        case LineString(points) =>
          coordinates := JoinPoints(points, srsDimension);
        case MultiLineString(lines) =>
          coordinates := JoinLines(lines, srsDimension);
        case Polygon(rings) =>
          coordinates := JoinLines(rings, srsDimension);
        case MultiPolygon(polygons) =>
          coordinates := JoinPolygons(polygons, srsDimension);
        case Unsupported(_) =>
      }
      joined := Join(coordinates);
    }

    /** The single loop over the tuples of a MultiPoint or a LineString. */
    method JoinPoints(points: seq<Position>, srsDimension: Option<Enums.SrsDimension>) returns (coordinates: seq<string>)
      ensures coordinates == Tokens(points, srsDimension)
    {
      coordinates := [];
      for i := 0 to |points|
        invariant coordinates == Tokens(points[..i], srsDimension)
      {
        TokensStep(points[..i], points[i], srsDimension);
        assert points[..i + 1] == points[..i] + [points[i]];
        coordinates := coordinates + [TupleToken(points[i], srsDimension)];
      }
      assert points[..|points|] == points;
    }

    /** The three-level loop over the polygons, rings and tuples of a MultiPolygon. */
    method JoinPolygons(polygons: seq<seq<seq<Position>>>, srsDimension: Option<Enums.SrsDimension>) returns (coordinates: seq<string>)
      ensures coordinates == Tokens(Flatten(FlattenEach(polygons)), srsDimension)
    {
      coordinates := [];
      ghost var each := FlattenEach(polygons);
      for i := 0 to |polygons|
        invariant coordinates == Tokens(Flatten(each[..i]), srsDimension)
      {
        var polygon := polygons[i];
        for j := 0 to |polygon|
          invariant coordinates == Tokens(Flatten(each[..i]) + Flatten(polygon[..j]), srsDimension)
        {
          var line := polygon[j];
          ghost var before := Flatten(each[..i]) + Flatten(polygon[..j]);
          for k := 0 to |line|
            invariant coordinates == Tokens(before + line[..k], srsDimension)
          {
            TokensStep(before + line[..k], line[k], srsDimension);
            assert line[..k + 1] == line[..k] + [line[k]];
            assert before + line[..k + 1] == (before + line[..k]) + [line[k]];
            coordinates := coordinates + [TupleToken(line[k], srsDimension)];
          }
          FlattenStep(polygon, j);
          assert line[..|line|] == line;
          assert before + line == Flatten(each[..i]) + Flatten(polygon[..j + 1]);
        }
        FlattenStep(each, i);
        assert polygon[..|polygon|] == polygon;
      }
      assert each[..|polygons|] == each;
    }

    /** The two-level loop the source shares between MultiLineString and Polygon. */
    method JoinLines(lines: seq<seq<Position>>, srsDimension: Option<Enums.SrsDimension>) returns (coordinates: seq<string>)
      ensures coordinates == Tokens(Flatten(lines), srsDimension)
    {
      coordinates := [];
      for i := 0 to |lines|
        invariant coordinates == Tokens(Flatten(lines[..i]), srsDimension)
      {
        var line := lines[i];
        for j := 0 to |line|
          invariant coordinates == Tokens(Flatten(lines[..i]) + line[..j], srsDimension)
        {
          TokensStep(Flatten(lines[..i]) + line[..j], line[j], srsDimension);
          assert line[..j + 1] == line[..j] + [line[j]];
          coordinates := coordinates + [TupleToken(line[j], srsDimension)];
        }
        FlattenStep(lines, i);
        assert line[..|line|] == line;
      }
      assert lines[..|lines|] == lines;
    }

    /**
     * The GML markup both builders put under the geometry member: a root carrying
     * the GML namespace and srsName, the member wrappers of multi-geometries, and a
     * `pos` or `posList` leaf holding the joined coordinates; none for an unknown kind.
     */
    method GeometryElement(geometry: Geometry, joinedCoordinates: string) returns (gml: Option<Element>)
      ensures gml == GmlGeometry(options, geometry, joinedCoordinates)
    {
      var srsName := SrsNameText(options);
      var root := map["xmlns" := Some(GmlNamespace), "srsName" := srsName];
      var srsDimension := map["srsDimension" := SrsDimensionText(options)];
      match geometry {
        case Point(_) =>
          gml := Some(Element(Some("Point"), root, [
            Element(Some("pos"), srsDimension, [], Some(joinedCoordinates))], None));
        case LineString(_) =>
          gml := Some(Element(Some("LineString"), root, [
            Element(Some("posList"), srsDimension, [], Some(joinedCoordinates))], None));
        case Polygon(_) =>
          gml := Some(Element(Some("Polygon"), root, [
            Element(Some("exterior"), map[], [
              Element(Some("LinearRing"), map["srsName" := srsName], [
                Element(Some("posList"), srsDimension, [], Some(joinedCoordinates))], None)], None)], None));
        case MultiPoint(_) =>
          gml := Some(Element(Some("MultiPoint"), root, [
            Element(Some("pointMember"), map[], [
              Element(Some("Point"), map["srsName" := srsName], [
                Element(Some("pos"), srsDimension, [], Some(joinedCoordinates))], None)], None)], None));
        case MultiLineString(_) =>
          gml := Some(Element(Some("MultiLineString"), root, [
            Element(Some("lineStringMember"), map[], [
              Element(Some("LineString"), map["srsName" := srsName], [
                Element(Some("posList"), srsDimension, [], Some(joinedCoordinates))], None)], None)], None));
        case MultiPolygon(_) =>
          gml := Some(Element(Some("MultiPolygon"), root, [
            Element(Some("polygonMember"), map[], [
              Element(Some("Polygon"), map["srsName" := srsName], [
                Element(Some("exterior"), map[], [
                  Element(Some("LinearRing"), map["srsName" := srsName], [
                    Element(Some("posList"), srsDimension, [], Some(joinedCoordinates))], None)], None)], None)], None)], None));
        case Unsupported(_) =>
          gml := None;
      }
    }

    /** Builds the `Insert` transaction for a feature of layer `typeName`. */
    method Insert(feature: Feature, typeName: string) returns (document: Element)
      ensures document == InsertDocument(options, feature, typeName)
    {
      var properties := feature.properties;
      var geometry := feature.geometry;
      var joinedCoordinates := JoinedCoordinates(geometry, options.srsDimension);

      var members: seq<Element> := [];
      for i := 0 to |properties|
        invariant members == InsertEntries(Defined(properties[..i]))
      {
        DefinedStep(properties, i);
        var (key, value) := properties[i];
        if value != Undefined {
          InsertEntriesStep(Defined(properties[..i]), properties[i]);
          members := members + [Element(Some(key), map[], [], ValueText(value))];
        }
      }
      assert properties[..|properties|] == properties;

      var gml := GeometryElement(geometry, joinedCoordinates);
      if gml.Some? {
        members := members + [Element(options.geometryName, map[], [gml.value], None)];
      }
      assert members == InsertEntries(Defined(properties)) + InsertGeometry(options, geometry);

      var layer := Element(Some(typeName), map["xmlns" := Some(options.workspace)], members, None);
      document := Document(Element(Some(Enums.Operation.Insert.Value()), map[], [layer], None));
    }

    /** Builds the `Update` transaction for a feature of layer `typeName`. */
    method Update(feature: Feature, typeName: string) returns (document: Element)
      ensures document == UpdateDocument(options, feature, typeName)
    {
      var properties := feature.properties;
      var geometry := feature.geometry;
      var joinedCoordinates := JoinedCoordinates(geometry, options.srsDimension);

      var members: seq<Element> := [];
      for i := 0 to |properties|
        invariant members == UpdateEntries(Defined(properties[..i]))
      {
        DefinedStep(properties, i);
        var (key, value) := properties[i];
        if value != Undefined {
          UpdateEntriesStep(Defined(properties[..i]), properties[i]);
          members := members + [Element(Some("Property"), map[], [
            Element(Some("Name"), map[], [], Some(key)),
            Element(Some("Value"), map[], [], ValueText(value))], None)];
        }
      }
      assert properties[..|properties|] == properties;

      var gml := GeometryElement(geometry, joinedCoordinates);
      if gml.Some? {
        members := members + [Element(Some("Property"), map[], [
          Element(Some("Name"), map[], [], options.geometryName),
          Element(Some("Value"), map[], [gml.value], None)], None)];
      }
      assert members == UpdateEntries(Defined(properties)) + UpdateGeometry(options, geometry);

      members := members + [Element(Some("Filter"), map["xmlns" := Some(OgcNamespace)], [
        Element(Some("FeatureId"), map["fid" := feature.id], [], None)], None)];
      document := Document(Element(Some(Enums.Operation.Update.Value()),
        map["typeName" := Some("feature:" + typeName), "xmlns:feature" := Some(options.workspace)], members, None));
    }

    /** Builds the `Delete` transaction for a feature of layer `typeName`. */
    method Delete(feature: Feature, typeName: string) returns (document: Element)
      ensures document == DeleteDocument(options, feature, typeName)
    {
      var filter := Element(Some("Filter"), map["xmlns" := Some(OgcNamespace)], [
        Element(Some("FeatureId"), map["fid" := feature.id], [], None)], None);
      var operation := Element(Some(Enums.Operation.Delete.Value()),
        map["typeName" := Some("feature:" + typeName), "xmlns:feature" := Some(options.workspace)], [filter], None);
      document := Document(operation);
    }
  }
}
