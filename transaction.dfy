/**
 * The WFS 1.1.0 Transaction documents the library builds, as element trees:
 * `InsertDocument`, `UpdateDocument` and `DeleteDocument` give the tree each
 * builder hands to the XML builder, and the lemmas state what those trees
 * contain. Geometry is written as GML 3.1.1 `pos`/`posList` markup and a
 * feature is selected by an OGC Filter Encoding 1.1 `FeatureId`.
 */
module Transaction {
  import opened Wrappers
  import Enums
  import opened Geometries
  import opened Interfaces
  import opened Xml
  import opened Coordinates

  const WfsNamespace := "http://www.opengis.net/wfs"
  const XsiNamespace := "http://www.w3.org/2001/XMLSchema-instance"
  const WfsSchemaLocation := "http://www.opengis.net/wfs http://schemas.opengis.net/wfs/1.1.0/wfs.xsd"
  const GmlNamespace := "http://www.opengis.net/gml"
  const OgcNamespace := "http://www.opengis.net/ogc"

  /** The fixed attributes of every `Transaction` root. */
  const RootAttributes: map<string, Option<string>> := map[
    "xmlns" := Some(WfsNamespace),
    "service" := Some("WFS"),
    "version" := Some("1.1.0"),
    "xmlns:xsi" := Some(XsiNamespace),
    "xsi:schemaLocation" := Some(WfsSchemaLocation)]

  /** The `Transaction` root holding one operation element. */
  function Document(operation: Element): Element
  {
    Element(Some("Transaction"), RootAttributes, [operation], None)
  }

  // ---------------------------------------------------------------------------
  // Properties
  // ---------------------------------------------------------------------------

  /** The properties whose value is not `undefined`, in key order. */
  function Defined(ps: Properties): Properties
  {
    if |ps| == 0 then []
    else Defined(ps[..|ps| - 1]) + (if ps[|ps| - 1].1 == Undefined then [] else [ps[|ps| - 1]])
  }

  /** Exactly the defined properties survive; `null`, `0` and `''` are defined. */
  lemma {:induction false} DefinedMembers(ps: Properties)
    ensures forall p :: p in Defined(ps) <==> p in ps && p.1 != Undefined
    decreases |ps|
  {
    if |ps| > 0 {
      var init := ps[..|ps| - 1];
      DefinedMembers(init);
      assert ps == init + [ps[|ps| - 1]];
    }
  }

  /** Filtering commutes with concatenation, so the survivors keep their order. */
  lemma {:induction false} DefinedAppend(a: Properties, b: Properties)
    ensures Defined(a + b) == Defined(a) + Defined(b)
    decreases |b|
  {
    if |b| == 0 {
      assert a + b == a;
    } else {
      var binit := b[..|b| - 1];
      assert (a + b)[..|a + b| - 1] == a + binit;
      DefinedAppend(a, binit);
    }
  }

  /** The text a property element carries: none for `null`, the value's text otherwise. */
  function ValueText(v: PropValue): Option<string>
  {
    match v
    case Scalar(t) => Some(t)
    case _ => None
  }

  /** An `Insert` writes a property as an element named by its key. */
  function InsertEntry(p: (string, PropValue)): Element
  {
    Element(Some(p.0), map[], [], ValueText(p.1))
  }

  /** An `Update` writes a property as `Property` with a `Name` and a `Value`. */
  function UpdateEntry(p: (string, PropValue)): Element
  {
    Element(Some("Property"), map[], [
      Element(Some("Name"), map[], [], Some(p.0)),
      Element(Some("Value"), map[], [], ValueText(p.1))], None)
  }

  function InsertEntries(ps: Properties): (es: seq<Element>)
    ensures |es| == |ps|
    ensures forall i :: 0 <= i < |ps| ==> es[i] == InsertEntry(ps[i])
  {
    if |ps| == 0 then [] else InsertEntries(ps[..|ps| - 1]) + [InsertEntry(ps[|ps| - 1])]
  }

  function UpdateEntries(ps: Properties): (es: seq<Element>)
    ensures |es| == |ps|
    ensures forall i :: 0 <= i < |ps| ==> es[i] == UpdateEntry(ps[i])
  {
    if |ps| == 0 then [] else UpdateEntries(ps[..|ps| - 1]) + [UpdateEntry(ps[|ps| - 1])]
  }

  // ---------------------------------------------------------------------------
  // Geometry markup
  // ---------------------------------------------------------------------------

  function SrsNameText(o: Options): Option<string>
  {
    MapOption(o.srsName, (n: Enums.SrsName) => n.Value())
  }

  function SrsDimensionText(o: Options): Option<string>
  {
    MapOption(o.srsDimension, (d: Enums.SrsDimension) => d.Value())
  }

  /** The `pos` or `posList` element holding the flattened coordinates. */
  function CoordinateElement(o: Options, tag: string, coordinates: string): Element
  {
    Element(Some(tag), map["srsDimension" := SrsDimensionText(o)], [], Some(coordinates))
  }

  /** An element with only an `srsName` attribute around one child. */
  function SrsElement(o: Options, tag: string, child: Element): Element
  {
    Element(Some(tag), map["srsName" := SrsNameText(o)], [child], None)
  }

  function Wrap(tag: string, child: Element): Element
  {
    Element(Some(tag), map[], [child], None)
  }

  /** The GML element for a geometry of one of the six kinds, none for any other kind. */
  function GmlGeometry(o: Options, g: Geometry, coordinates: string): Option<Element>
  {
    var root := map["xmlns" := Some(GmlNamespace), "srsName" := SrsNameText(o)];
    var pos := CoordinateElement(o, "pos", coordinates);
    var posList := CoordinateElement(o, "posList", coordinates);
    var ring := Wrap("exterior", SrsElement(o, "LinearRing", posList));
    match g
    case Point(_) => Some(Element(Some("Point"), root, [pos], None))
    case LineString(_) => Some(Element(Some("LineString"), root, [posList], None))
    case Polygon(_) => Some(Element(Some("Polygon"), root, [ring], None))
    case MultiPoint(_) =>
      Some(Element(Some("MultiPoint"), root, [Wrap("pointMember", SrsElement(o, "Point", pos))], None))
    case MultiLineString(_) =>
      Some(Element(Some("MultiLineString"), root, [Wrap("lineStringMember", SrsElement(o, "LineString", posList))], None))
    case MultiPolygon(_) =>
      Some(Element(Some("MultiPolygon"), root, [Wrap("polygonMember", SrsElement(o, "Polygon", ring))], None))
    case Unsupported(_) => None
  }

  /** The GML markup of the feature's geometry, with its flattened coordinates. */
  function FeatureGml(o: Options, g: Geometry): Option<Element>
  {
    GmlGeometry(o, g, Flattened(g, o.srsDimension))
  }

  predicate EndsInPos(g: Geometry)
  {
    g.Point? || g.MultiPoint?
  }

  /** The tags the source writes for each kind, from the kind element down to the coordinate leaf. */
  function GmlPath(g: Geometry): seq<Option<string>>
  {
    match g
    case Point(_) => [Some("Point"), Some("pos")]
    case LineString(_) => [Some("LineString"), Some("posList")]
    case Polygon(_) => [Some("Polygon"), Some("exterior"), Some("LinearRing"), Some("posList")]
    case MultiPoint(_) => [Some("MultiPoint"), Some("pointMember"), Some("Point"), Some("pos")]
    case MultiLineString(_) => [Some("MultiLineString"), Some("lineStringMember"), Some("LineString"), Some("posList")]
    case MultiPolygon(_) =>
      [Some("MultiPolygon"), Some("polygonMember"), Some("Polygon"), Some("exterior"), Some("LinearRing"), Some("posList")]
    case Unsupported(_) => []
  }

  /**
   * The geometry markup is present exactly for the six kinds, named after the
   * kind, with the GML namespace and the SRS name.
   */
  lemma GeometryMarkup(o: Options, g: Geometry, coordinates: string)
    ensures GmlGeometry(o, g, coordinates).Some? <==> Kind(g).Some?
    ensures Kind(g).Some? ==>
      var x := GmlGeometry(o, g, coordinates).value;
      && x.tag == Some(Kind(g).value.Value())
      && x.attributes == map["xmlns" := Some(GmlNamespace), "srsName" := SrsNameText(o)]
  {
  }

  /**
   * The geometry markup is a single chain of elements through the kind's
   * wrappers down to one coordinate leaf carrying the SRS dimension and the
   * whole coordinate text.
   */
  lemma GeometryChain(o: Options, g: Geometry, coordinates: string)
    requires Kind(g).Some?
    ensures var x := GmlGeometry(o, g, coordinates).value;
      && IsChain(x)
      && Path(x) == GmlPath(g)
      && Innermost(x) == CoordinateElement(o, if EndsInPos(g) then "pos" else "posList", coordinates)
  {
    var x := GmlGeometry(o, g, coordinates).value;
    var pos := CoordinateElement(o, "pos", coordinates);
    var posList := CoordinateElement(o, "posList", coordinates);
    LeafChain(pos);
    LeafChain(posList);
    var linearRing := SrsElement(o, "LinearRing", posList);
    ParentChain(linearRing, posList);
    var ring := Wrap("exterior", linearRing);
    ParentChain(ring, linearRing);
    match g
    case Point(_) => ParentChain(x, pos);
    case LineString(_) => ParentChain(x, posList);
    case Polygon(_) => ParentChain(x, ring);
    case MultiPoint(_) =>
      var inner := SrsElement(o, "Point", pos);
      ParentChain(inner, pos);
      ParentChain(Wrap("pointMember", inner), inner);
      ParentChain(x, Wrap("pointMember", inner));
    case MultiLineString(_) =>
      var inner := SrsElement(o, "LineString", posList);
      ParentChain(inner, posList);
      ParentChain(Wrap("lineStringMember", inner), inner);
      ParentChain(x, Wrap("lineStringMember", inner));
    case MultiPolygon(_) =>
      var inner := SrsElement(o, "Polygon", ring);
      ParentChain(inner, ring);
      ParentChain(Wrap("polygonMember", inner), inner);
      ParentChain(x, Wrap("polygonMember", inner));
  }

  /** The geometry markup holds no `Property`, `Filter` or `FeatureId`. */
  lemma GeometryHasNoFilter(o: Options, g: Geometry, coordinates: string)
    requires Kind(g).Some?
    ensures var x := GmlGeometry(o, g, coordinates).value;
      Count(x, "Property") == 0 && Count(x, "Filter") == 0 && Count(x, "FeatureId") == 0
  {
    var x := GmlGeometry(o, g, coordinates).value;
    GeometryChain(o, g, coordinates);
    ChainCountAbsent(x, "Property");
    ChainCountAbsent(x, "Filter");
    ChainCountAbsent(x, "FeatureId");
  }

  // ---------------------------------------------------------------------------
  // The three documents
  // ---------------------------------------------------------------------------

  /** An `Insert` wraps the geometry markup in an element named by the geometry field option. */
  function InsertGeometry(o: Options, g: Geometry): seq<Element>
  {
    match FeatureGml(o, g)
    case None => []
    case Some(x) => [Element(o.geometryName, map[], [x], None)]
  }

  /** An `Update` wraps the geometry markup in a `Property` named by the geometry field option. */
  function UpdateGeometry(o: Options, g: Geometry): seq<Element>
  {
    match FeatureGml(o, g)
    case None => []
    case Some(x) =>
      [Element(Some("Property"), map[], [
         Element(Some("Name"), map[], [], o.geometryName),
         Element(Some("Value"), map[], [x], None)], None)]
  }

  /** The `Filter` selecting the feature by its identifier. */
  function FeatureFilter(id: Option<string>): Element
  {
    Element(Some("Filter"), map["xmlns" := Some(OgcNamespace)], [
      Element(Some("FeatureId"), map["fid" := id], [], None)], None)
  }

  /** The attributes an `Update` or `Delete` names its layer with. */
  function LayerAttributes(o: Options, typeName: string): map<string, Option<string>>
  {
    map["typeName" := Some("feature:" + typeName), "xmlns:feature" := Some(o.workspace)]
  }

  /** The element with the layer's name, under `Insert`, that holds the new feature. */
  function InsertedFeature(o: Options, f: Feature, typeName: string): Element
  {
    Element(Some(typeName), map["xmlns" := Some(o.workspace)],
      InsertEntries(Defined(f.properties)) + InsertGeometry(o, f.geometry), None)
  }

  function InsertDocument(o: Options, f: Feature, typeName: string): Element
  {
    Document(Element(Some(Enums.Operation.Insert.Value()), map[], [InsertedFeature(o, f, typeName)], None))
  }

  function UpdateDocument(o: Options, f: Feature, typeName: string): Element
  {
    Document(Element(Some(Enums.Operation.Update.Value()), LayerAttributes(o, typeName),
      UpdateEntries(Defined(f.properties)) + UpdateGeometry(o, f.geometry) + [FeatureFilter(f.id)], None))
  }

  function DeleteDocument(o: Options, f: Feature, typeName: string): Element
  {
    Document(Element(Some(Enums.Operation.Delete.Value()), LayerAttributes(o, typeName), [FeatureFilter(f.id)], None))
  }

  // ---------------------------------------------------------------------------
  // What the documents contain
  // ---------------------------------------------------------------------------

  /**
   * An `Insert` holds, under `Insert` and the layer element, one element per
   * defined property in key order, named by the key and carrying the value,
   * then the geometry element when the kind is one of the six.
   */
  lemma InsertLayout(o: Options, f: Feature, typeName: string)
    ensures var doc := InsertDocument(o, f, typeName);
      && doc.tag == Some("Transaction") && doc.attributes == RootAttributes
      && doc.children == [Element(Some("Insert"), map[], [InsertedFeature(o, f, typeName)], None)]
    ensures var body := InsertedFeature(o, f, typeName); var ds := Defined(f.properties);
      && body.tag == Some(typeName)
      && body.attributes == map["xmlns" := Some(o.workspace)]
      && |body.children| == |ds| + (if Kind(f.geometry).Some? then 1 else 0)
      && (forall i :: 0 <= i < |ds| ==>
            body.children[i].tag == Some(ds[i].0) && body.children[i].text == ValueText(ds[i].1)
            && body.children[i].children == [])
      && (Kind(f.geometry).Some? ==>
            body.children[|ds|] == Element(o.geometryName, map[], [FeatureGml(o, f.geometry).value], None))
  {
    GeometryMarkup(o, f.geometry, Flattened(f.geometry, o.srsDimension));
  }

  lemma {:induction false} InsertEntriesCount(ps: Properties, tag: string)
    requires forall i :: 0 <= i < |ps| ==> ps[i].0 != tag
    ensures CountIn(InsertEntries(ps), tag) == 0
    decreases |ps|
  {
    if |ps| > 0 {
      var init := ps[..|ps| - 1];
      InsertEntriesCount(init, tag);
      CountInAppend(InsertEntries(init), [InsertEntry(ps[|ps| - 1])], tag);
      assert CountIn([InsertEntry(ps[|ps| - 1])], tag) == Count(InsertEntry(ps[|ps| - 1]), tag);
    }
  }

  /** The elements of `Update` properties are only `Property`, `Name` and `Value`. */
  lemma {:induction false} UpdateEntriesCount(ps: Properties, tag: string)
    requires tag !in {"Property", "Name", "Value"}
    ensures CountIn(UpdateEntries(ps), tag) == 0
    decreases |ps|
  {
    if |ps| > 0 {
      var init := ps[..|ps| - 1];
      var e := UpdateEntry(ps[|ps| - 1]);
      UpdateEntriesCount(init, tag);
      CountInAppend(UpdateEntries(init), [e], tag);
      assert CountIn([e], tag) == Count(e, tag);
      assert CountIn(e.children, tag) == Count(e.children[0], tag) + CountIn(e.children[1..], tag);
      assert CountIn(e.children[1..], tag) == Count(e.children[1], tag) + CountIn([], tag);
    }
  }

  /** The geometry member of an `Insert` holds no `Filter` unless the geometry field is named so. */
  lemma InsertGeometryCount(o: Options, g: Geometry)
    requires o.geometryName != Some("Filter")
    ensures CountIn(InsertGeometry(o, g), "Filter") == 0
  {
    if Kind(g).Some? {
      var x := FeatureGml(o, g).value;
      GeometryHasNoFilter(o, g, Flattened(g, o.srsDimension));
      CountInSingle(x, "Filter");
      CountInSingle(InsertGeometry(o, g)[0], "Filter");
    }
  }

  /**
   * An `Insert` never contains a `Filter`, as long as no name the caller
   * chooses (layer, geometry field, property key) is itself "Filter".
   */
  lemma InsertHasNoFilter(o: Options, f: Feature, typeName: string)
    requires typeName != "Filter" && o.geometryName != Some("Filter")
    requires forall i :: 0 <= i < |f.properties| ==> f.properties[i].0 != "Filter"
    ensures Count(InsertDocument(o, f, typeName), "Filter") == 0
  {
    var ds := Defined(f.properties);
    DefinedMembers(f.properties);
    forall i | 0 <= i < |ds| ensures ds[i].0 != "Filter" {
      assert ds[i] in f.properties;
    }
    InsertEntriesCount(ds, "Filter");
    var geometry := InsertGeometry(o, f.geometry);
    InsertGeometryCount(o, f.geometry);
    var body := InsertedFeature(o, f, typeName);
    CountInAppend(InsertEntries(ds), geometry, "Filter");
    CountInSingle(body, "Filter");
    var op := InsertDocument(o, f, typeName).children[0];
    CountInSingle(op, "Filter");
  }

  /** The geometry `Property` of an `Update` holds no `Filter` or `FeatureId`. */
  lemma UpdateGeometryCount(o: Options, g: Geometry, tag: string)
    requires tag == "Filter" || tag == "FeatureId"
    ensures CountIn(UpdateGeometry(o, g), tag) == 0
  {
    var geometry := UpdateGeometry(o, g);
    if Kind(g).Some? {
      var x := FeatureGml(o, g).value;
      GeometryMarkup(o, g, Flattened(g, o.srsDimension));
      GeometryHasNoFilter(o, g, Flattened(g, o.srsDimension));
      var prop := geometry[0];
      CountInSingle(x, tag);
      CountInPair(prop.children[0], prop.children[1], tag);
      assert CountIn([], tag) == 0;
      CountInSingle(prop, tag);
    }
  }

  /**
   * An `Update` is named by the layer, holds one `Property`(`Name`, `Value`) per
   * defined property in key order, then the geometry `Property` named by the
   * geometry field option, then the `Filter` whose `FeatureId` carries the
   * feature's identifier as `fid`.
   */
  lemma UpdateLayout(o: Options, f: Feature, typeName: string)
    ensures var doc := UpdateDocument(o, f, typeName);
      doc.tag == Some("Transaction") && doc.attributes == RootAttributes && |doc.children| == 1
    ensures var op := UpdateDocument(o, f, typeName).children[0]; var ds := Defined(f.properties);
      && op.tag == Some("Update")
      && op.attributes == map["typeName" := Some("feature:" + typeName), "xmlns:feature" := Some(o.workspace)]
      && |op.children| == |ds| + (if Kind(f.geometry).Some? then 1 else 0) + 1
      && (forall i :: 0 <= i < |ds| ==> op.children[i] == UpdateEntry(ds[i]))
      && (Kind(f.geometry).Some? ==>
            op.children[|ds|].tag == Some("Property")
            && op.children[|ds|].children[0] == Element(Some("Name"), map[], [], o.geometryName)
            && op.children[|ds|].children[1].children == [FeatureGml(o, f.geometry).value]
            && op.children[|ds|] == UpdateGeometry(o, f.geometry)[0]
            && op.children[|ds|].children[1].tag == Some("Value"))
      && op.children[|op.children| - 1] == FeatureFilter(f.id)
      && op.children[|op.children| - 1].children[0].attributes == map["fid" := f.id]
  {
    GeometryMarkup(o, f.geometry, Flattened(f.geometry, o.srsDimension));
  }

  /** An `Update` holds exactly one `Filter` and one `FeatureId`. */
  lemma UpdateHasOneFilter(o: Options, f: Feature, typeName: string)
    ensures Count(UpdateDocument(o, f, typeName), "Filter") == 1
    ensures Count(UpdateDocument(o, f, typeName), "FeatureId") == 1
  {
    var ds := Defined(f.properties);
    var geometry := UpdateGeometry(o, f.geometry);
    var filter := FeatureFilter(f.id);
    var fid := filter.children[0];
    var op := UpdateDocument(o, f, typeName).children[0];
    forall t | t == "Filter" || t == "FeatureId"
      ensures Count(UpdateDocument(o, f, typeName), t) == 1
    {
      UpdateEntriesCount(ds, t);
      UpdateGeometryCount(o, f.geometry, t);
      CountInAppend(UpdateEntries(ds), geometry, t);
      CountInAppend(UpdateEntries(ds) + geometry, [filter], t);
      assert CountIn([], t) == 0;
      CountInSingle(fid, t);
      CountInSingle(filter, t);
      CountInSingle(op, t);
    }
  }

  /**
   * A `Delete` holds exactly one each of `Transaction`, `Delete`, `Filter` and
   * `FeatureId`, and no other tag: no `Property` and no coordinates.
   */
  lemma DeleteCounts(o: Options, f: Feature, typeName: string, tag: string)
    ensures Count(DeleteDocument(o, f, typeName), tag) ==
      if tag in ["Transaction", "Delete", "Filter", "FeatureId"] then 1 else 0
  {
    var filter := FeatureFilter(f.id);
    var op := DeleteDocument(o, f, typeName).children[0];
    assert CountIn([], tag) == 0;
    CountInSingle(filter.children[0], tag);
    CountInSingle(filter, tag);
    CountInSingle(op, tag);
  }

  /** `Insert` and `Update` carry the same geometry markup. */
  lemma SameGeometryMarkup(o: Options, f: Feature, typeName: string)
    requires Kind(f.geometry).Some?
    ensures var body := InsertedFeature(o, f, typeName);
      var op := UpdateDocument(o, f, typeName).children[0];
      var n := |Defined(f.properties)|;
      body.children[n].children == op.children[n].children[1].children
  {
  }

  /**
   * A geometry of any other kind flattens to the empty text and adds no
   * markup: neither document reports it.
   */
  lemma UnsupportedGeometryOmitted(o: Options, f: Feature, typeName: string)
    requires f.geometry.Unsupported?
    ensures Flattened(f.geometry, o.srsDimension) == ""
    ensures InsertedFeature(o, f, typeName).children == InsertEntries(Defined(f.properties))
    ensures UpdateDocument(o, f, typeName).children[0].children
            == UpdateEntries(Defined(f.properties)) + [FeatureFilter(f.id)]
  {
    assert Leaves(f.geometry) == [];
    assert Tokens(Leaves(f.geometry), o.srsDimension) == [];
    assert FeatureGml(o, f.geometry) == None;
    assert InsertGeometry(o, f.geometry) == [] && UpdateGeometry(o, f.geometry) == [];
  }

  /** The feature's own `geometry_name` is never consulted. */
  lemma GeometryNameIgnored(o: Options, f: Feature, typeName: string, name: Option<string>)
    ensures InsertDocument(o, f.(geometryName := name), typeName) == InsertDocument(o, f, typeName)
    ensures UpdateDocument(o, f.(geometryName := name), typeName) == UpdateDocument(o, f, typeName)
    ensures DeleteDocument(o, f.(geometryName := name), typeName) == DeleteDocument(o, f, typeName)
  {
  }
}
