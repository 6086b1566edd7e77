# Digitization: a verified model of a WFS-T transaction builder

The `Digitization` class turns a GeoJSON feature into a Web Feature Service
1.1.0 Transaction document (the Transaction operation of clause 12 of OGC WFS
1.1.0, OGC 04-094). The feature's geometry is written as GML 3.1.1 `pos` /
`posList` markup. The feature to update or delete is selected by an OGC
Filter Encoding 1.1 `FeatureId`. The model has two parts.

- **The coordinate flattener** (`joinedCoordinatesGenerator`). It walks the
  nested coordinate arrays of the six geometry kinds in input order and makes
  one text token per coordinate tuple, then joins the tokens with single
  spaces.
  - In two-dimensional mode a token is the tuple's first two numbers.
  - Otherwise a two-number tuple is padded with `0`, and any other tuple is
    joined unchanged.

  `Index.Digitization.JoinedCoordinates` keeps the source's nested loops and is
  proved equal to the specification function `Coordinates.Flattened`. The
  `Coordinates` lemmas then state what that text holds: which words, in which
  order, and how many.
- **The transaction builders** (`insert`, `update`, `delete`). An XML document
  is modelled as an element tree (`Xml.Element`: name, attribute map,
  children, optional text), which is the tree the source hands to its XML
  builder library.
  - `Transaction.InsertDocument`, `UpdateDocument` and `DeleteDocument` give
    each tree.
  - The class methods build the trees step by step, as the source does, and
    are proved equal to them.
  - The `Transaction` lemmas state their layout and element counts.

JavaScript `undefined` in an optional option or a missing `id` is modelled as
`Wrappers.Option.None` wherever it reaches the tree. A property whose value
is `undefined` is `Interfaces.PropValue.Undefined`, and it is dropped before
any tree is built. A `null` property value is `Interfaces.PropValue.Null`. It
is kept, and it reaches the tree as an element with no text (`None`), which is
the same element as one given no text at all. Coordinate numbers are modelled by their text form
(`Geometries.NumText`, a string without spaces). Reading a tuple position past
its end in two-dimensional mode gives the text `undefined`, as it does in
JavaScript.

Files: `wrappers.dfy` (Option), `enums.dfy`, `geometries.dfy`,
`interfaces.dfy`, `xml.dfy` (element trees, tag counts, chains),
`coordinates.dfy` (flattener specification), `transaction.dfy` (document
specification) and `index.dfy` (the `Digitization` class).

Where the code and a cleaner design differ, the model follows the code:

- every ring of a Polygon or MultiPolygon is flattened, not only the exterior;
- a geometry of any other kind yields the empty text and no geometry markup,
  with no error;
- tuples of a length other than 2 or 3 are not rejected;
- the feature's `geometry_name` is never read;
- the constructor replaces the default options wholesale, without merging;
- a missing `id` yields a `FeatureId` with an undefined `fid`, with no error;
- all of a MultiPoint's coordinates go into a single `pointMember/Point/pos`.

## Model

| member | source | states |
|---|---|---|
| Index.Digitization.constructor | src/index.ts:6-16 | the field holds exactly the given options afterwards; no default survives, even for options left undefined |
| Index.Digitization.JoinedCoordinates | src/index.ts:237-314 | the loop-built text equals `Flattened(geometry, srsDimension)`: one token per leaf tuple, joined with single spaces |
| Index.Digitization.JoinPoints | src/index.ts:252-267 | the single loop over a MultiPoint's or LineString's tuples pushes exactly their tokens, in order |
| Index.Digitization.JoinLines | src/index.ts:268-287 | the double loop over lines or rings pushes the tokens of every tuple of every line, including every interior ring, in order |
| Index.Digitization.JoinPolygons | src/index.ts:288-310 | the triple loop pushes the tokens of every tuple of every ring of every polygon, in order |
| Index.Digitization.GeometryElement | src/index.ts:50-97 | the markup built per geometry kind is `GmlGeometry(options, geometry, text)`; there is none for an unknown kind |
| Index.Digitization.Insert | src/index.ts:28-101 | the tree built by appending property elements and the geometry member equals `InsertDocument(options, feature, typeName)` |
| Index.Digitization.Update | src/index.ts:109-205 | the tree built by appending `Property` elements, the geometry `Property` and the `Filter` equals `UpdateDocument(options, feature, typeName)` |
| Index.Digitization.Delete | src/index.ts:213-228 | the tree built equals `DeleteDocument(options, feature, typeName)` |
| Geometries.Kind | src/index.ts:50-97 | a geometry has a kind exactly when it is one of the six supported kinds; an unsupported geometry's `type` is none of the six strings the switch names |
| Coordinates.JoinAppend | src/index.ts:313 | joining two non-empty lists puts exactly one space between their joins |
| Coordinates.SplitJoin | src/index.ts:313 | splitting the join of space-free words gives back the words |
| Coordinates.JoinSplit | src/index.ts:313 | joining the pieces of a split gives back the text |
| Coordinates.TokenIsJoinedWords | src/index.ts:241-248 | each tuple's token is the space join of its words: the first two numbers in 2-D; otherwise the tuple plus `0` when it has two numbers, else the tuple unchanged |
| Coordinates.TupleWordsWidth | src/index.ts:241-248 | in 2-D a tuple gives 2 words; otherwise a tuple of 2 or 3 numbers gives 3 |
| Coordinates.LeavesCounted | src/index.ts:252-310 | the leaves visited are as many as the geometry's tuples (1 for a Point, 0 for an unknown kind) |
| Coordinates.EveryRingVisited | src/index.ts:268-287 | every tuple of every ring of a Polygon is visited, at its ordered position; a MultiLineString is visited the same way |
| Coordinates.EveryPolygonRingVisited | src/index.ts:288-310 | every tuple of every ring of every polygon of a MultiPolygon is visited, at its ordered position |
| Coordinates.FlattenedWords | src/index.ts:237-314 | no leaves gives the empty text; otherwise the text splits into the leaf tuples' words, in order |
| Coordinates.WordsLayout | src/index.ts:238-310 | with valid tuples, the word list has Width words per tuple, and tuple i's words are the i-th block |
| Coordinates.DimensionInvariant | src/index.ts:241-305 | with 2- or 3-number tuples, the flattened text has `Width * leaves` words, and block i is leaf i's words: its first two numbers in 2-D, or its numbers padded with `0` to three otherwise |
| Transaction.DefinedMembers | src/index.ts:44-45 | a property is kept exactly when it is in the feature and its value is not `undefined`; `null` values are kept |
| Transaction.DefinedAppend | src/index.ts:44-45 | filtering is done key by key, in order |
| Transaction.InsertEntries | src/index.ts:44-48 | one element per kept property, in order, named by the key and carrying the value |
| Transaction.UpdateEntries | src/index.ts:124-132 | one `Property` per kept property, in order, whose `Name` holds the key and whose `Value` holds the value |
| Transaction.GeometryMarkup | src/index.ts:50-97 | markup exists exactly for the six kinds; it is named after the kind and carries the GML namespace and the SRS name |
| Transaction.GeometryChain | src/index.ts:50-97 | the markup is a chain whose tags are the kind's wrapper path (`exterior`/`LinearRing` for polygons, a single `pointMember` for a MultiPoint); it ends in `pos` for Point and MultiPoint and in `posList` otherwise, and that leaf carries the SRS dimension and the whole coordinate text |
| Transaction.GeometryHasNoFilter | src/index.ts:50-97 | the geometry markup holds no `Property`, `Filter` or `FeatureId` |
| Transaction.InsertLayout | src/index.ts:33-48 | `Transaction` has the fixed WFS 1.1.0 root attributes, then `Insert`, then the layer element with the workspace namespace; the children are the kept properties in key order, then the geometry member named by the geometry option when the kind is supported |
| Transaction.InsertEntriesCount | src/index.ts:44-48 | property elements contain a tag only if some kept key is that tag |
| Transaction.UpdateEntriesCount | src/index.ts:124-132 | property entries hold only `Property`, `Name` and `Value` elements |
| Transaction.InsertGeometryCount | src/index.ts:50-97 | the geometry member of an insert holds no `Filter` unless the geometry option is named so |
| Transaction.InsertHasNoFilter | src/index.ts:28-101 | an insert contains no `Filter` when no caller-chosen name is "Filter" |
| Transaction.UpdateGeometryCount | src/index.ts:134-199 | the geometry `Property` of an update holds no `Filter` or `FeatureId` |
| Transaction.UpdateLayout | src/index.ts:114-201 | the `Update` has `typeName="feature:"+typeName` and the workspace namespace; its children are the property entries, then the geometry `Property` whose `Name` is the geometry option and whose second child is a `Value` holding the markup, then the `Filter` with `fid` from the feature id |
| Transaction.UpdateHasOneFilter | src/index.ts:109-205 | an update always holds exactly one `Filter` and one `FeatureId` |
| Transaction.DeleteCounts | src/index.ts:213-224 | a delete holds exactly one each of `Transaction`, `Delete`, `Filter` and `FeatureId`, and no other tag |
| Transaction.SameGeometryMarkup | src/index.ts:50-97 | insert and update carry the same geometry markup |
| Transaction.UnsupportedGeometryOmitted | src/index.ts:238-313 | an unknown kind flattens to the empty text, and neither insert nor update gets a geometry element |
| Transaction.GeometryNameIgnored | src/index.ts:28-228 | the feature's `geometry_name` does not affect any document |

## Left out

- `fetchTheData` (src/index.ts:316-328): an HTTP POST with a promise and a console warning, which is I/O and asynchronous. The builders return the document tree instead.
- Serialisation by the `xmlbuilder` library: text escaping, pretty-printing, the `utf-8` declaration, and how it treats an undefined element name, an undefined attribute value or a `null` text. That library is not part of this model. The tree records the names, attributes and texts passed to it, but `ele(k, null)` and `ele(k)` give the same tree, and the model does not decide how the library writes a `null` text.
- JavaScript number-to-text formatting: coordinates are opaque space-free texts.
- Property values that are objects or arrays: `xmlbuilder` would read them as attributes or children. Values are modelled as `undefined`, `null` or a scalar text.
- The key order of `Object.keys`, which puts integer-like keys first: properties are a sequence already in key order.
- `sum` (src/index.ts:18-20) and the tests: an arithmetic helper, and a test that checks only `sum`.
- lib/index.js and lib/index.d.ts: compiled output of an older revision, which this model does not describe.
- The options type casts of TypeScript (`as SrsDimension`): at run time any value may appear. The model accepts only the enum values, or undefined.
- Transaction.InsertHasNoFilter: requires that the layer name, the geometry option and every property key differ from "Filter". A feature with a property named `Filter` does produce a `Filter` element.
- Coordinates.DimensionInvariant: the word count and block layout are stated only in 2-D mode or when every tuple has two or three numbers. A longer tuple in 3-D mode contributes all its numbers, which `Coordinates.TokenIsJoinedWords` states.
- Coordinates.FlattenedWords: in 3-D mode it requires every tuple to be non-empty. An empty tuple gives an empty token, and the joined text then has two adjacent spaces, which no split into words can recover.
- A feature whose `geometry` or `properties` is `null`, which GeoJSON allows: `insert` and `update` throw a TypeError there (src/index.ts:239 reached from :31 and :112, and `Object.keys` at :44 and :124). `Interfaces.Feature` cannot hold either value, so the model does not represent these inputs or the exception.
- Aliasing of the options object: the constructor stores a reference to the caller's object (src/index.ts:15). A later change the caller makes to that object, say to `srsDimension`, changes what `insert` and `update` write (src/index.ts:31, :55, :112). `Interfaces.Options` is a value, so the model cannot express this. In the model the options are fixed when the class is constructed.
- Geometries whose coordinate shape does not match their `type`: the source types `type` and `coordinates` separately (src/interfaces.ts:19-22) and only casts the coordinates (src/index.ts:255, 259, 271, 277, 290, 298). So `{type: 'Point', coordinates: [[1, 2]]}` is accepted, and in 2-D mode it yields `"1,2 undefined"`. `Geometries.Geometry` ties each coordinate shape to its kind, so such values have no model.
