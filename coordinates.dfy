/**
 * The specification of the coordinate flattener: the text that a geometry's
 * coordinate tuples become inside a GML `pos` or `posList` element.
 * `Flattened` is the reference the flattening method is proved against; the
 * lemmas say what that text holds (which words, in which order, how many).
 */
module Coordinates {
  import opened Wrappers
  import Enums
  import opened Geometries

  // ---------------------------------------------------------------------------
  // Joining with single spaces, and its inverse
  // ---------------------------------------------------------------------------

  /** `parts.join(' ')`: the parts separated by single spaces. */
  function Join(parts: seq<string>): string
  {
    if |parts| == 0 then ""
    else if |parts| == 1 then parts[0]
    else parts[0] + " " + Join(parts[1..])
  }

  /** `s.split(' ')`: the maximal space-free pieces of `s`, empty ones included. */
  function Split(s: string): (parts: seq<string>)
    ensures |parts| >= 1
    ensures forall i :: 0 <= i < |parts| ==> ' ' !in parts[i]
  {
    if |s| == 0 then [""]
    else
      var rest := Split(s[1..]);
      if s[0] == ' ' then [""] + rest
      else [[s[0]] + rest[0]] + rest[1..]
  }

  lemma {:induction false} JoinAppend(a: seq<string>, b: seq<string>)
    requires |a| >= 1 && |b| >= 1
    ensures Join(a + b) == Join(a) + " " + Join(b)
    decreases |a|
  {
    assert (a + b)[0] == a[0];
    assert (a + b)[1..] == a[1..] + b;
    if |a| > 1 {
      JoinAppend(a[1..], b);
    }
  }

  /** Splitting `w + " " + s` for a space-free `w` peels `w` off. */
  lemma {:induction false} SplitAfterWord(w: NumText, s: string)
    ensures Split(w + " " + s) == [w] + Split(s)
    decreases |w|
  {
    if |w| == 0 {
      assert w + " " + s == [' '] + s;
      assert ([' '] + s)[1..] == s;
    } else {
      var t := w + " " + s;
      assert t[0] == w[0];
      assert t[1..] == w[1..] + " " + s;
      SplitAfterWord(w[1..], s);
      assert [w[0]] + w[1..] == w;
    }
  }

  lemma {:induction false} SplitWord(w: NumText)
    ensures Split(w) == [w]
    decreases |w|
  {
    if |w| > 0 {
      assert w[1..] + [] == w[1..];
      SplitWord(w[1..]);
      assert [w[0]] + w[1..] == w;
    }
  }

  /** Splitting undoes joining, for one or more space-free words. */
  lemma {:induction false} SplitJoin(ws: seq<NumText>)
    requires |ws| >= 1
    ensures Split(Join(ws)) == ws
    decreases |ws|
  {
    if |ws| == 1 {
      SplitWord(ws[0]);
    } else {
      SplitAfterWord(ws[0], Join(ws[1..]));
      SplitJoin(ws[1..]);
      assert [ws[0]] + ws[1..] == ws;
    }
  }

  /** Joining undoes splitting, for every text. */
  lemma {:induction false} JoinSplit(s: string)
    ensures Join(Split(s)) == s
    decreases |s|
  {
    if |s| > 0 {
      var rest := Split(s[1..]);
      JoinSplit(s[1..]);
      if s[0] == ' ' {
        assert ([""] + rest)[1..] == rest;
      } else if |rest| > 1 {
        assert ([[s[0]] + rest[0]] + rest[1..])[1..] == rest[1..];
      }
      assert [s[0]] + s[1..] == s;
    }
  }

  // ---------------------------------------------------------------------------
  // One coordinate tuple
  // ---------------------------------------------------------------------------

  /** The filler a two-number tuple gets in three-dimensional mode. */
  const Pad: NumText := "0"

  /** The text of a JavaScript array read past its end. */
  const Missing: NumText := "undefined"

  /** `point[i]` as text: the number, or "undefined" past the end of the tuple. */
  function Coordinate(p: Position, i: nat): NumText
  {
    if i < |p| then p[i] else Missing
  }

  /** Only the two-dimensional enum member selects 2-D mode; any other value, `undefined` included, does not. */
  predicate IsTwoDimensional(dim: Option<Enums.SrsDimension>)
  {
    dim == Some(Enums.TwoDimension)
  }

  /** The token one tuple becomes, as the source writes it. */
  function TupleToken(p: Position, dim: Option<Enums.SrsDimension>): string
  {
    if IsTwoDimensional(dim) then Coordinate(p, 0) + " " + Coordinate(p, 1)
    else if |p| == 2 then Join(p) + " " + Pad
    else Join(p)
  }

  /**
   * The numbers one tuple contributes, independently of how they are written:
   * in 2-D mode the first two, so a third one is dropped; in 3-D mode all of
   * them, with the filler after a tuple of exactly two.
   */
  function TupleWords(p: Position, dim: Option<Enums.SrsDimension>): seq<NumText>
  {
    if IsTwoDimensional(dim) then [Coordinate(p, 0), Coordinate(p, 1)]
    else if |p| == 2 then p + [Pad]
    else p
  }

  /** The token of a tuple is its words joined with single spaces. */
  lemma TokenIsJoinedWords(p: Position, dim: Option<Enums.SrsDimension>)
    ensures TupleToken(p, dim) == Join(TupleWords(p, dim))
  {
    if !IsTwoDimensional(dim) && |p| == 2 {
      JoinAppend(p, [Pad]);
    }
  }

  /** Words per tuple: 2 in 2-D mode, 3 otherwise. */
  function Width(dim: Option<Enums.SrsDimension>): (w: nat)
    ensures w == 2 || w == 3
  {
    if IsTwoDimensional(dim) then 2 else 3
  }

  /** A tuple as the data model requires it: two or three numbers. */
  predicate ValidPosition(p: Position)
  {
    |p| == 2 || |p| == 3
  }

  lemma TupleWordsWidth(p: Position, dim: Option<Enums.SrsDimension>)
    requires IsTwoDimensional(dim) || ValidPosition(p)
    ensures |TupleWords(p, dim)| == Width(dim)
  {
  }

  // ---------------------------------------------------------------------------
  // The leaf tuples of a geometry, in input order
  // ---------------------------------------------------------------------------

  /** Concatenation of the inner sequences, in order. */
  function Flatten<T>(tss: seq<seq<T>>): seq<T>
  {
    if |tss| == 0 then [] else Flatten(tss[..|tss| - 1]) + tss[|tss| - 1]
  }

  /** Sum of the lengths of the inner sequences. */
  function SumLengths<T>(tss: seq<seq<T>>): nat
  {
    if |tss| == 0 then 0 else SumLengths(tss[..|tss| - 1]) + |tss[|tss| - 1]|
  }

  /** Sum over the outer sequence of the sums of lengths. */
  function SumNested<T>(ttss: seq<seq<seq<T>>>): nat
  {
    if |ttss| == 0 then 0 else SumNested(ttss[..|ttss| - 1]) + SumLengths(ttss[|ttss| - 1])
  }

  /** Flattens each polygon into its tuples. */
  function FlattenEach<T>(ttss: seq<seq<seq<T>>>): (r: seq<seq<T>>)
    ensures |r| == |ttss|
    ensures forall i :: 0 <= i < |ttss| ==> r[i] == Flatten(ttss[i])
  {
    seq(|ttss|, i requires 0 <= i < |ttss| => Flatten(ttss[i]))
  }

  lemma {:induction false} FlattenLength<T>(tss: seq<seq<T>>)
    ensures |Flatten(tss)| == SumLengths(tss)
    decreases |tss|
  {
    if |tss| > 0 {
      FlattenLength(tss[..|tss| - 1]);
    }
  }

  /** Element `j` of inner sequence `i` sits after all the elements of the earlier inner sequences. */
  lemma {:induction false} FlattenAt<T>(tss: seq<seq<T>>, i: nat, j: nat)
    requires i < |tss| && j < |tss[i]|
    ensures SumLengths(tss[..i]) + j < |Flatten(tss)|
    ensures Flatten(tss)[SumLengths(tss[..i]) + j] == tss[i][j]
    decreases |tss|
  {
    var init := tss[..|tss| - 1];
    FlattenLength(init);
    FlattenLength(tss);
    if i == |tss| - 1 {
      assert tss[..i] == init;
    } else {
      assert init[..i] == tss[..i];
      FlattenAt(init, i, j);
    }
  }

  lemma {:induction false} SumNestedOfPrefix<T>(ttss: seq<seq<seq<T>>>, i: nat)
    requires i <= |ttss|
    ensures SumLengths(FlattenEach(ttss)[..i]) == SumNested(ttss[..i])
    decreases i
  {
    if i > 0 {
      var pre := FlattenEach(ttss)[..i];
      assert pre[..i - 1] == FlattenEach(ttss)[..i - 1];
      assert ttss[..i][..i - 1] == ttss[..i - 1];
      FlattenLength(ttss[i - 1]);
      SumNestedOfPrefix(ttss, i - 1);
    }
  }

  /** All leaf tuples of a geometry, in the order the source visits them: every line and every ring, holes included. */
  function Leaves(g: Geometry): seq<Position>
  {
    match g
    case Point(p) => [p]
    case MultiPoint(ps) => ps
    case LineString(ps) => ps
    case MultiLineString(ls) => Flatten(ls)
    case Polygon(rs) => Flatten(rs)
    case MultiPolygon(pps) => Flatten(FlattenEach(pps))
    case Unsupported(_) => []
  }

  /** The number of leaf tuples, counted shape by shape. */
  function LeafCount(g: Geometry): nat
  {
    match g
    case Point(_) => 1
    case MultiPoint(ps) => |ps|
    case LineString(ps) => |ps|
    case MultiLineString(ls) => SumLengths(ls)
    case Polygon(rs) => SumLengths(rs)
    case MultiPolygon(pps) => SumNested(pps)
    case Unsupported(_) => 0
  }

  lemma LeavesCounted(g: Geometry)
    ensures |Leaves(g)| == LeafCount(g)
  {
    match g
    case MultiLineString(ls) => FlattenLength(ls);
    case Polygon(rs) => FlattenLength(rs);
    case MultiPolygon(pps) =>
      FlattenLength(FlattenEach(pps));
      SumNestedOfPrefix(pps, |pps|);
      assert FlattenEach(pps)[..|pps|] == FlattenEach(pps);
      assert pps[..|pps|] == pps;
    case _ =>
  }

  /** Every ring of a polygon is visited, holes included, ring after ring (the same holds for the lines of a MultiLineString). */
  lemma EveryRingVisited(rings: seq<seq<Position>>, i: nat, j: nat)
    requires i < |rings| && j < |rings[i]|
    ensures SumLengths(rings[..i]) + j < |Leaves(Polygon(rings))|
    ensures Leaves(Polygon(rings))[SumLengths(rings[..i]) + j] == rings[i][j]
    ensures Leaves(MultiLineString(rings)) == Leaves(Polygon(rings))
  {
    FlattenAt(rings, i, j);
  }

  /** Every ring of every polygon of a MultiPolygon is visited, in order. */
  lemma EveryPolygonRingVisited(polygons: seq<seq<seq<Position>>>, i: nat, j: nat, k: nat)
    requires i < |polygons| && j < |polygons[i]| && k < |polygons[i][j]|
    ensures SumNested(polygons[..i]) + SumLengths(polygons[i][..j]) + k < |Leaves(MultiPolygon(polygons))|
    ensures Leaves(MultiPolygon(polygons))[SumNested(polygons[..i]) + SumLengths(polygons[i][..j]) + k]
            == polygons[i][j][k]
  {
    var each := FlattenEach(polygons);
    var offset := SumLengths(polygons[i][..j]) + k;
    FlattenAt(polygons[i], j, k);
    assert each[i] == Flatten(polygons[i]);
    FlattenAt(each, i, offset);
    SumNestedOfPrefix(polygons, i);
    assert Leaves(MultiPolygon(polygons)) == Flatten(each);
  }

  // ---------------------------------------------------------------------------
  // The flattened text
  // ---------------------------------------------------------------------------

  /** The token of each tuple, in order. */
  function Tokens(ps: seq<Position>, dim: Option<Enums.SrsDimension>): (ts: seq<string>)
    ensures |ts| == |ps|
    ensures forall i :: 0 <= i < |ps| ==> ts[i] == TupleToken(ps[i], dim)
  {
    seq(|ps|, i requires 0 <= i < |ps| => TupleToken(ps[i], dim))
  }

  /** What the flattener returns: the tuple tokens of all leaves, space-joined. */
  function Flattened(g: Geometry, dim: Option<Enums.SrsDimension>): string
  {
    Join(Tokens(Leaves(g), dim))
  }

  /** The words of every tuple, in order. */
  function Words(ps: seq<Position>, dim: Option<Enums.SrsDimension>): seq<NumText>
  {
    if |ps| == 0 then [] else TupleWords(ps[0], dim) + Words(ps[1..], dim)
  }

  lemma {:induction false} JoinTokensIsJoinWords(ps: seq<Position>, dim: Option<Enums.SrsDimension>)
    requires |ps| >= 1
    requires IsTwoDimensional(dim) || forall i :: 0 <= i < |ps| ==> |ps[i]| >= 1
    ensures |Words(ps, dim)| >= 1
    ensures Join(Tokens(ps, dim)) == Join(Words(ps, dim))
    decreases |ps|
  {
    TokenIsJoinedWords(ps[0], dim);
    if |ps| > 1 {
      assert Tokens(ps, dim)[1..] == Tokens(ps[1..], dim);
      JoinTokensIsJoinWords(ps[1..], dim);
      JoinAppend(TupleWords(ps[0], dim), Words(ps[1..], dim));
    } else {
      assert Words(ps, dim) == TupleWords(ps[0], dim);
    }
  }

  /**
   * Splitting the flattened text on spaces gives back exactly the words of all
   * leaf tuples, in input order; with no leaves the text is empty. In 2-D mode
   * this holds for tuples of every length (a short tuple yields "undefined").
   */
  lemma FlattenedWords(g: Geometry, dim: Option<Enums.SrsDimension>)
    requires IsTwoDimensional(dim) || forall i :: 0 <= i < |Leaves(g)| ==> |Leaves(g)[i]| >= 1
    ensures |Leaves(g)| == 0 ==> Flattened(g, dim) == ""
    ensures |Leaves(g)| > 0 ==> Split(Flattened(g, dim)) == Words(Leaves(g), dim)
  {
    if |Leaves(g)| > 0 {
      JoinTokensIsJoinWords(Leaves(g), dim);
      SplitJoin(Words(Leaves(g), dim));
    }
  }

  lemma {:induction false} WordsLayout(ps: seq<Position>, dim: Option<Enums.SrsDimension>, i: nat)
    requires IsTwoDimensional(dim) || forall t :: 0 <= t < |ps| ==> ValidPosition(ps[t])
    requires i < |ps|
    ensures |Words(ps, dim)| == Width(dim) * |ps|
    ensures Words(ps, dim)[Width(dim) * i .. Width(dim) * i + Width(dim)] == TupleWords(ps[i], dim)
    decreases |ps|
  {
    var w := Width(dim);
    TupleWordsWidth(ps[0], dim);
    if |ps| == 1 {
      assert Words(ps, dim) == TupleWords(ps[0], dim) + [];
    } else {
      var rest := ps[1..];
      WordsLayout(rest, dim, if i > 0 then i - 1 else 0);
      assert w * |ps| == w + w * |rest|;
      if i > 0 {
        assert w * i == w + w * (i - 1);
        assert rest[i - 1] == ps[i];
      }
    }
  }

  /**
   * The dimension invariant: for tuples of two or three numbers (any length in
   * 2-D mode) the flattened text holds exactly `Width(dim)` words per leaf tuple,
   * and the words at tuple `i`'s place are that tuple's words.
   */
  lemma DimensionInvariant(g: Geometry, dim: Option<Enums.SrsDimension>, i: nat)
    requires IsTwoDimensional(dim) || forall t :: 0 <= t < |Leaves(g)| ==> ValidPosition(Leaves(g)[t])
    requires i < LeafCount(g)
    ensures |Leaves(g)| == LeafCount(g)
    ensures |Split(Flattened(g, dim))| == Width(dim) * LeafCount(g)
    ensures Split(Flattened(g, dim))[Width(dim) * i .. Width(dim) * i + Width(dim)] == TupleWords(Leaves(g)[i], dim)
  {
    LeavesCounted(g);
    FlattenedWords(g, dim);
    WordsLayout(Leaves(g), dim, i);
  }
}
