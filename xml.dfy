/**
 * An abstract XML element tree: what the transaction builders hand to the XML
 * builder. Tags, attribute values and text are optional because the source may
 * pass `undefined` for each of them.
 */
module Xml {
  import opened Wrappers

  datatype Element = Element(
    tag: Option<string>,
    attributes: map<string, Option<string>>,
    children: seq<Element>,
    text: Option<string>)

  /** Number of elements with tag `tag` in the tree rooted at `e`, `e` included. */
  function Count(e: Element, tag: string): nat
    decreases e
  {
    (if e.tag == Some(tag) then 1 else 0) + CountIn(e.children, tag)
  }

  /** Number of elements with tag `tag` in the trees of `es`. */
  function CountIn(es: seq<Element>, tag: string): nat
    decreases es
  {
    if |es| == 0 then 0 else Count(es[0], tag) + CountIn(es[1..], tag)
  }

  lemma {:induction false} CountInAppend(a: seq<Element>, b: seq<Element>, tag: string)
    ensures CountIn(a + b, tag) == CountIn(a, tag) + CountIn(b, tag)
    decreases |a|
  {
    if |a| > 0 {
      assert (a + b)[0] == a[0];
      assert (a + b)[1..] == a[1..] + b;
      CountInAppend(a[1..], b, tag);
    } else {
      assert a + b == b;
    }
  }

  lemma CountInSingle(e: Element, tag: string)
    ensures CountIn([e], tag) == Count(e, tag)
  {
    assert [e][1..] == [];
  }

  lemma CountInPair(a: Element, b: Element, tag: string)
    ensures CountIn([a, b], tag) == Count(a, tag) + Count(b, tag)
  {
    assert [a, b][1..] == [b];
    CountInSingle(b, tag);
  }

  /** A tree in which every element has at most one child. */
  predicate IsChain(e: Element)
    decreases e
  {
    |e.children| <= 1 && (|e.children| == 1 ==> IsChain(e.children[0]))
  }

  /** The tags met going down from `e` through first children. */
  function Path(e: Element): (tags: seq<Option<string>>)
    ensures |tags| >= 1 && tags[0] == e.tag
    decreases e
  {
    [e.tag] + (if |e.children| == 0 then [] else Path(e.children[0]))
  }

  /** A tag that is not on a chain's path occurs nowhere in the chain. */
  lemma {:induction false} ChainCountAbsent(e: Element, tag: string)
    requires IsChain(e) && Some(tag) !in Path(e)
    ensures Count(e, tag) == 0
    decreases e
  {
    if |e.children| == 0 {
      assert CountIn(e.children, tag) == 0;
    } else {
      var c := e.children[0];
      assert e.children == [c];
      assert Path(e) == [e.tag] + Path(c);
      ChainCountAbsent(c, tag);
      CountInSingle(c, tag);
    }
  }

  /** The element reached by following first children down from `e`. */
  function Innermost(e: Element): (leaf: Element)
    ensures leaf.children == []
    decreases e
  {
    if |e.children| == 0 then e else Innermost(e.children[0])
  }

  /** A leaf is a chain of one element, and is its own innermost element. */
  lemma LeafChain(e: Element)
    requires e.children == []
    ensures IsChain(e) && Path(e) == [e.tag] && Innermost(e) == e
  {
  }

  /** An element with a single child extends the child's chain by its own tag. */
  lemma ParentChain(e: Element, c: Element)
    requires e.children == [c]
    ensures IsChain(e) == IsChain(c)
    ensures Path(e) == [e.tag] + Path(c)
    ensures Innermost(e) == Innermost(c)
  {
  }
}
