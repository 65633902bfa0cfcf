/**
 * XML fragments as the clipboard carries them, and the removal of reference
 * children that copy applies to a fragment before it is serialised.
 *
 * An ElementTree element is modelled by the value `XNode` (tag, attributes,
 * children in document order) and, where the source changes one in place,
 * by the class `XmlElement`.
 */
module Xml {

  datatype XNode = XNode(tag: string, attrs: map<string, string>, children: seq<XNode>)

  /** Tags of child elements that point at other elements of the novel, in the order copy removes them. */
  const References: seq<string> := ["Characters", "Locations", "Items", "PlotlineNotes", "Sections", "Section"]

  /** The children whose tag is not one of `tags`, in their original order. */
  function Without(cs: seq<XNode>, tags: seq<string>): (r: seq<XNode>)
    ensures |r| <= |cs|
    ensures forall i :: 0 <= i < |r| ==> r[i].tag !in tags
    ensures forall x :: x in r ==> x in cs
  {
    if cs == [] then []
    else if cs[0].tag in tags then Without(cs[1..], tags)
    else [cs[0]] + Without(cs[1..], tags)
  }

  /** The children left once every reference child is gone. */
  function Stripped(cs: seq<XNode>): (r: seq<XNode>)
    ensures |r| <= |cs|
    ensures forall i :: 0 <= i < |r| ==> r[i].tag !in References
    ensures forall x :: x in r ==> x in cs
  {
    Without(cs, References)
  }

  /** The children whose tag is `tag`, in document order: ElementTree's `findall` on a plain tag. */
  function FindAll(cs: seq<XNode>, tag: string): (r: seq<XNode>)
    ensures forall i :: 0 <= i < |r| ==> r[i].tag == tag
    ensures forall x :: x in r ==> x in cs
  {
    if cs == [] then []
    else (if cs[0].tag == tag then [cs[0]] else []) + FindAll(cs[1..], tag)
  }

  /** `cs` without its first child equal to `x`: ElementTree's `remove`. */
  function RemoveFirst(cs: seq<XNode>, x: XNode): (r: seq<XNode>)
    requires x in cs
    ensures |r| == |cs| - 1
    ensures multiset(r) == multiset(cs) - multiset{x}
  {
    if cs[0] == x then
      assert cs == [cs[0]] + cs[1..];
      cs[1..]
    else
      assert cs == [cs[0]] + cs[1..];
      [cs[0]] + RemoveFirst(cs[1..], x)
  }

  /** Removing the first match of `tag` moves on to the next match and keeps every other child where it was. */
  lemma {:induction false} RemoveFirstMatch(cs: seq<XNode>, tag: string)
    requires FindAll(cs, tag) != []
    ensures FindAll(cs, tag)[0] in cs
    ensures FindAll(RemoveFirst(cs, FindAll(cs, tag)[0]), tag) == FindAll(cs, tag)[1..]
    ensures Without(RemoveFirst(cs, FindAll(cs, tag)[0]), [tag]) == Without(cs, [tag])
  {
    var x := FindAll(cs, tag)[0];
    if cs[0].tag == tag {
      assert RemoveFirst(cs, x) == cs[1..];
    } else {
      var rest := cs[1..];
      assert FindAll(cs, tag) == FindAll(rest, tag);
      RemoveFirstMatch(rest, tag);
      assert cs[0] != x;
      var r := RemoveFirst(rest, x);
      assert RemoveFirst(cs, x) == [cs[0]] + r;
      assert ([cs[0]] + r)[1..] == r;
    }
  }

  /** With no child tagged `tag` left, removing that tag changes nothing. */
  lemma {:induction false} WithoutAbsent(cs: seq<XNode>, tag: string)
    requires FindAll(cs, tag) == []
    ensures Without(cs, [tag]) == cs
  {
    if cs != [] {
      WithoutAbsent(cs[1..], tag);
      assert cs == [cs[0]] + cs[1..];
    }
  }

  /** Removing one more tag after a set of tags equals removing them all at once. */
  lemma {:induction false} WithoutStep(cs: seq<XNode>, tags: seq<string>, tag: string)
    ensures Without(Without(cs, tags), [tag]) == Without(cs, tags + [tag])
  {
    if cs != [] {
      WithoutStep(cs[1..], tags, tag);
      var w := Without(cs[1..], tags);
      if cs[0].tag !in tags {
        assert Without(cs, tags) == [cs[0]] + w;
        assert ([cs[0]] + w)[1..] == w;
      }
    }
  }

  /** Removal works child by child: the order of the children that stay is the order they had. */
  lemma {:induction false} WithoutAppend(a: seq<XNode>, b: seq<XNode>, tags: seq<string>)
    ensures Without(a + b, tags) == Without(a, tags) + Without(b, tags)
  {
    if a != [] {
      WithoutAppend(a[1..], b, tags);
      assert (a + b)[0] == a[0];
      assert (a + b)[1..] == a[1..] + b;
    } else {
      assert a + b == b;
    }
  }

  /** Every child whose tag is not removed stays, as often as it occurred. */
  lemma {:induction false} WithoutKeeps(cs: seq<XNode>, tags: seq<string>, x: XNode)
    requires x.tag !in tags
    ensures multiset(Without(cs, tags))[x] == multiset(cs)[x]
  {
    if cs != [] {
      WithoutKeeps(cs[1..], tags, x);
      assert cs == [cs[0]] + cs[1..];
    }
  }

  /** A child list that holds none of `tags` is left as it is. */
  lemma {:induction false} WithoutClean(cs: seq<XNode>, tags: seq<string>)
    requires forall i :: 0 <= i < |cs| ==> cs[i].tag !in tags
    ensures Without(cs, tags) == cs
  {
    if cs != [] {
      WithoutClean(cs[1..], tags);
      assert cs == [cs[0]] + cs[1..];
    }
  }

  /** Stripping the references twice is the same as stripping them once. */
  lemma StrippedIdempotent(cs: seq<XNode>)
    ensures Stripped(Stripped(cs)) == Stripped(cs)
  {
    WithoutClean(Stripped(cs), References);
  }

  /** A mutable ElementTree element: the tag is fixed when it is made, attributes and children are filled in later. */
  class XmlElement {
    var tag: string
    var attrib: map<string, string>
    var children: seq<XNode>

    constructor (tag: string)
      ensures this.tag == tag && attrib == map[] && children == []
    {
      this.tag := tag;
      attrib := map[];
      children := [];
    }

    /** The element as a value. */
    function Value(): XNode
      reads this
    {
      XNode(tag, attrib, children)
    }

    /** ElementTree's `remove`: takes out the first child equal to `x`. */
    method Remove(x: XNode)
      requires x in children
      modifies this
      ensures tag == old(tag) && attrib == old(attrib)
      ensures children == RemoveFirst(old(children), x)
    {
      children := RemoveFirst(children, x);
    }
  }
}
