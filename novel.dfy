/**
 * The parts of the novel's document model the clipboard relies on: the
 * element kinds and their two-letter node-id prefixes, the two dispatch
 * tables of the clipboard manager (node prefix to container for copy, root
 * tag to creator and container for paste) and the XML form of an element.
 */
module Novel {
  import opened Options
  import opened Xml
  import IntText

  /** The element kinds that own a container in the novel. */
  datatype Kind = Chapter | Section | PlotLine | PlotPoint | Character | Location | Item | ProjectNote

  /** The id prefix of each kind: novxlib's CHAPTER_PREFIX, SECTION_PREFIX and so on. */
  function Prefix(k: Kind): string
  {
    match k
    case Chapter => "ch"
    case Section => "sc"
    case PlotLine => "ac"
    case PlotPoint => "ap"
    case Character => "cr"
    case Location => "lc"
    case Item => "it"
    case ProjectNote => "pn"
  }

  /** Every prefix has two characters, and no two kinds share one. */
  lemma PrefixesDistinct(a: Kind, b: Kind)
    ensures |Prefix(a)| == 2
    ensures Prefix(a) == Prefix(b) ==> a == b
  {
  }

  /** `node[:2]`: the first two characters of a node id, or the whole id when it is shorter. */
  function NodePrefix(node: string): (p: string)
    ensures p <= node
    ensures |p| == if |node| < 2 then |node| else 2
  {
    if |node| < 2 then node else node[..2]
  }

  /** Copy's table from node prefix to the container that holds such nodes. */
  const ElementContainers: map<string, Kind> := map[
    "ch" := Chapter,
    "sc" := Section,
    "ac" := PlotLine,
    "ap" := PlotPoint,
    "cr" := Character,
    "lc" := Location,
    "it" := Item,
    "pn" := ProjectNote
  ]

  /** Copy's table holds exactly the eight prefixes, each leading to its own kind's container. */
  lemma ElementContainersExact(p: string, k: Kind)
    ensures p in ElementContainers && ElementContainers[p] == k <==> p == Prefix(k)
    ensures p in ElementContainers ==> Prefix(ElementContainers[p]) == p
  {
  }

  /** The model's creation operations: `add_chapter`, `add_section`, ..., and `add_stage`. */
  datatype Creator = Add(kind: Kind) | AddStage

  /** A creation operation together with the container the new element lands in. */
  datatype Route = Route(creator: Creator, container: Kind)

  /** Paste's table for every tag but the section prefix, which is dispatched on its `type` attribute. */
  const ElementControls: map<string, Route> := map[
    "ch" := Route(Add(Chapter), Chapter),
    "ac" := Route(Add(PlotLine), PlotLine),
    "ap" := Route(Add(PlotPoint), PlotPoint),
    "cr" := Route(Add(Character), Character),
    "lc" := Route(Add(Location), Location),
    "it" := Route(Add(Item), Item),
    "pn" := Route(Add(ProjectNote), ProjectNote)
  ]

  /** Paste's table covers every prefix but the section's, sending each to the creator and container of its own kind. */
  lemma ElementControlsExact(p: string)
    ensures p in ElementControls <==> p in ElementContainers && p != Prefix(Section)
    ensures p in ElementControls ==>
      ElementControls[p] == Route(Add(ElementContainers[p]), ElementContainers[p])
  {
  }

  /** The integer value of a fragment's `type` attribute: `int(get('type', 0))`; None where `int` raises ValueError. */
  function TypeValue(attrs: map<string, string>): (r: Option<int>)
    ensures "type" !in attrs ==> r == Some(0)
    ensures r.None? ==> "type" in attrs
  {
    if "type" in attrs then IntText.ParseInt(attrs["type"]) else Some(0)
  }

  /** Where paste sends a fragment, decided by its root tag. */
  datatype Routing = Unrecognised | NotAnInteger | Routed(route: Route)

  function RouteOf(x: XNode): (r: Routing)
    ensures r.NotAnInteger? ==> x.tag == Prefix(Section)
    ensures r.Routed? ==> x.tag in ElementContainers && r.route.container == ElementContainers[x.tag]
  {
    ElementControlsExact(x.tag);
    ElementContainersExact(x.tag, Section);
    if x.tag == Prefix(Section) then
      match TypeValue(x.attrs)
      case None => NotAnInteger
      case Some(n) => Routed(Route(if n > 1 then AddStage else Add(Section), Section))
    else if x.tag in ElementControls then Routed(ElementControls[x.tag])
    else Unrecognised
  }

  /**
   * Paste recognises exactly the eight tags copy emits, raises only on a
   * section whose `type` is not an integer, and puts the new element in the
   * container of the kind its tag names.
   */
  lemma RouteOfMatchesTag(x: XNode)
    ensures RouteOf(x).Unrecognised? <==> x.tag !in ElementContainers
    ensures RouteOf(x).NotAnInteger? <==> x.tag == Prefix(Section) && TypeValue(x.attrs).None?
    ensures RouteOf(x).Routed? ==> Prefix(RouteOf(x).route.container) == x.tag
    ensures RouteOf(x).Routed? ==>
      (RouteOf(x).route.creator == AddStage || RouteOf(x).route.creator == Add(RouteOf(x).route.container))
  {
  }

  /**
   * A section fragment becomes a stage exactly when its `type` reads as an
   * integer above 1; without a `type` it is a plain section.
   */
  lemma StageIffTypeAboveOne(x: XNode)
    requires x.tag == Prefix(Section)
    ensures "type" !in x.attrs ==> RouteOf(x) == Routed(Route(Add(Section), Section))
    ensures RouteOf(x) == Routed(Route(AddStage, Section)) <==>
      TypeValue(x.attrs).Some? && TypeValue(x.attrs).value > 1
    ensures RouteOf(x) == Routed(Route(Add(Section), Section)) <==>
      TypeValue(x.attrs).Some? && TypeValue(x.attrs).value <= 1
  {
  }

  /**
   * A section written with `type="n"` (for instance `type="2"`) pastes as a
   * stage exactly when n > 1, as long as n has at most `MaxStrDigits` digits.
   */
  lemma WrittenTypeDecidesStage(x: XNode, n: int)
    requires x.tag == Prefix(Section)
    requires "type" in x.attrs && x.attrs["type"] == IntText.ShowInt(n)
    requires IntText.DigitsOf(n) <= IntText.MaxStrDigits
    ensures RouteOf(x).Routed?
    ensures RouteOf(x).route.creator == AddStage <==> n > 1
  {
    IntText.ParseShowRoundTrip(n);
  }

  /** A section whose `type` is written with more than `MaxStrDigits` digits makes paste raise ValueError. */
  lemma OverlongTypeRaises(x: XNode, n: int)
    requires x.tag == Prefix(Section)
    requires "type" in x.attrs && x.attrs["type"] == IntText.ShowInt(n)
    requires IntText.DigitsOf(n) > IntText.MaxStrDigits
    ensures RouteOf(x) == NotAnInteger
  {
    IntText.ParseShowTooLong(n);
  }

  /** A novel element, as far as the clipboard sees it: the attributes and child elements its XML form carries. */
  datatype Elem = Elem(attrs: map<string, string>, body: seq<XNode>)

  /** The empty element a creation operation inserts before paste fills it in. */
  const Blank: Elem := Elem(map[], [])

  /** `elem.to_xml(xmlElement)`: writes the element's attributes and child elements into `x`. */
  method ToXml(e: Elem, x: XmlElement)
    modifies x
    ensures x.tag == old(x.tag)
    ensures x.attrib == old(x.attrib) + e.attrs
    ensures x.children == old(x.children) + e.body
  {
    x.attrib := x.attrib + e.attrs;
    x.children := x.children + e.body;
  }

  /** `elem.from_xml(xmlElement)`: the element as the fragment describes it. */
  function FromXml(x: XNode): (e: Elem)
    ensures x == XNode(x.tag, e.attrs, e.body)
  {
    Elem(x.attrs, x.children)
  }
}
