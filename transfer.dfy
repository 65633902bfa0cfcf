/**
 * What cut, copy and paste decide, as functions of the state they read:
 * the lock, the tree selection, the tree links, the clipboard and the
 * novel's containers. The class in module Clipboard carries the operations
 * out step by step and is proved to follow these plans; the lemmas here
 * state what the plans promise.
 */
module Transfer {
  import opened Options
  import opened Xml
  import opened Novel

  /** The exceptions the manager lets escape. */
  datatype Error = KeyError | ValueError

  /** What an operation gives back to Tk: `'break'`, `None`, or an exception it raised. */
  datatype Outcome = Break | Nothing | Raised(error: Error)

  /** The clipboard's text: a fragment ElementTree parses, or text it rejects. */
  datatype ClipText = Fragment(root: XNode) | Unparsable(text: string)

  /** The novel's element containers, by kind; a kind without an entry holds no element. */
  type Containers = map<Kind, map<string, Elem>>

  function Container(novel: Containers, k: Kind): map<string, Elem>
  {
    if k in novel then novel[k] else map[]
  }

  /** The tree view's `prev` or `parent`: the linked node, or "" when there is none. */
  function Lookup(link: map<string, string>, node: string): string
  {
    if node in link then link[node] else ""
  }

  /** The optional prefix filter lets `tag` through. */
  predicate Admits(filter: Option<string>, tag: string)
  {
    filter.None? || filter.value == tag
  }

  /** The fragment copy builds for element `e` of kind `k`: root tag the kind's prefix, references stripped. */
  function Serialise(k: Kind, e: Elem): (x: XNode)
    ensures x.tag in ElementContainers && ElementContainers[x.tag] == k
    ensures forall i :: 0 <= i < |x.children| ==> x.children[i].tag !in References
  {
    ElementContainersExact(Prefix(k), k);
    XNode(Prefix(k), e.attrs, Stripped(e.body))
  }

  /** The novel after `delete_element(node)`: no container holds `node` any more. */
  function Erased(novel: Containers, node: string): (r: Containers)
    ensures r.Keys == novel.Keys
    ensures forall k :: k in r ==> node !in r[k] && r[k] == novel[k] - {node}
  {
    map k | k in novel :: novel[k] - {node}
  }

  /** Filling a fresh id into one container keeps every element of every container. */
  lemma FreshEntryKeeps(novel: Containers, k0: Kind, id: string, e: Elem)
    requires forall k :: id !in Container(novel, k)
    ensures var after := novel[k0 := Container(novel, k0)[id := e]];
      forall k, n :: n in Container(novel, k) ==>
        n in Container(after, k) && Container(after, k)[n] == Container(novel, k)[n]
  {
  }

  datatype CopyPlan = CopyStop(outcome: Outcome) | CopyPut(node: string, kind: Kind, fragment: XNode)

  /** What copy does: stop with an outcome, or put the fragment of the selected node on the clipboard. */
  function PlanCopy(selection: seq<string>, novel: Containers, filter: Option<string>): (p: CopyPlan)
    ensures p.CopyStop? ==> p.outcome == Nothing || p.outcome == Raised(KeyError)
    ensures p.CopyPut? ==>
      && selection != [] && p.node == selection[0]
      && p.node in Container(novel, p.kind)
      && p.fragment.tag == NodePrefix(p.node)
      && Admits(filter, p.fragment.tag)
  {
    if selection == [] then CopyStop(Nothing)
    else
      var node := selection[0];
      var p := NodePrefix(node);
      if !Admits(filter, p) then CopyStop(Nothing)
      else if p !in ElementContainers then CopyStop(Nothing)
      else
        var k := ElementContainers[p];
        if node !in Container(novel, k) then CopyStop(Raised(KeyError))
        else CopyPut(node, k, Serialise(k, Container(novel, k)[node]))
  }

  /**
   * Copy gives up quietly exactly when nothing is selected, the filter
   * rejects the node's prefix or the prefix is not one of the eight; it
   * raises KeyError exactly when the node is missing from its container.
   */
  lemma CopyFailures(selection: seq<string>, novel: Containers, filter: Option<string>)
    ensures PlanCopy(selection, novel, filter) == CopyStop(Nothing) <==>
      || selection == []
      || !Admits(filter, NodePrefix(selection[0]))
      || NodePrefix(selection[0]) !in ElementContainers
    ensures PlanCopy(selection, novel, filter) == CopyStop(Raised(KeyError)) <==>
      && selection != []
      && Admits(filter, NodePrefix(selection[0]))
      && NodePrefix(selection[0]) in ElementContainers
      && selection[0] !in Container(novel, ElementContainers[NodePrefix(selection[0])])
    ensures PlanCopy(selection, novel, filter).CopyStop? ==>
      PlanCopy(selection, novel, filter).outcome in {Nothing, Raised(KeyError)}
  {
  }

  /**
   * A successful copy takes the selected node from the container of its
   * kind and builds a fragment whose root tag is the node's two-letter
   * prefix, with the element's attributes and every child it wrote except
   * the references, in their order; stripping that fragment again changes
   * nothing.
   */
  lemma CopyFragment(selection: seq<string>, novel: Containers, filter: Option<string>)
    requires PlanCopy(selection, novel, filter).CopyPut?
    ensures var plan := PlanCopy(selection, novel, filter);
      && selection != []
      && plan.node == selection[0]
      && plan.node in Container(novel, plan.kind)
      && plan.fragment.tag == NodePrefix(plan.node) == Prefix(plan.kind)
      && plan.fragment.attrs == Container(novel, plan.kind)[plan.node].attrs
      && plan.fragment.children == Stripped(Container(novel, plan.kind)[plan.node].body)
      && (forall i :: 0 <= i < |plan.fragment.children| ==> plan.fragment.children[i].tag !in References)
      && Stripped(plan.fragment.children) == plan.fragment.children
  {
    var plan := PlanCopy(selection, novel, filter);
    ElementContainersExact(NodePrefix(selection[0]), plan.kind);
    StrippedIdempotent(Container(novel, plan.kind)[plan.node].body);
  }

  datatype CutPlan = CutStop(outcome: Outcome) | CutMove(node: string, target: string, fragment: XNode)

  /**
   * What cut does. It has no filter: the source hands its prefix to copy
   * positionally, where it fills copy's `event` parameter, so the copy
   * inside a cut is never filtered.
   */
  function PlanCut(locked: bool, selection: seq<string>, novel: Containers,
                   prev: map<string, string>, parent: map<string, string>): (p: CutPlan)
    ensures p.CutStop? ==> p.outcome == Nothing || p.outcome == Raised(KeyError)
    ensures p.CutMove? ==>
      && !locked && selection != [] && p.node == selection[0]
      && (p.target == Lookup(prev, p.node) || p.target == Lookup(parent, p.node))
  {
    if locked then CutStop(Nothing)
    else if selection == [] then CutStop(Nothing)
    else
      match PlanCopy(selection, novel, None)
      case CopyStop(o) => CutStop(o)
      case CopyPut(node, _, x) =>
        CutMove(node, if Lookup(prev, node) != "" then Lookup(prev, node) else Lookup(parent, node), x)
  }

  /**
   * Cut deletes nothing and moves nothing exactly when the model is locked,
   * nothing is selected, or the unfiltered copy fails; in the last case it
   * gives back what the copy gave back.
   */
  lemma CutRefusals(locked: bool, selection: seq<string>, novel: Containers,
                    prev: map<string, string>, parent: map<string, string>)
    ensures PlanCut(locked, selection, novel, prev, parent).CutStop? <==>
      locked || selection == [] || PlanCopy(selection, novel, None).CopyStop?
    ensures !locked && selection != [] && PlanCopy(selection, novel, None).CopyStop? ==>
      PlanCut(locked, selection, novel, prev, parent).outcome == PlanCopy(selection, novel, None).outcome
  {
  }

  /**
   * A successful cut removes the selected node, after moving the selection
   * to its previous sibling when it has one and to its parent otherwise, and
   * leaves on the clipboard what an unfiltered copy of that node would.
   */
  lemma CutTarget(locked: bool, selection: seq<string>, novel: Containers,
                  prev: map<string, string>, parent: map<string, string>)
    requires PlanCut(locked, selection, novel, prev, parent).CutMove?
    ensures var plan := PlanCut(locked, selection, novel, prev, parent);
      && !locked && selection != []
      && plan.node == selection[0]
      && (Lookup(prev, plan.node) != "" ==> plan.target == Lookup(prev, plan.node))
      && (Lookup(prev, plan.node) == "" ==> plan.target == Lookup(parent, plan.node))
      && PlanCopy(selection, novel, None).CopyPut?
      && PlanCopy(selection, novel, None).fragment == plan.fragment
      && plan.node in Container(novel, PlanCopy(selection, novel, None).kind)
  {
  }

  datatype PastePlan = PasteStop(outcome: Outcome) | PasteCreate(route: Route, target: string, fragment: XNode)

  /** What paste does: stop with an outcome, or create an element from the clipboard's fragment, with the selection as target. */
  function PlanPaste(locked: bool, selection: seq<string>, clipboard: Option<ClipText>, filter: Option<string>): (p: PastePlan)
    ensures p.PasteStop? ==> p.outcome == Nothing || p.outcome == Raised(ValueError)
    ensures p.PasteCreate? ==>
      && !locked && selection != [] && p.target == selection[0]
      && clipboard == Some(Fragment(p.fragment))
      && Admits(filter, p.fragment.tag)
      && p.fragment.tag in ElementContainers && p.route.container == ElementContainers[p.fragment.tag]
  {
    if locked then PasteStop(Nothing)
    else if selection == [] then PasteStop(Nothing)
    else if clipboard.None? || clipboard.value.Unparsable? then PasteStop(Nothing)
    else
      var x := clipboard.value.root;
      if !Admits(filter, x.tag) then PasteStop(Nothing)
      else
        match RouteOf(x)
        case Unrecognised => PasteStop(Nothing)
        case NotAnInteger => PasteStop(Raised(ValueError))
        case Routed(route) => PasteCreate(route, selection[0], x)
  }

  /**
   * Paste gives up quietly exactly when the model is locked, nothing is
   * selected, the clipboard holds no parsable fragment, the filter rejects
   * the root tag, or that tag is not one of the eight prefixes; it raises
   * ValueError exactly when a section's `type` is not an integer.
   */
  lemma PasteFailures(locked: bool, selection: seq<string>, clipboard: Option<ClipText>, filter: Option<string>)
    ensures PlanPaste(locked, selection, clipboard, filter) == PasteStop(Nothing) <==>
      || locked
      || selection == []
      || clipboard.None?
      || clipboard.value.Unparsable?
      || !Admits(filter, clipboard.value.root.tag)
      || clipboard.value.root.tag !in ElementContainers
    ensures PlanPaste(locked, selection, clipboard, filter) == PasteStop(Raised(ValueError)) <==>
      && !locked && selection != [] && clipboard.Some? && clipboard.value.Fragment?
      && Admits(filter, clipboard.value.root.tag)
      && clipboard.value.root.tag == Prefix(Section)
      && TypeValue(clipboard.value.root.attrs).None?
  {
  }

  /**
   * When paste creates, it does so with the selected node as target, with the
   * creator and container of the kind the root tag names; a section goes to
   * `add_stage` exactly when its `type` is an integer above 1.
   */
  lemma PasteCreation(locked: bool, selection: seq<string>, clipboard: Option<ClipText>, filter: Option<string>)
    requires PlanPaste(locked, selection, clipboard, filter).PasteCreate?
    ensures var plan := PlanPaste(locked, selection, clipboard, filter);
      && !locked && selection != [] && clipboard == Some(Fragment(plan.fragment))
      && plan.target == selection[0]
      && Prefix(plan.route.container) == plan.fragment.tag
      && (plan.route.creator == AddStage <==>
            plan.fragment.tag == Prefix(Section) && TypeValue(plan.fragment.attrs).value > 1)
      && (plan.route.creator != AddStage ==> plan.route.creator == Add(plan.route.container))
  {
  }

  /**
   * Paste accepts every fragment copy emits, unless it is a section whose
   * `type` does not read as an integer: the new element goes to the
   * container the copied one came from and, loaded from the fragment, has
   * the copied element's attributes and its children minus the references.
   * Copying the pasted element again yields the same fragment.
   */
  lemma CopyThenPaste(selection: seq<string>, novel: Containers, filter: Option<string>,
                      target: seq<string>, pasteFilter: Option<string>)
    requires PlanCopy(selection, novel, filter).CopyPut?
    requires target != []
    requires PlanCopy(selection, novel, filter).kind == Section ==>
      TypeValue(PlanCopy(selection, novel, filter).fragment.attrs).Some?
    requires pasteFilter.None? || pasteFilter == Some(NodePrefix(selection[0]))
    ensures var copy := PlanCopy(selection, novel, filter);
      var e := Container(novel, copy.kind)[copy.node];
      var paste := PlanPaste(false, target, Some(Fragment(copy.fragment)), pasteFilter);
      && paste.PasteCreate?
      && paste.target == target[0]
      && paste.route.container == copy.kind
      && FromXml(paste.fragment) == Elem(e.attrs, Stripped(e.body))
      && Serialise(copy.kind, FromXml(paste.fragment)) == copy.fragment
  {
    var copy := PlanCopy(selection, novel, filter);
    var x := copy.fragment;
    CopyFragment(selection, novel, filter);
    ElementContainersExact(x.tag, copy.kind);
    assert RouteOf(x).Routed?;
    var paste := PlanPaste(false, target, Some(Fragment(x)), pasteFilter);
    assert paste == PasteCreate(RouteOf(x).route, target[0], x);
    assert Stripped(x.children) == x.children;
  }

  /** A copied section whose `type` does not read as an integer makes paste raise ValueError. */
  lemma CopiedSectionWithBadType(selection: seq<string>, novel: Containers, filter: Option<string>, target: seq<string>)
    requires PlanCopy(selection, novel, filter).CopyPut?
    requires PlanCopy(selection, novel, filter).kind == Section
    requires TypeValue(PlanCopy(selection, novel, filter).fragment.attrs).None?
    requires target != []
    ensures PlanPaste(false, target, Some(Fragment(PlanCopy(selection, novel, filter).fragment)), None)
      == PasteStop(Raised(ValueError))
  {
  }
}
