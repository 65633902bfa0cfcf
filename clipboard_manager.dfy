/**
 * The clipboard manager: cut, copy and paste of novel-tree elements through
 * the one text slot of the clipboard.
 *
 * The manager's collaborators are folded into its state: the controller's
 * lock, the tree view's selection and its `prev` and `parent` links, the
 * clipboard, and the novel's containers. Every call on a collaborator that
 * changes something is recorded in `log`, so that the order of those calls
 * can be stated.
 */
module Clipboard {
  import opened Options
  import opened Xml
  import opened Novel
  import opened Transfer

  /** A call on a collaborator that changes the model or the view. */
  datatype Effect =
    | WentTo(node: string)                                // tree view's go_to_node
    | Deleted(node: string)                               // model's delete_element
    | Created(creator: Creator, target: string, node: string)  // model's add_* or add_stage
    | Loaded(kind: Kind, node: string)                    // element's from_xml
    | Refreshed                                           // controller's refresh_views

  class ClipboardManager {
    var locked: bool
    var selection: seq<string>
    var prev: map<string, string>
    var parent: map<string, string>
    var clipboard: Option<ClipText>
    var novel: Containers
    var log: seq<Effect>

    constructor (locked: bool, selection: seq<string>, prev: map<string, string>,
                 parent: map<string, string>, clipboard: Option<ClipText>, novel: Containers)
      ensures this.locked == locked && this.selection == selection
      ensures this.prev == prev && this.parent == parent
      ensures this.clipboard == clipboard && this.novel == novel
      ensures log == []
    {
      this.locked := locked;
      this.selection := selection;
      this.prev := prev;
      this.parent := parent;
      this.clipboard := clipboard;
      this.novel := novel;
      log := [];
    }

    /**
     * Cut: copy the selected element, move the selection off it, then
     * delete it. `filter` is accepted and never used, as in the source.
     */
    method CutElement(filter: Option<string>) returns (r: Outcome)
      modifies this
      ensures locked == old(locked) && prev == old(prev) && parent == old(parent)
      ensures match PlanCut(old(locked), old(selection), old(novel), old(prev), old(parent))
        case CutStop(o) =>
          && r == o
          && clipboard == old(clipboard) && selection == old(selection)
          && novel == old(novel) && log == old(log)
        case CutMove(node, target, x) =>
          && r == Break
          && clipboard == Some(Fragment(x))
          && selection == [target]
          && novel == Erased(old(novel), node)
          && log == old(log) + [WentTo(target), Deleted(node)]
    {
      if locked {
        return Nothing;
      }
      if |selection| == 0 {
        return Nothing;
      }
      var node := selection[0];
      // The source passes its prefix positionally, into copy's `event`
      // parameter: the copy runs without a filter.
      r := CopyElement(None);
      if r != Break {
        // copy gave back None, or raised: the cut ends the same way
        return;
      }
      if Lookup(prev, node) != "" {
        GoToNode(Lookup(prev, node));
      } else {
        GoToNode(Lookup(parent, node));
      }
      DeleteElement(node);
      return Break;
    }

    /**
     * Copy: serialise the selected element, without its references, into a
     * fragment tagged with its prefix, and make it the clipboard's only
     * content. The lock is not consulted and only the clipboard changes.
     */
    method CopyElement(filter: Option<string>) returns (r: Outcome)
      modifies this`clipboard
      ensures match PlanCopy(selection, novel, filter)
        case CopyStop(o) => r == o && clipboard == old(clipboard)
        case CopyPut(_, _, x) => r == Break && clipboard == Some(Fragment(x))
    {
      if |selection| == 0 {
        return Nothing;
      }
      var node := selection[0];
      var nodePrefix := NodePrefix(node);
      if filter.Some? && nodePrefix != filter.value {
        return Nothing;
      }
      if nodePrefix !in ElementContainers {
        return Nothing;
      }
      var kind := ElementContainers[nodePrefix];
      if node !in Container(novel, kind) {
        return Raised(KeyError);
      }
      var elem := Container(novel, kind)[node];
      var xmlElement := new XmlElement(nodePrefix);
      ToXml(elem, xmlElement);
      RemoveReferences(xmlElement);
      ElementContainersExact(nodePrefix, kind);
      assert map[] + elem.attrs == elem.attrs;
      assert [] + elem.body == elem.body;
      assert xmlElement.Value() == Serialise(kind, elem);
      var text := Fragment(xmlElement.Value());
      clipboard := None;
      clipboard := Some(text);
      return Break;
    }

    /**
     * Paste: create an element of the kind the clipboard fragment's root tag
     * names, with the selected node as target, load it from the fragment, refresh
     * the views and select it. `created` is the id the model's creation
     * operation answers with, "" when it refuses; a creator answers a fresh
     * id, so every element the novel already holds survives a paste.
     */
    method PasteElement(filter: Option<string>, created: string) returns (r: Outcome)
      requires created == "" || forall k :: created !in Container(novel, k)
      modifies this
      ensures locked == old(locked) && prev == old(prev) && parent == old(parent)
      ensures clipboard == old(clipboard)
      ensures match PlanPaste(old(locked), old(selection), old(clipboard), filter)
        case PasteStop(o) =>
          r == o && selection == old(selection) && novel == old(novel) && log == old(log)
        case PasteCreate(route, target, x) =>
          if created == "" then
            r == Nothing && selection == old(selection) && novel == old(novel) && log == old(log)
          else
            && r == Break
            && selection == [created]
            && novel == old(novel)[route.container := Container(old(novel), route.container)[created := FromXml(x)]]
            && log == old(log) + [Created(route.creator, target, created), Loaded(route.container, created),
                                  Refreshed, WentTo(created)]
      ensures forall k, n :: n in Container(old(novel), k) ==>
        n in Container(novel, k) && Container(novel, k)[n] == Container(old(novel), k)[n]
    {
      ghost var plan := PlanPaste(locked, selection, clipboard, filter);
      if locked {
        return Nothing;
      }
      if |selection| == 0 {
        return Nothing;
      }
      var node := selection[0];
      if clipboard.None? || clipboard.value.Unparsable? {
        return Nothing;
      }
      var xmlElement := clipboard.value.root;
      var nodePrefix := xmlElement.tag;
      if filter.Some? && nodePrefix != filter.value {
        return Nothing;
      }
      var routing := ChooseCreator(xmlElement);
      if routing.NotAnInteger? {
        return Raised(ValueError);
      }
      if routing.Unrecognised? {
        return Nothing;
      }
      var route := routing.route;
      assert plan == PasteCreate(route, node, xmlElement);
      r := CreateAndLoad(route, node, xmlElement, created);
    }

    /**
     * Paste's last steps: create the element with the chosen creator, load
     * it from the fragment, refresh the views and select it; nothing of this
     * happens when the creator answers "".
     */
    method CreateAndLoad(route: Route, target: string, x: XNode, created: string) returns (r: Outcome)
      requires created == "" || forall k :: created !in Container(novel, k)
      modifies this`novel, this`log, this`selection
      ensures created == "" ==>
        r == Nothing && selection == old(selection) && novel == old(novel) && log == old(log)
      ensures created != "" ==>
        && r == Break
        && selection == [created]
        && novel == old(novel)[route.container := Container(old(novel), route.container)[created := FromXml(x)]]
        && log == old(log) + [Created(route.creator, target, created), Loaded(route.container, created),
                              Refreshed, WentTo(created)]
      ensures forall k, n :: n in Container(old(novel), k) ==>
        n in Container(novel, k) && Container(novel, k)[n] == Container(old(novel), k)[n]
    {
      ghost var before := Container(novel, route.container);
      var newNode := CreateElement(route, target, created);
      if newNode == "" {
        return Nothing;
      }
      assert Container(novel, route.container) == before[newNode := Blank];
      LoadElement(route.container, newNode, x);
      assert before[newNode := Blank][newNode := FromXml(x)] == before[newNode := FromXml(x)];
      FreshEntryKeeps(old(novel), route.container, newNode, FromXml(x));
      RefreshViews();
      GoToNode(newNode);
      return Break;
    }

    /**
     * Paste's choice of creation operation and container for a fragment: a
     * section goes by its `type` attribute, every other tag through the
     * table of the seven remaining kinds. This is the step-by-step form of
     * `RouteOf`, as the source writes it.
     */
    static method ChooseCreator(xmlElement: XNode) returns (routing: Routing)
      ensures routing == RouteOf(xmlElement)
      ensures routing.Routed? ==> Prefix(routing.route.container) == xmlElement.tag
    {
      var nodePrefix := xmlElement.tag;
      var route: Route;
      if nodePrefix == Prefix(Section) {
        var typeValue := TypeValue(xmlElement.attrs);
        if typeValue.None? {
          return NotAnInteger;
        }
        if typeValue.value > 1 {
          route := Route(AddStage, Section);
        } else {
          route := Route(Add(Section), Section);
        }
      } else {
        if nodePrefix !in ElementControls {
          return Unrecognised;
        }
        route := ElementControls[nodePrefix];
      }
      RouteOfMatchesTag(xmlElement);
      return Routed(route);
    }

    /**
     * Removes every child whose tag is a reference, one tag after another:
     * for each tag, find all such children and remove them one by one.
     */
    method RemoveReferences(xmlElement: XmlElement)
      modifies xmlElement
      ensures xmlElement.tag == old(xmlElement.tag) && xmlElement.attrib == old(xmlElement.attrib)
      ensures xmlElement.children == Stripped(old(xmlElement.children))
    {
      WithoutClean(xmlElement.children, []);
      assert References[..0] == [];
      for i := 0 to |References|
        invariant xmlElement.tag == old(xmlElement.tag) && xmlElement.attrib == old(xmlElement.attrib)
        invariant xmlElement.children == Without(old(xmlElement.children), References[..i])
      {
        var ref := References[i];
        var found := FindAll(xmlElement.children, ref);
        ghost var before := xmlElement.children;
        for k := 0 to |found|
          invariant xmlElement.tag == old(xmlElement.tag) && xmlElement.attrib == old(xmlElement.attrib)
          invariant FindAll(xmlElement.children, ref) == found[k..]
          invariant Without(xmlElement.children, [ref]) == Without(before, [ref])
        {
          RemoveFirstMatch(xmlElement.children, ref);
          assert found[k..][1..] == found[k + 1..];
          xmlElement.Remove(found[k]);
        }
        WithoutAbsent(xmlElement.children, ref);
        WithoutStep(old(xmlElement.children), References[..i], ref);
        assert References[..i + 1] == References[..i] + [ref];
      }
      assert References[..|References|] == References;
    }

    /** The tree view's `go_to_node`: `node` becomes the selection. */
    method GoToNode(node: string)
      modifies this`selection, this`log
      ensures selection == [node]
      ensures log == old(log) + [WentTo(node)]
    {
      selection := [node];
      log := log + [WentTo(node)];
    }

    /** The model's `delete_element`: `node` leaves the novel. */
    method DeleteElement(node: string)
      modifies this`novel, this`log
      ensures novel == Erased(old(novel), node)
      ensures log == old(log) + [Deleted(node)]
    {
      novel := Erased(novel, node);
      log := log + [Deleted(node)];
    }

    /**
     * One of the model's creation operations, called with the selected node
     * as target. It answers `created`; an answer other than "" is the fresh
     * id of a new blank element in the route's container.
     */
    method CreateElement(route: Route, target: string, created: string) returns (newNode: string)
      requires created == "" || created !in Container(novel, route.container)
      modifies this`novel, this`log
      ensures newNode == created
      ensures created == "" ==> novel == old(novel) && log == old(log)
      ensures created != "" ==>
        && novel == old(novel)[route.container := Container(old(novel), route.container)[created := Blank]]
        && log == old(log) + [Created(route.creator, target, created)]
    {
      newNode := created;
      if created != "" {
        novel := novel[route.container := Container(novel, route.container)[created := Blank]];
        log := log + [Created(route.creator, target, created)];
      }
    }

    /** `elemContainer[newNode].from_xml(xmlElement)`: the new element takes the fragment's content. */
    method LoadElement(kind: Kind, node: string, x: XNode)
      requires node in Container(novel, kind)
      modifies this`novel, this`log
      ensures novel == old(novel)[kind := Container(old(novel), kind)[node := FromXml(x)]]
      ensures log == old(log) + [Loaded(kind, node)]
    {
      novel := novel[kind := Container(novel, kind)[node := FromXml(x)]];
      log := log + [Loaded(kind, node)];
    }

    /** The controller's `refresh_views`. */
    method RefreshViews()
      modifies this`log
      ensures log == old(log) + [Refreshed]
    {
      log := log + [Refreshed];
    }
  }
}
